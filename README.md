# UpNext slot and bid engine, in Dafny

This project models the part of the UpNext live song-request auction that decides where bids go and how slots move on. Attendees bid money for songs during time slots, and a DJ approves, rejects or plays the bids. The model covers four parts:

- **Slot service** (`server/services/slotService.js`):
  - splits an event into back-to-back slots;
  - finds the slot the clock is in;
  - admits a bid into the current slot or a later one under a capacity of five unresolved bids;
  - ranks a slot's bids;
  - refunds every unresolved paid bid when a slot expires.
- **Vibe service** (`server/services/vibeService.js`), the slot lifecycle:
  - creates an event's slots, the first open for bidding;
  - moves from a slot to the next available one;
  - locks a slot and records its winner;
  - builds a timetable;
  - answers the "available", "active" and statistics queries.
- **The real-time server's game state** (`server/index.js`): one in-memory record of the current slot, the bids sorted by amount, a leaderboard of approved bids and the bid now playing. Submitting a bid, the DJ's approve/reject/win actions and "next slot" change it in place.
- **The client's countdown** (`client/src/components/CountdownTimer.jsx`): time left, its minutes/seconds split, the low-time flag and the `MM:SS` text.

The database tables become an in-memory store: the class `Store.Db`, with one field per table. A slot's id and a bid's id are their positions in `Db.slots` and `Db.bids`. Wallets are a map. Queries are functions over the table values. Operations that write to the database are methods that modify `Db`. The server's global state is the class `Server.GameState`. Its leaderboard and winner hold bid *ids*, so a later change to a bid shows through them, as the shared object references do in JavaScript. Times are integer milliseconds.

The modules are:

- `Wrappers`: `Option`, `Result` and `Outcome`.
- `Query`: the filter / order / take steps that both the database queries and the JavaScript array code use, with their ordering and completeness facts proved once.
- `JsText`: `String(n)`, `parseInt` and `padStart`.
- `Store`: the records and the `Db` class.
- `SlotService`, `VibeService`, `Server` and `CountdownTimer`: one module per source file.

Behaviour of the code that a reader might not expect, and that the model keeps as written:

- `generateSlots` has no guard against being called twice for an event. Each call appends a fresh schedule (`SlotService.GenerateSlots` ensures `db.slots == old(db.slots) + created`).
- Rejecting a bid in `server/index.js` does not rebuild the leaderboard, and no refund takes place. `Server.RejectLeavesStaleLeaderboard` shows that a listed bid stays listed once rejected, for every game state.
- `submitBid` enforces no minimum amount: zero, negative and non-numeric amounts are accepted (`Server.NoMinimumEnforced`).
- `setSlotWinner` does not check the bid's previous status, and its slot update stays even when the bid update then fails.
- `server/services/vibeService.js:17` destructures `duration Hours`, which is not valid JavaScript. The model reads it as `durationHours`, the field the next lines use.

## Model

Functions that only compute a value (`CountdownTimer.TimeLeft`, `Minutes`, `Seconds`, `IsLowTime`, `Display` and `OnTick`, `Server.ParsedAmount`, `SlotService.Occupancy`) appear in the rows of the lemmas that state their properties.

| member | source | states |
|---|---|---|
| Store.SlotDurationMs | server/services/slotService.js:71 | a slot lasts `60 / vibesPerHour` minutes: at least a minute, and `vibesPerHour` slots fill exactly one hour |
| SlotService.GenerateSlots | server/services/slotService.js:7-39 | no start time: nothing is created and `[]` is returned; otherwise exactly `durationHours × vibesPerHour` slots, numbered 1..N, `available`, of this event, slot i starting i durations after the start, appended to the store with nothing else changed |
| SlotService.GeneratedIsTimetabled | server/services/slotService.js:19-35 | a schedule generated for an event that had no slots yet sits as one run at the end of the slot table, slot i starting i durations after the event's start |
| SlotService.ScheduleIsContiguous | server/services/slotService.js:17-29 | in a generated schedule each slot starts exactly one slot duration after the one before, so slots are back to back and do not overlap |
| SlotService.LatestStarted | server/services/slotService.js:53-63 | the event's slot with the greatest `scheduledTime <= now` (the first such among equal times), or none exactly when no slot of the event has started |
| SlotService.GetCurrentSlot | server/services/slotService.js:46-84 | the latest-started slot; when the event is known it carries `endTime = scheduledTime + slot duration` and is dropped when `now > endTime`, so `now == endTime` is still current; none when no slot has started |
| SlotService.CurrentSlotOfSchedule | server/services/slotService.js:46-84 | when the event's slots form one run of the slot table timetabled from its start (other events' slots may lie anywhere else, and any slot's status may have changed since), before the start there is no current slot, and inside the event's span the current slot is the one at position `(now - start) / duration` of the event's schedule, with the matching end time |
| SlotService.LookAhead | server/services/slotService.js:114-121 | at most five distinct later slots of the event, in slot-number order, and any later slot left out is numbered no lower than every one taken |
| SlotService.AssignBidToSlot | server/services/slotService.js:92-142 | null exactly for an unknown current slot; the current slot while it holds fewer than five pending/approved bids; otherwise the first look-ahead slot with room; otherwise the current slot overbooked, and only when every look-ahead slot is full |
| SlotService.FirstWithRoom | server/services/slotService.js:123-135 | the look-ahead loop: the position of the first candidate slot with fewer than five pending/approved bids, every earlier one being full; none only when all candidates are full |
| SlotService.ResolvedBidsTakeNoCapacity | server/services/slotService.js:100-105 | `Occupancy` is the `bid.count` of the slot's pending/approved bids (lines 100-105 and 124-129); rejected and played bids never count toward it |
| SlotService.NewBidTakesOnePlace | server/services/slotService.js:124-129 | a new pending bid in a slot raises that slot's `Occupancy` (its `bid.count`) by exactly one |
| SlotService.GetTopBids | server/services/slotService.js:150-167 | only the slot's pending/approved bids, each at most once, at most `limit` (default 50) and all of them when fewer, by amount descending then earlier `submittedAt`; a bid left out ranks no higher than any returned |
| SlotService.RefundBid | server/services/slotService.js:186-212 | one bid's expiry as one atomic step, on the bid as stored at that position: with a wallet, the balance rises by exactly the bid amount, one REFUND transaction for that amount referencing the bid is appended, and the bid becomes rejected/refunded; without a wallet it is only rejected; a wallet id with no wallet fails and changes nothing |
| SlotService.ProcessSlotExpiry | server/services/slotService.js:174-214 | the slot's unresolved paid bids are processed in order, each as `RefundBid`; on success all of them are, and the slot has no unresolved paid bid left; a missing wallet stops the sweep at that bid with the earlier refunds kept |
| SlotService.SweepStep | server/services/slotService.js:187-205 | one more atomic refund extends a consistent partial sweep: bids, transaction log and wallet balances all account for exactly the bids processed so far |
| SlotService.SweepLeavesNothingExpired | server/services/slotService.js:176-182 | after a full sweep no bid of the slot is pending/approved and paid, so a second run finds nothing to do |
| SlotService.SweepTouchesOnlyExpired | server/services/slotService.js:176-182 | played bids, rejected or refunded bids and other slots' bids are left exactly as they were |
| SlotService.SweepCreditsMatchRefunds | server/services/slotService.js:187-205 | no wallet is created or removed, and what each wallet gains equals the REFUND transactions appended for it |
| SlotService.SweepKeepsRefundsMatched | server/services/slotService.js:192-200 | if every refunded bid had exactly one REFUND transaction referencing it before the sweep, the same holds after it |
| VibeService.CreateEventVibes | server/services/vibeService.js:8-48 | 'Event not found' for an unknown event and an error for a missing start time, creating nothing; otherwise `durationHours × vibesPerHour` slots numbered from 1, one interval apart, the first `bidding` and the rest `available` |
| VibeService.OneSlotOpenForBidding | server/services/vibeService.js:29-36 | in freshly created slots exactly the first is open for bidding |
| VibeService.TopApprovedBid | server/services/vibeService.js:65-75 | the slot's approved bid with the highest amount, or none exactly when the slot has no approved bid |
| VibeService.OpenSlotIds | server/services/vibeService.js:54-64 | at most ten distinct slots among the event's available/bidding ones, lowest slot numbers first, none skipped in favour of a higher number |
| VibeService.GetCurrentAvailableSlots | server/services/vibeService.js:53-77 | those slots, in that order, each with its highest approved bid |
| VibeService.GetCurrentActiveSlot | server/services/vibeService.js:82-111 | the latest-scheduled bidding/locked slot of the event with `scheduledTime <= now`, with its top approved bid, or none exactly when there is no such slot |
| VibeService.NextAvailable | server/services/vibeService.js:133-144 | the lowest-numbered `available` slot of the same event after the current one, or none exactly when there is none |
| VibeService.ProgressToNextSlot | server/services/vibeService.js:116-156 | 'Slot not found' for an unknown slot, changing nothing; otherwise the slot becomes `completed`, and the next available slot becomes `bidding` and is returned as found, or null when there is none; no other slot changes |
| VibeService.ProgressChangesTwoSlots | server/services/vibeService.js:126-155 | the slot opened is never the one just completed: it was available and has a higher slot number; every slot other than these two is left as it was |
| VibeService.LockSlot | server/services/vibeService.js:161-166 | the slot's status becomes `locked` and the updated record is returned; an unknown slot is an error |
| VibeService.SetSlotWinner | server/services/vibeService.js:171-191 | the slot gets the bid as winner and status `locked`; the bid becomes `played` with `playedAt` set, whatever its previous status; an unknown bid is an error after the slot change |
| VibeService.PlayedBidFreesItsPlace | server/services/vibeService.js:182-188 | marking a bid played lowers its slot's count of pending/approved bids by one if it held a place, and changes no other slot's count |
| VibeService.CalculateSlotSchedule | server/services/vibeService.js:196-214 | `durationHours × vibesPerHour` entries numbered from 1; each ends one interval after it starts, and each ends exactly when the next one starts |
| VibeService.TimetableCoversOnce | server/services/vibeService.js:203-211 | every instant of the scheduled span falls in exactly one entry |
| VibeService.PerSlotTotalCountsEachBidOnce | server/services/vibeService.js:238-241 | summing slot by slot over the event's slots counts every approved/played bid of the event exactly once |
| VibeService.GetSlotStatistics | server/services/vibeService.js:219-245 | the event's slot count, the number of its completed slots and of its available (upcoming) slots, the two never more than the total; the first locked slot as active, or none when no slot is locked; the number of approved/played bids in the event's slots and the sum of their amounts |
| JsText.ParseIntRoundTrip | server/index.js:41 | `parseInt(String(n))` gives back `n` for every integer |
| JsText.ParsePadded | client/src/components/CountdownTimer.jsx:36 | `parseInt` reads a zero-padded decimal number back as the number |
| Server.IndexOf | server/index.js:57-58 | the first position holding the id, or none exactly when no bid has it |
| Server.DisplayUser | server/index.js:42 | the user's name when one is given, "Anonymous" for a missing or empty name |
| Server.AmountRoundTrip | server/index.js:41 | `ParsedAmount` is `parseInt(amount)`, or 0 when that is NaN; any integer amount sent as text is read back exactly, whatever its sign |
| Server.NoMinimumEnforced | server/index.js:41 | "0" and "-50" are accepted as 0 and -50, and text that is not a number becomes 0 |
| Server.LeaderPositions | server/index.js:63-66 | at most ten distinct approved bids, highest amount first; an approved bid left out has an amount no higher than any shown |
| Server.Leaderboard | server/index.js:63-66 | the ids of those bids, in leaderboard order |
| Server.SubmitKeepsValid | server/index.js:38-49 | a submitted bid gets an id no bid has, and sorting it in keeps the ids distinct and below the next id, the amount order and the leaderboard and winner references valid |
| Server.StatusChangeKeepsValid | server/index.js:60-68 | changing one bid's status keeps the game state's invariant |
| Server.RebuiltLeaderboardKeepsValid | server/index.js:63-66 | a rebuilt leaderboard refers only to bids that exist |
| Server.GameState.constructor | server/index.js:18-27 | empty bids and leaderboard, no winner, an ACTIVE slot ending five minutes after start-up |
| Server.GameState.SubmitBid | server/index.js:37-53 | exactly one pending bid is added, with a fresh id, `parseInt(amount)` or 0, and the name or "Anonymous"; afterwards the bids are sorted by amount descending and are a permutation of the old bids plus the new one |
| Server.GameState.AdminAction | server/index.js:56-75 | an unknown id changes nothing and broadcasts nothing; approve changes only that bid's status and rebuilds the leaderboard; reject changes only that bid's status and leaves the leaderboard as it was; win sets the winner and changes no status |
| Server.GameState.AdminNextSlot | server/index.js:78-88 | bids and leaderboard empty, no winner, a new ACTIVE slot ending five minutes later |
| Server.RejectLeavesStaleLeaderboard | server/index.js:67-68 | when bid ids are distinct, rejecting a bid the leaderboard lists leaves it listed in the kept leaderboard, while a leaderboard rebuilt from the new bids does not hold its id |
| CountdownTimer.TimeLeftIsClamped | client/src/components/CountdownTimer.jsx:7-11 | `TimeLeft` is `Math.max(0, endTime - now)`: `endTime - now` when not past, 0 after, never negative |
| CountdownTimer.SplitIsExact | client/src/components/CountdownTimer.jsx:29-30 | `Minutes` and `Seconds` split the time left: seconds are in 0..59, and `minutes*60000 + seconds*1000 <= timeLeft < minutes*60000 + seconds*1000 + 1000` |
| CountdownTimer.LowTimeIsLastMinute | client/src/components/CountdownTimer.jsx:32 | `IsLowTime` (`minutes === 0 && seconds < 60`) holds exactly when minutes are 0, that is, when less than a minute is left |
| CountdownTimer.DisplayShape | client/src/components/CountdownTimer.jsx:36 | `Display` is the `MM:SS` text: at least five characters, the seconds are exactly two digits after a ':', and both parts read back as the minutes and seconds shown |
| CountdownTimer.ExpiresOnlyWhenDue | client/src/components/CountdownTimer.jsx:17-24 | `OnTick`, one interval tick, calls `onExpire` exactly when it is given and the end time has been reached |

## Left out

- Database and network I/O: Prisma calls are reads and writes of `Store.Db`, and `prisma.$transaction` is one atomic step. Socket.io and Express transport, `io.emit`/`socket.emit` and the client socket context are plumbing and are not modelled. `Server.GameState.AdminAction` returns only whether it would broadcast.
- Concurrency: the model is sequential. The count-then-assign race in `assignBidToSlot` and interleavings of socket handlers are not modelled.
- Clocks and timers: `Date.now()` and `new Date()` become a `now` parameter. `setInterval`/`setTimeout` and the React state wiring of the countdown are left out; one tick is `CountdownTimer.OnTick`.
- Server.GameState.SubmitBid: `Date.now().toString()` ids are modelled as a counter, so ids are always distinct. Two bids submitted in the same millisecond would share an id in the running server.
- Floating-point time: slot lengths are integer milliseconds, and `vibesPerHour` is assumed to divide 60 (`Store.VibesPerHour`). The truncation of fractional minutes by `Date.setMinutes`, daylight-saving shifts and `Number(bid.bidAmount)` rounding are not modelled.
- JsText.ParseInt: `parseInt` is modelled on strings with unbounded integers. Values past 2^53 losing precision, "Infinity", and non-string `amount` payloads are not modelled.
- Query.SortBy: stable (an insertion sort), but its contract states only order and permutation. Ties in database `orderBy` are broken by record position, where the database leaves the order unspecified.
- SlotService.GetTopBids and VibeService.GetCurrentAvailableSlots return record ids, not the records with their `include`d wallet and bids. The `createdAt` column of created slots is not modelled.
- VibeService.SetSlotWinner: the foreign-key check that the database applies to `currentWinnerBidId` is not modelled; the slot takes the id as given.
- SlotService.ProcessSlotExpiry: a bid whose wallet id names no wallet is modelled as the failing update of the refund transaction. It stops the sweep and reports that bid.
- Wallet debit, top-up and bid creation are not part of this model; only the refund side of the wallet ledger is.
- `server/services/musicService.js` (external music catalogue calls), `server/utils/auth.js` (tokens and middleware), `prisma/seed.js` and the React pages are not part of this model.
