/**
 * The slot service: generating an event's slots, finding the slot that is
 * current at a given time, admitting a bid into a slot under a capacity
 * limit, ranking a slot's bids, and refunding a slot's unresolved paid bids
 * once it has ended.
 */
module SlotService {
  import opened Wrappers
  import opened Query
  import opened Store

  /** Pending and approved bids a slot holds before admission looks further ahead. */
  const MAX_BIDS_PER_SLOT: nat := 5
  /** How many later slots admission looks at. */
  const LOOK_AHEAD: nat := 5
  /** `getTopBids`' default limit. */
  const DEFAULT_TOP_BIDS: nat := 50

  // ---------------------------------------------------------------------------
  // generateSlots

  /** Slot `i` (from 0) of a schedule starts `i` slot durations after `start`. */
  ghost predicate IsSchedule(slots: seq<Slot>, eventId: EventId, start: int, durationMs: nat, status: SlotStatus)
  {
    forall i :: 0 <= i < |slots| ==>
      slots[i] == Slot(eventId, i + 1, start + i * durationMs, status, None)
  }

  /**
   * The event's slots are the `n` rows from position `base` of the slot
   * table, which may hold other events' slots anywhere else; they start one
   * after another, `durationMs` apart from `start`, whatever their numbers,
   * statuses and winners have become since.
   */
  ghost predicate Timetabled(slots: seq<Slot>, eventId: EventId, base: nat, n: nat, start: int, durationMs: nat)
  {
    && base + n <= |slots|
    && (forall i :: 0 <= i < |slots| ==> (slots[i].eventId == eventId <==> base <= i < base + n))
    && (forall i :: base <= i < base + n ==> slots[i].scheduledTime == start + (i - base) * durationMs)
  }

  /**
   * Builds `durationHours * vibesPerHour` back-to-back slots, numbered from 1
   * and all `available`, and stores them; an event without a start time gets
   * none. Slots the event already has are not looked at.
   */
  method GenerateSlots(db: Db, event: Event) returns (created: seq<Slot>)
    modifies db
    ensures event.startTime.None? ==> created == []
    ensures event.startTime.Some? ==>
      && |created| == SlotCount(event.durationHours, event.vibesPerHour)
      && IsSchedule(created, event.id, event.startTime.value, SlotDurationMs(event.vibesPerHour), Available)
    ensures db.slots == old(db.slots) + created
    ensures db.events == old(db.events) && db.bids == old(db.bids)
    ensures db.wallets == old(db.wallets) && db.transactions == old(db.transactions)
  {
    if event.startTime.None? {
      return [];
    }
    var slotDurationMinutes := 60 / event.vibesPerHour;
    var totalSlots := event.durationHours * event.vibesPerHour;
    var slots: seq<Slot> := [];
    var currentTime := event.startTime.value;
    var i := 0;
    while i < totalSlots
      invariant 0 <= i <= SlotCount(event.durationHours, event.vibesPerHour)
      invariant |slots| == i
      invariant currentTime == event.startTime.value + i * SlotDurationMs(event.vibesPerHour)
      invariant IsSchedule(slots, event.id, event.startTime.value, SlotDurationMs(event.vibesPerHour), Available)
    {
      slots := slots + [Slot(event.id, i + 1, currentTime, Available, None)];
      currentTime := currentTime + slotDurationMinutes * 60000;
      i := i + 1;
    }
    db.slots := db.slots + slots;
    created := slots;
  }

  /** In a schedule each slot starts exactly when the one before it ends. */
  lemma ScheduleIsContiguous(slots: seq<Slot>, eventId: EventId, start: int, durationMs: nat, status: SlotStatus, i: nat)
    requires IsSchedule(slots, eventId, start, durationMs, status)
    requires i + 1 < |slots|
    ensures slots[i + 1].scheduledTime == slots[i].scheduledTime + durationMs
    ensures slots[i].scheduledTime < slots[i + 1].scheduledTime || durationMs == 0
  {
    assert slots[i + 1].scheduledTime == start + (i + 1) * durationMs;
  }

  // ---------------------------------------------------------------------------
  // getCurrentSlot

  function InEvent(eventId: EventId): Slot -> bool
  {
    (s: Slot) => s.eventId == eventId
  }

  /**
   * The position of the slot satisfying `p` that started last, not after
   * `now`: what a query filtered by `scheduledTime <= now`, ordered by
   * scheduledTime descending, returns first. Among equal start times the
   * earliest position is taken.
   */
  function LatestStarted(slots: seq<Slot>, p: Slot -> bool, now: int): (r: Option<SlotId>)
    ensures r.Some? ==> r.value < |slots| && p(slots[r.value]) && slots[r.value].scheduledTime <= now
    ensures r.Some? ==> forall j :: 0 <= j < |slots| && p(slots[j]) && slots[j].scheduledTime <= now ==>
      slots[j].scheduledTime <= slots[r.value].scheduledTime
    ensures r.Some? ==> forall j :: 0 <= j < r.value && p(slots[j]) && slots[j].scheduledTime <= now ==>
      slots[j].scheduledTime < slots[r.value].scheduledTime
    ensures r.None? ==> forall j :: 0 <= j < |slots| ==> !(p(slots[j]) && slots[j].scheduledTime <= now)
  {
    if slots == [] then None
    else
      var last := |slots| - 1;
      var init := slots[..last];
      var best := LatestStarted(init, p, now);
      assert forall j :: 0 <= j < last ==> init[j] == slots[j];
      if p(slots[last]) && slots[last].scheduledTime <= now &&
         (best.None? || slots[best.value].scheduledTime < slots[last].scheduledTime)
      then Some(last)
      else best
  }

  /** The current slot, with its end time when the event is known. */
  datatype CurrentSlot = CurrentSlot(id: SlotId, slot: Slot, endTime: Option<int>)

  /**
   * The event's slot that started last, not after `now`. When the event is
   * known, its end is one slot duration after its start and a slot that
   * ended before `now` is no longer current; at its end time it still is.
   */
  function GetCurrentSlot(events: map<EventId, Event>, slots: seq<Slot>, eventId: EventId, now: int): (r: Option<CurrentSlot>)
    ensures r.Some? ==> LatestStarted(slots, InEvent(eventId), now) == Some(r.value.id) && r.value.slot == slots[r.value.id]
    ensures r.Some? ==> (r.value.endTime.Some? <==> eventId in events)
    ensures r.Some? && eventId in events ==>
      && r.value.endTime == Some(r.value.slot.scheduledTime + SlotDurationMs(events[eventId].vibesPerHour))
      && now <= r.value.endTime.value
    ensures r.None? <==>
      || LatestStarted(slots, InEvent(eventId), now).None?
      || (eventId in events &&
          now > slots[LatestStarted(slots, InEvent(eventId), now).value].scheduledTime + SlotDurationMs(events[eventId].vibesPerHour))
  {
    match LatestStarted(slots, InEvent(eventId), now)
    case None => None
    case Some(id) =>
      if eventId in events then
        var slotEndTime := slots[id].scheduledTime + SlotDurationMs(events[eventId].vibesPerHour);
        if now > slotEndTime then None else Some(CurrentSlot(id, slots[id], Some(slotEndTime)))
      else Some(CurrentSlot(id, slots[id], None))
  }

  lemma MulMonotone(a: int, b: int, d: nat)
    requires a <= b
    ensures a * d <= b * d
  {
    assert b * d - a * d == (b - a) * d;
  }

  lemma StepMonotone(a: int, b: int, d: nat)
    requires a < b
    ensures a * d + d <= b * d
  {
    MulMonotone(a + 1, b, d);
    assert (a + 1) * d == a * d + d;
  }

  /** The slot window, of `n` windows of `d` starting at `start`, that holds `now`. */
  lemma WindowOf(start: int, d: nat, n: nat, now: int)
    requires d > 0 && start <= now < start + n * d
    ensures var k := (now - start) / d;
      0 <= k < n && start + k * d <= now < start + k * d + d
  {
    var k := (now - start) / d;
    assert k * d <= now - start < k * d + d;
    if k >= n {
      MulMonotone(n, k, d);
    }
  }

  /**
   * On an event whose slots start where a generated schedule put them,
   * whatever their statuses since, the current slot at any time within the
   * schedule is the one whose window holds it (at a boundary, the slot that
   * starts there), and its end is where the next one starts; before the
   * first start there is none.
   */
  lemma CurrentSlotOfSchedule(events: map<EventId, Event>, slots: seq<Slot>, event: Event, base: nat, n: nat, now: int)
    requires event.id in events && events[event.id] == event && event.startTime.Some?
    requires Timetabled(slots, event.id, base, n, event.startTime.value, SlotDurationMs(event.vibesPerHour))
    ensures var start := event.startTime.value;
      var d := SlotDurationMs(event.vibesPerHour);
      && (now < start ==> GetCurrentSlot(events, slots, event.id, now).None?)
      && (start <= now < start + n * d ==>
           var k := (now - start) / d;
           0 <= k < n &&
           GetCurrentSlot(events, slots, event.id, now) ==
             Some(CurrentSlot(base + k, slots[base + k], Some(start + k * d + d))))
  {
    var start := event.startTime.value;
    var d := SlotDurationMs(event.vibesPerHour);
    var r := LatestStarted(slots, InEvent(event.id), now);
    if now < start {
      if r.Some? {
        var i := r.value;
        assert InEvent(event.id)(slots[i]);
        MulMonotone(0, i - base, d);
      }
    }
    if start <= now < start + n * d {
      WindowOf(start, d, n, now);
      var k := (now - start) / d;
      assert slots[base + k].scheduledTime == start + k * d;
      assert InEvent(event.id)(slots[base + k]);
      assert r.Some?;
      var i := r.value;
      assert InEvent(event.id)(slots[i]);
      var j := i - base;
      assert slots[i].scheduledTime == start + j * d;
      if j < k {
        StepMonotone(j, k, d);
        assert false;
      }
      if j > k {
        StepMonotone(k, j, d);
        assert false;
      }
    }
  }

  /**
   * Generating a schedule for an event that had no slots yet leaves the
   * event's slots timetabled at the end of the table, after all the others.
   */
  lemma GeneratedIsTimetabled(before: seq<Slot>, created: seq<Slot>, event: Event, status: SlotStatus)
    requires event.startTime.Some?
    requires forall i :: 0 <= i < |before| ==> before[i].eventId != event.id
    requires IsSchedule(created, event.id, event.startTime.value, SlotDurationMs(event.vibesPerHour), status)
    ensures Timetabled(before + created, event.id, |before|, |created|,
                       event.startTime.value, SlotDurationMs(event.vibesPerHour))
  {
    var all := before + created;
    forall i | |before| <= i < |all|
      ensures all[i] == created[i - |before|]
    {
    }
  }

  // ---------------------------------------------------------------------------
  // assignBidToSlot

  /** Holds of a bid that occupies slot `slotId`: it is in it and pending or approved. */
  function OccupiesSlot(slotId: SlotId): Bid -> bool
  {
    (b: Bid) => b.vibeSlotId == Some(slotId) && Unresolved(b)
  }

  /** How many bids occupy slot `slotId`. */
  function Occupancy(bids: seq<Bid>, slotId: SlotId): nat
  {
    CountWhere(bids, OccupiesSlot(slotId))
  }

  function LaterInEvent(eventId: EventId, slotNumber: int): Slot -> bool
  {
    (s: Slot) => s.eventId == eventId && s.slotNumber > slotNumber
  }

  function NumberKey(slots: seq<Slot>): SlotId -> Key
  {
    (i: SlotId) => if i < |slots| then Key(slots[i].slotNumber, 0) else Key(0, 0)
  }

  /**
   * The event's next slots after slot number `slotNumber`: up to LOOK_AHEAD
   * of them, by slotNumber ascending, leaving out only slots numbered no
   * lower than every one taken.
   */
  function LookAhead(slots: seq<Slot>, eventId: EventId, slotNumber: int): (r: seq<SlotId>)
    ensures |r| <= LOOK_AHEAD
    ensures forall k :: 0 <= k < |r| ==> r[k] < |slots| && LaterInEvent(eventId, slotNumber)(slots[r[k]])
    ensures forall i, j :: 0 <= i < j < |r| ==> r[i] != r[j]
    ensures forall i, j :: 0 <= i < j < |r| ==> slots[r[i]].slotNumber <= slots[r[j]].slotNumber
    ensures forall j :: 0 <= j < |slots| && LaterInEvent(eventId, slotNumber)(slots[j]) && j !in r ==>
      |r| == LOOK_AHEAD && forall k :: 0 <= k < |r| ==> slots[r[k]].slotNumber <= slots[j].slotNumber
  {
    TopMatching(slots, LaterInEvent(eventId, slotNumber), NumberKey(slots), LOOK_AHEAD)
  }

  /**
   * Chooses the slot for a new bid: none when the current slot is unknown;
   * the current slot while it holds fewer than MAX_BIDS_PER_SLOT pending or
   * approved bids; otherwise the first of the look-ahead slots with room;
   * and when they are all full too, the current slot again (overbooking).
   */
  method AssignBidToSlot(slots: seq<Slot>, bids: seq<Bid>, eventId: EventId, currentSlotId: SlotId)
    returns (r: Option<SlotId>)
    ensures r.None? <==> currentSlotId >= |slots|
    ensures currentSlotId < |slots| && Occupancy(bids, currentSlotId) < MAX_BIDS_PER_SLOT ==>
      r == Some(currentSlotId)
    ensures currentSlotId < |slots| && Occupancy(bids, currentSlotId) >= MAX_BIDS_PER_SLOT ==>
      var next := LookAhead(slots, eventId, slots[currentSlotId].slotNumber);
      || (exists k :: 0 <= k < |next| && r == Some(next[k]) && Occupancy(bids, next[k]) < MAX_BIDS_PER_SLOT &&
            forall k' :: 0 <= k' < k ==> Occupancy(bids, next[k']) >= MAX_BIDS_PER_SLOT)
      || (r == Some(currentSlotId) && forall k :: 0 <= k < |next| ==> Occupancy(bids, next[k]) >= MAX_BIDS_PER_SLOT)
    ensures r.Some? && Occupancy(bids, r.value) >= MAX_BIDS_PER_SLOT ==>
      && r.value == currentSlotId
      && var next := LookAhead(slots, eventId, slots[currentSlotId].slotNumber);
         forall k :: 0 <= k < |next| ==> Occupancy(bids, next[k]) >= MAX_BIDS_PER_SLOT
  {
    if currentSlotId >= |slots| {
      return None;
    }
    var currentSlot := slots[currentSlotId];
    var currentCount := Occupancy(bids, currentSlotId);
    if currentCount < MAX_BIDS_PER_SLOT {
      return Some(currentSlotId);
    }
    var nextSlots := LookAhead(slots, eventId, currentSlot.slotNumber);
    var found := FirstWithRoom(bids, nextSlots);
    if found.Some? {
      return Some(nextSlots[found.value]);
    }
    return Some(currentSlotId);
  }

  /**
   * The position of the first candidate slot holding fewer than
   * MAX_BIDS_PER_SLOT pending or approved bids, or none when all are full.
   */
  method FirstWithRoom(bids: seq<Bid>, candidates: seq<SlotId>) returns (found: Option<nat>)
    ensures found.Some? ==>
      && found.value < |candidates|
      && Occupancy(bids, candidates[found.value]) < MAX_BIDS_PER_SLOT
      && forall k :: 0 <= k < found.value ==> Occupancy(bids, candidates[k]) >= MAX_BIDS_PER_SLOT
    ensures found.None? ==> forall k :: 0 <= k < |candidates| ==> Occupancy(bids, candidates[k]) >= MAX_BIDS_PER_SLOT
  {
    for k := 0 to |candidates|
      invariant forall k' :: 0 <= k' < k ==> Occupancy(bids, candidates[k']) >= MAX_BIDS_PER_SLOT
    {
      var slotCount := Occupancy(bids, candidates[k]);
      if slotCount < MAX_BIDS_PER_SLOT {
        return Some(k);
      }
    }
    return None;
  }

  /** Rejected and played bids take no capacity: turning one into another resolved bid changes no slot's occupancy. */
  lemma ResolvedBidsTakeNoCapacity(bids: seq<Bid>, i: nat, b: Bid, slotId: SlotId)
    requires i < |bids| && !Unresolved(bids[i]) && !Unresolved(b)
    ensures Occupancy(bids[i := b], slotId) == Occupancy(bids, slotId)
  {
    CountSameVerdicts(bids, bids[i := b], OccupiesSlot(slotId));
  }

  /** A new pending bid placed in a slot adds exactly one to that slot's occupancy. */
  lemma NewBidTakesOnePlace(bids: seq<Bid>, b: Bid, slotId: SlotId)
    requires b.vibeSlotId == Some(slotId) && b.status == Pending
    ensures Occupancy(bids + [b], slotId) == Occupancy(bids, slotId) + 1
  {
    assert (bids + [b])[..|bids|] == bids;
  }

  // ---------------------------------------------------------------------------
  // getTopBids

  /** `a` ranks at or above `b`: a higher amount, or the same amount submitted no later. */
  predicate RanksAtOrAbove(a: Bid, b: Bid)
  {
    a.bidAmount > b.bidAmount || (a.bidAmount == b.bidAmount && a.submittedAt <= b.submittedAt)
  }

  function RankKey(bids: seq<Bid>): BidId -> Key
  {
    (i: BidId) => if i < |bids| then Key(-bids[i].bidAmount, bids[i].submittedAt) else Key(0, 0)
  }

  /**
   * The slot's pending and approved bids, highest amount first and, among
   * equal amounts, earliest submission first; at most `limit` of them, and
   * every bid of the slot left out ranks no higher than all those returned.
   */
  function GetTopBids(bids: seq<Bid>, slotId: SlotId, limit: nat := DEFAULT_TOP_BIDS): (r: seq<BidId>)
    ensures |r| == if limit < Occupancy(bids, slotId) then limit else Occupancy(bids, slotId)
    ensures forall k :: 0 <= k < |r| ==> r[k] < |bids| && OccupiesSlot(slotId)(bids[r[k]])
    ensures forall i, j :: 0 <= i < j < |r| ==> r[i] != r[j]
    ensures forall i, j :: 0 <= i < j < |r| ==> RanksAtOrAbove(bids[r[i]], bids[r[j]])
    ensures forall j :: 0 <= j < |bids| && OccupiesSlot(slotId)(bids[j]) && j !in r ==>
      |r| == limit && forall k :: 0 <= k < |r| ==> RanksAtOrAbove(bids[r[k]], bids[j])
  {
    MatchingCount(bids, OccupiesSlot(slotId));
    TopMatching(bids, OccupiesSlot(slotId), RankKey(bids), limit)
  }

  // ---------------------------------------------------------------------------
  // processSlotExpiry

  /** Holds of a paid bid of slot `slotId` that is still pending or approved. */
  function ExpiredIn(slotId: SlotId): Bid -> bool
  {
    (b: Bid) => b.vibeSlotId == Some(slotId) && Unresolved(b) && b.paymentStatus == Paid
  }

  /** A bid once its slot has expired: rejected, and refunded when it has a wallet. */
  function Expire(b: Bid): Bid
  {
    if b.walletId.Some? then b.(status := Rejected, paymentStatus := Refunded) else b.(status := Rejected)
  }

  function RefundDescription(songTitle: string): string
  {
    "Refund: Slot ended without play for \"" + songTitle + "\""
  }

  /** The REFUND transaction for bid `id` (record `b`), which has a wallet. */
  function RefundFor(id: BidId, b: Bid): WalletTransaction
    requires b.walletId.Some?
  {
    WalletTransaction(b.walletId.value, b.bidAmount, Refund, RefundDescription(b.songTitle), Some(id))
  }

  predicate AllIn(ids: seq<BidId>, bids: seq<Bid>)
  {
    forall k :: 0 <= k < |ids| ==> ids[k] < |bids|
  }

  /** The transactions written for the bids `ids`, in order: one REFUND per bid with a wallet. */
  function RefundLog(bids: seq<Bid>, ids: seq<BidId>): seq<WalletTransaction>
    requires AllIn(ids, bids)
  {
    if ids == [] then []
    else
      var id := ids[|ids| - 1];
      RefundLog(bids, ids[..|ids| - 1]) + (if bids[id].walletId.Some? then [RefundFor(id, bids[id])] else [])
  }

  /** What the bids `ids` refund into wallet `w`. */
  function RefundedTo(bids: seq<Bid>, ids: seq<BidId>, w: WalletId): int
    requires AllIn(ids, bids)
  {
    if ids == [] then 0
    else
      var id := ids[|ids| - 1];
      RefundedTo(bids, ids[..|ids| - 1], w) + (if bids[id].walletId == Some(w) then bids[id].bidAmount else 0)
  }

  /** `now` is `before` with exactly the bids `done` expired. */
  ghost predicate SweptBids(now: seq<Bid>, before: seq<Bid>, done: seq<BidId>)
  {
    |now| == |before| &&
    forall j :: 0 <= j < |now| ==> now[j] == if j in done then Expire(before[j]) else before[j]
  }

  /** `now` is `before` with what the bids `done` refund credited to each wallet. */
  ghost predicate SweptWallets(now: map<WalletId, Wallet>, before: map<WalletId, Wallet>, bids: seq<Bid>, done: seq<BidId>)
    requires AllIn(done, bids)
  {
    now.Keys == before.Keys &&
    forall w :: w in now ==> now[w] == before[w].(balance := before[w].balance + RefundedTo(bids, done, w))
  }

  lemma RefundLogStep(bids: seq<Bid>, ids: seq<BidId>, id: BidId)
    requires AllIn(ids, bids) && id < |bids|
    ensures AllIn(ids + [id], bids)
    ensures RefundLog(bids, ids + [id]) ==
      RefundLog(bids, ids) + (if bids[id].walletId.Some? then [RefundFor(id, bids[id])] else [])
    ensures forall w: WalletId :: RefundedTo(bids, ids + [id], w) ==
                                  RefundedTo(bids, ids, w) + (if bids[id].walletId == Some(w) then bids[id].bidAmount else 0)
  {
    assert (ids + [id])[..|ids|] == ids;
  }

  /**
   * One bid's refund (`b` is the bid's record, at position `id`) takes the
   * tables from `bids`, `txns`, `wallets` to the primed ones: the bid is
   * expired and, when it has a wallet, that wallet is credited with the bid
   * amount and the REFUND transaction appended.
   */
  ghost predicate RefundStep(bids: seq<Bid>, txns: seq<WalletTransaction>, wallets: map<WalletId, Wallet>,
                             bids': seq<Bid>, txns': seq<WalletTransaction>, wallets': map<WalletId, Wallet>,
                             id: BidId, b: Bid)
  {
    && id < |bids|
    && bids' == bids[id := Expire(b)]
    && (b.walletId.Some? ==>
          && var w := b.walletId.value;
          && w in wallets
          && txns' == txns + [RefundFor(id, b)]
          && wallets' == wallets[w := wallets[w].(balance := wallets[w].balance + b.bidAmount)])
    && (b.walletId.None? ==> txns' == txns && wallets' == wallets)
  }

  /**
   * The database after the sweep has dealt with the bids `done`, in order,
   * starting from bids `bids0`, transactions `txns0` and wallets `wallets0`.
   */
  ghost predicate Swept(bids: seq<Bid>, txns: seq<WalletTransaction>, wallets: map<WalletId, Wallet>,
                        bids0: seq<Bid>, txns0: seq<WalletTransaction>, wallets0: map<WalletId, Wallet>,
                        done: seq<BidId>)
  {
    && AllIn(done, bids0)
    && SweptBids(bids, bids0, done)
    && txns == txns0 + RefundLog(bids0, done)
    && SweptWallets(wallets, wallets0, bids0, done)
  }

  /** Refunding one more bid, not dealt with yet, extends the sweep by that bid. */
  lemma SweepStep(bids: seq<Bid>, txns: seq<WalletTransaction>, wallets: map<WalletId, Wallet>,
                  bids': seq<Bid>, txns': seq<WalletTransaction>, wallets': map<WalletId, Wallet>,
                  bids0: seq<Bid>, txns0: seq<WalletTransaction>, wallets0: map<WalletId, Wallet>,
                  done: seq<BidId>, id: BidId)
    requires Swept(bids, txns, wallets, bids0, txns0, wallets0, done)
    requires id < |bids0| && id !in done
    requires RefundStep(bids, txns, wallets, bids', txns', wallets', id, bids0[id])
    ensures Swept(bids', txns', wallets', bids0, txns0, wallets0, done + [id])
  {
    RefundLogStep(bids0, done, id);
    SweptBidsStep(bids, bids', bids0, done, id);
    assert txns' == txns0 + RefundLog(bids0, done + [id]);
    SweptWalletsStep(wallets, wallets', wallets0, bids0, done, id);
  }

  /** Expiring one more bid extends the bids part of the sweep. */
  lemma SweptBidsStep(bids: seq<Bid>, bids': seq<Bid>, bids0: seq<Bid>, done: seq<BidId>, id: BidId)
    requires SweptBids(bids, bids0, done) && id < |bids0| && id !in done
    requires bids' == bids[id := Expire(bids0[id])]
    ensures SweptBids(bids', bids0, done + [id])
  {
    forall j | 0 <= j < |bids'|
      ensures bids'[j] == if j in done + [id] then Expire(bids0[j]) else bids0[j]
    {
      assert j in done + [id] <==> j in done || j == id;
    }
  }

  /** Crediting one more bid's wallet extends the wallets part of the sweep. */
  lemma SweptWalletsStep(wallets: map<WalletId, Wallet>, wallets': map<WalletId, Wallet>, wallets0: map<WalletId, Wallet>,
                         bids0: seq<Bid>, done: seq<BidId>, id: BidId)
    requires AllIn(done, bids0) && id < |bids0|
    requires SweptWallets(wallets, wallets0, bids0, done)
    requires bids0[id].walletId.Some? ==>
      && bids0[id].walletId.value in wallets
      && wallets' == wallets[bids0[id].walletId.value := wallets[bids0[id].walletId.value].(
           balance := wallets[bids0[id].walletId.value].balance + bids0[id].bidAmount)]
    requires bids0[id].walletId.None? ==> wallets' == wallets
    ensures AllIn(done + [id], bids0)
    ensures SweptWallets(wallets', wallets0, bids0, done + [id])
  {
    RefundLogStep(bids0, done, id);
  }

  /**
   * One bid's refund, as one database transaction: the wallet is credited,
   * the REFUND transaction written and the bid marked rejected and refunded;
   * a bid without a wallet is only marked rejected. When the wallet does not
   * exist the credit fails and nothing changes.
   */
  method RefundBid(db: Db, id: BidId, bid: Bid) returns (ok: bool)
    requires id < |db.bids| && bid == db.bids[id]
    modifies db
    ensures ok <==> bid.walletId.None? || bid.walletId.value in old(db.wallets)
    ensures !ok ==> unchanged(db)
    ensures ok ==> RefundStep(old(db.bids), old(db.transactions), old(db.wallets),
                              db.bids, db.transactions, db.wallets, id, bid)
    ensures db.events == old(db.events) && db.slots == old(db.slots)
  {
    if bid.walletId.Some? {
      var w := bid.walletId.value;
      if w !in db.wallets {
        return false;
      }
      db.wallets := db.wallets[w := db.wallets[w].(balance := db.wallets[w].balance + bid.bidAmount)];
      db.transactions := db.transactions + [RefundFor(id, bid)];
      db.bids := db.bids[id := bid.(status := Rejected, paymentStatus := Refunded)];
    } else {
      db.bids := db.bids[id := bid.(status := Rejected)];
    }
    return true;
  }

  /**
   * Refunds, one bid at a time and each as one atomic step, every paid bid of
   * the slot that is still pending or approved: its wallet is credited with
   * the bid amount, a REFUND transaction referencing the bid is appended, and
   * the bid becomes rejected and refunded (a bid without a wallet is only
   * rejected). A wallet that does not exist aborts that step and the sweep,
   * keeping the steps already done; `processed` names the bids dealt with.
   */
  method ProcessSlotExpiry(db: Db, slotId: SlotId) returns (outcome: Outcome<BidId>, ghost processed: seq<BidId>)
    modifies db
    ensures SweepReport(outcome, processed, Matching(old(db.bids), ExpiredIn(slotId)), old(db.bids), old(db.wallets))
    ensures Swept(db.bids, db.transactions, db.wallets, old(db.bids), old(db.transactions), old(db.wallets), processed)
    ensures outcome.Pass? ==> Matching(db.bids, ExpiredIn(slotId)) == []
    ensures db.events == old(db.events) && db.slots == old(db.slots)
  {
    var snapshot := db.bids;
    var expired := Matching(snapshot, ExpiredIn(slotId));
    assert expired == Matching(old(db.bids), ExpiredIn(slotId));
    var k := 0;
    while k < |expired|
      invariant 0 <= k <= |expired|
      invariant Swept(db.bids, db.transactions, db.wallets, snapshot, old(db.transactions), old(db.wallets), expired[..k])
      invariant db.events == old(db.events) && db.slots == old(db.slots) && snapshot == old(db.bids)
    {
      var id := expired[k];
      assert id in expired;
      var bid := snapshot[id];
      ghost var done := expired[..k];
      assert expired[..k + 1] == done + [id];
      assert id !in done;
      assert db.bids[id] == bid;
      ghost var (bidsBefore, txnsBefore, walletsBefore) := (db.bids, db.transactions, db.wallets);
      var ok := RefundBid(db, id, bid);
      if !ok {
        assert |done| == k && done <= expired && done != expired;
        assert db.wallets == walletsBefore && walletsBefore.Keys == old(db.wallets).Keys;
        assert bid.walletId.value !in old(db.wallets);
        AbortReport(expired, k, snapshot, old(db.wallets));
        return Fail(id), done;
      }
      SweepStep(bidsBefore, txnsBefore, walletsBefore, db.bids, db.transactions, db.wallets,
                snapshot, old(db.transactions), old(db.wallets), done, id);
      k := k + 1;
    }
    assert expired[..k] == expired;
    SweepLeavesNothingExpired(db.bids, snapshot, slotId);
    PassReport(expired, snapshot, old(db.wallets));
    return Pass, expired;
  }

  /**
   * How the sweep over the bids `expired` (of `bids0`, with wallets
   * `wallets0`) reports its end: it dealt with a prefix of them, all of them
   * exactly when it passes, and when it fails it names the first bid not
   * dealt with, whose wallet does not exist.
   */
  ghost predicate SweepReport(outcome: Outcome<BidId>, processed: seq<BidId>, expired: seq<BidId>,
                              bids0: seq<Bid>, wallets0: map<WalletId, Wallet>)
  {
    && processed <= expired
    && (outcome.Pass? <==> processed == expired)
    && (outcome.Fail? ==>
         && |processed| < |expired| && outcome.error == expired[|processed|]
         && outcome.error in expired
         && outcome.error < |bids0|
         && bids0[outcome.error].walletId.Some?
         && bids0[outcome.error].walletId.value !in wallets0)
  }

  /** A sweep stopped at position `k` by a missing wallet reports that bid. */
  lemma AbortReport(expired: seq<BidId>, k: nat, bids0: seq<Bid>, wallets0: map<WalletId, Wallet>)
    requires k < |expired| && expired[k] < |bids0|
    requires bids0[expired[k]].walletId.Some? && bids0[expired[k]].walletId.value !in wallets0
    ensures SweepReport(Fail(expired[k]), expired[..k], expired, bids0, wallets0)
  {
    assert expired[k] in expired;
  }

  /** A sweep that dealt with every bid passes. */
  lemma PassReport(expired: seq<BidId>, bids0: seq<Bid>, wallets0: map<WalletId, Wallet>)
    ensures SweepReport(Pass, expired, expired, bids0, wallets0)
  {
  }

  /** A completed sweep leaves no paid bid of the slot pending or approved: running it again does nothing. */
  lemma SweepLeavesNothingExpired(bids: seq<Bid>, bids0: seq<Bid>, slotId: SlotId)
    requires SweptBids(bids, bids0, Matching(bids0, ExpiredIn(slotId)))
    ensures Matching(bids, ExpiredIn(slotId)) == []
  {
    var expired := Matching(bids0, ExpiredIn(slotId));
    forall j | 0 <= j < |bids| ensures !ExpiredIn(slotId)(bids[j]) {
      if j in expired {
        assert bids[j] == Expire(bids0[j]);
      }
    }
  }

  /** The sweep leaves every bid that is not an unresolved paid bid of the slot (played bids, other slots' bids) as it was. */
  lemma SweepTouchesOnlyExpired(bids: seq<Bid>, bids0: seq<Bid>, slotId: SlotId, done: seq<BidId>)
    requires SweptBids(bids, bids0, done)
    requires done <= Matching(bids0, ExpiredIn(slotId))
    ensures forall j :: 0 <= j < |bids0| && !ExpiredIn(slotId)(bids0[j]) ==> bids[j] == bids0[j]
  {
    var expired := Matching(bids0, ExpiredIn(slotId));
    assert forall k :: 0 <= k < |done| ==> done[k] == expired[k];
  }

  // Money: every credit the sweep makes is matched by a REFUND transaction.

  /** The total of the REFUND transactions into wallet `w`. */
  function RefundTotal(txns: seq<WalletTransaction>, w: WalletId): int
  {
    if txns == [] then 0
    else
      var t := txns[|txns| - 1];
      RefundTotal(txns[..|txns| - 1], w) + (if t.txType == Refund && t.walletId == w then t.amount else 0)
  }

  lemma {:induction false} RefundTotalAppend(a: seq<WalletTransaction>, b: seq<WalletTransaction>, w: WalletId)
    ensures RefundTotal(a + b, w) == RefundTotal(a, w) + RefundTotal(b, w)
  {
    if b != [] {
      RefundTotalAppend(a, b[..|b| - 1], w);
      assert (a + b)[..|a + b| - 1] == a + b[..|b| - 1];
    } else {
      assert a + b == a;
    }
  }

  lemma {:induction false} RefundLogTotal(bids: seq<Bid>, ids: seq<BidId>, w: WalletId)
    requires AllIn(ids, bids)
    ensures RefundTotal(RefundLog(bids, ids), w) == RefundedTo(bids, ids, w)
  {
    if ids != [] {
      var id := ids[|ids| - 1];
      RefundLogTotal(bids, ids[..|ids| - 1], w);
      RefundTotalAppend(RefundLog(bids, ids[..|ids| - 1]),
                        if bids[id].walletId.Some? then [RefundFor(id, bids[id])] else [], w);
      if bids[id].walletId.Some? {
        assert RefundTotal([RefundFor(id, bids[id])], w) == RefundTotal([], w) + (if bids[id].walletId == Some(w) then bids[id].bidAmount else 0);
      }
    }
  }

  /** What the sweep credits each wallet is exactly what the REFUND transactions it appended for that wallet add up to. */
  lemma SweepCreditsMatchRefunds(bids: seq<Bid>, txns: seq<WalletTransaction>, wallets: map<WalletId, Wallet>,
                                 bids0: seq<Bid>, txns0: seq<WalletTransaction>, wallets0: map<WalletId, Wallet>,
                                 done: seq<BidId>)
    requires Swept(bids, txns, wallets, bids0, txns0, wallets0, done)
    ensures wallets.Keys == wallets0.Keys
    ensures forall w :: w in wallets ==>
      wallets[w].balance - wallets0[w].balance == RefundTotal(txns, w) - RefundTotal(txns0, w)
  {
    forall w | w in wallets
      ensures wallets[w].balance - wallets0[w].balance == RefundTotal(txns, w) - RefundTotal(txns0, w)
    {
      RefundTotalAppend(txns0, RefundLog(bids0, done), w);
      RefundLogTotal(bids0, done, w);
    }
  }

  // Refund references: each refunded bid has exactly one REFUND transaction.

  /** The number of REFUND transactions that reference bid `id`. */
  function RefundsFor(txns: seq<WalletTransaction>, id: BidId): nat
  {
    if txns == [] then 0
    else
      var t := txns[|txns| - 1];
      RefundsFor(txns[..|txns| - 1], id) + (if t.txType == Refund && t.referenceId == Some(id) then 1 else 0)
  }

  /** Exactly the refunded bids have a REFUND transaction referencing them, one each. */
  ghost predicate RefundsMatch(bids: seq<Bid>, txns: seq<WalletTransaction>)
  {
    forall j :: 0 <= j < |bids| ==> RefundsFor(txns, j) == if bids[j].paymentStatus == Refunded then 1 else 0
  }

  lemma {:induction false} RefundsForAppend(a: seq<WalletTransaction>, b: seq<WalletTransaction>, id: BidId)
    ensures RefundsFor(a + b, id) == RefundsFor(a, id) + RefundsFor(b, id)
  {
    if b != [] {
      RefundsForAppend(a, b[..|b| - 1], id);
      assert (a + b)[..|a + b| - 1] == a + b[..|b| - 1];
    } else {
      assert a + b == a;
    }
  }

  predicate Increasing(ids: seq<BidId>)
  {
    forall i, j :: 0 <= i < j < |ids| ==> ids[i] < ids[j]
  }

  lemma {:induction false} RefundLogReferences(bids: seq<Bid>, ids: seq<BidId>, id: BidId)
    requires AllIn(ids, bids) && Increasing(ids)
    ensures RefundsFor(RefundLog(bids, ids), id) ==
      if id in ids && id < |bids| && bids[id].walletId.Some? then 1 else 0
  {
    if ids != [] {
      var init := ids[..|ids| - 1];
      var last := ids[|ids| - 1];
      RefundLogReferences(bids, init, id);
      RefundsForAppend(RefundLog(bids, init),
                       if bids[last].walletId.Some? then [RefundFor(last, bids[last])] else [], id);
      assert id in ids <==> id in init || id == last;
      assert forall k :: 0 <= k < |init| ==> init[k] == ids[k] && ids[k] < last;
      if bids[last].walletId.Some? {
        assert RefundsFor([RefundFor(last, bids[last])], id) ==
          RefundsFor([], id) + (if last == id then 1 else 0);
      }
    }
  }

  /**
   * The sweep keeps "exactly the refunded bids have one REFUND each": it
   * refunds only paid bids, each once, and writes one REFUND per refund.
   */
  lemma SweepKeepsRefundsMatched(bids: seq<Bid>, txns: seq<WalletTransaction>, wallets: map<WalletId, Wallet>,
                                 bids0: seq<Bid>, txns0: seq<WalletTransaction>, wallets0: map<WalletId, Wallet>,
                                 slotId: SlotId, done: seq<BidId>)
    requires Swept(bids, txns, wallets, bids0, txns0, wallets0, done)
    requires done <= Matching(bids0, ExpiredIn(slotId))
    requires RefundsMatch(bids0, txns0)
    ensures RefundsMatch(bids, txns)
  {
    var expired := Matching(bids0, ExpiredIn(slotId));
    assert Increasing(done) by {
      forall i, j | 0 <= i < j < |done| ensures done[i] < done[j] {
        assert done[i] == expired[i] && done[j] == expired[j];
      }
    }
    forall j | 0 <= j < |bids|
      ensures RefundsFor(txns, j) == if bids[j].paymentStatus == Refunded then 1 else 0
    {
      RefundsForAppend(txns0, RefundLog(bids0, done), j);
      RefundLogReferences(bids0, done, j);
      if j in done {
        var k :| 0 <= k < |done| && done[k] == j;
        assert expired[k] == j;
        assert j in expired;
        assert bids0[j].paymentStatus == Paid;
      }
    }
  }
}
