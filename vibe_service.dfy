/**
 * The vibe slot lifecycle: creating an event's slots with the first one open
 * for bidding, moving bidding on to the next slot, locking a slot and
 * recording its winner, the pure timetable calculation, and the aggregate
 * queries over an event's slots.
 */
module VibeService {
  import opened Wrappers
  import opened Query
  import opened Store
  import opened SlotService

  datatype VibeError = EventNotFound | MissingStartTime | SlotNotFound | BidNotFound

  /** A slot record together with its id, as a query returns it. */
  datatype SlotRecord = SlotRecord(id: SlotId, slot: Slot)

  // ---------------------------------------------------------------------------
  // createEventVibes

  /**
   * The slots created for an event: numbered from 1, one interval apart from
   * `start`, the first open for bidding and every other one available.
   */
  ghost predicate IsVibeSchedule(slots: seq<Slot>, eventId: EventId, start: int, intervalMs: nat)
  {
    forall i :: 0 <= i < |slots| ==>
      slots[i] == Slot(eventId, i + 1, start + i * intervalMs, if i == 0 then Bidding else Available, None)
  }

  /**
   * Creates and stores all of an event's slots. An unknown event and an
   * event without a start time are errors that create nothing.
   */
  method CreateEventVibes(db: Db, eventId: EventId) returns (r: Result<seq<Slot>, VibeError>)
    modifies db
    ensures eventId !in old(db.events) ==> r == Failure(EventNotFound) && db.slots == old(db.slots)
    ensures eventId in old(db.events) && old(db.events)[eventId].startTime.None? ==>
      r == Failure(MissingStartTime) && db.slots == old(db.slots)
    ensures eventId in old(db.events) && old(db.events)[eventId].startTime.Some? ==>
      var event := old(db.events)[eventId];
      && r.Success?
      && |r.value| == SlotCount(event.durationHours, event.vibesPerHour)
      && IsVibeSchedule(r.value, eventId, event.startTime.value, SlotDurationMs(event.vibesPerHour))
      && db.slots == old(db.slots) + r.value
    ensures db.events == old(db.events) && db.bids == old(db.bids)
    ensures db.wallets == old(db.wallets) && db.transactions == old(db.transactions)
  {
    if eventId !in db.events {
      return Failure(EventNotFound);
    }
    var event := db.events[eventId];
    if event.startTime.None? {
      return Failure(MissingStartTime);
    }
    var totalVibes := event.durationHours * event.vibesPerHour;
    var slotIntervalMs := (60 / event.vibesPerHour) * 60 * 1000;
    var vibeSlots: seq<Slot> := [];
    var currentTime := event.startTime.value;
    var i := 0;
    while i < totalVibes
      invariant 0 <= i <= SlotCount(event.durationHours, event.vibesPerHour)
      invariant |vibeSlots| == i
      invariant currentTime == event.startTime.value + i * SlotDurationMs(event.vibesPerHour)
      invariant IsVibeSchedule(vibeSlots, eventId, event.startTime.value, SlotDurationMs(event.vibesPerHour))
    {
      vibeSlots := vibeSlots + [Slot(eventId, i + 1, currentTime, if i == 0 then Bidding else Available, None)];
      currentTime := currentTime + slotIntervalMs;
      i := i + 1;
    }
    db.slots := db.slots + vibeSlots;
    return Success(vibeSlots);
  }

  function HasStatus(status: SlotStatus): Slot -> bool
  {
    (s: Slot) => s.status == status
  }

  /** A freshly created event has exactly one slot open for bidding, when it has any slot at all. */
  lemma {:induction false} OneSlotOpenForBidding(slots: seq<Slot>, eventId: EventId, start: int, intervalMs: nat)
    requires IsVibeSchedule(slots, eventId, start, intervalMs)
    ensures Matching(slots, HasStatus(Bidding)) == if slots == [] then [] else [0]
  {
    if slots != [] {
      var init := slots[..|slots| - 1];
      OneSlotOpenForBidding(init, eventId, start, intervalMs);
      assert slots[|slots| - 1].status == if |slots| == 1 then Bidding else Available;
    }
  }

  // ---------------------------------------------------------------------------
  // getCurrentAvailableSlots and getCurrentActiveSlot

  function ApprovedIn(slotId: SlotId): Bid -> bool
  {
    (b: Bid) => b.vibeSlotId == Some(slotId) && b.status == Approved
  }

  function AmountKey(bids: seq<Bid>): BidId -> Key
  {
    (i: BidId) => if i < |bids| then Key(-bids[i].bidAmount, 0) else Key(0, 0)
  }

  /** The slot's approved bid with the highest amount (the first such bid among equals), if it has one. */
  function TopApprovedBid(bids: seq<Bid>, slotId: SlotId): (r: Option<BidId>)
    ensures r.Some? ==> r.value < |bids| && ApprovedIn(slotId)(bids[r.value])
    ensures r.Some? ==> forall j :: 0 <= j < |bids| && ApprovedIn(slotId)(bids[j]) ==>
      bids[j].bidAmount <= bids[r.value].bidAmount
    ensures r.None? ==> forall j :: 0 <= j < |bids| ==> !ApprovedIn(slotId)(bids[j])
  {
    var top := TopMatching(bids, ApprovedIn(slotId), AmountKey(bids), 1);
    if top == [] then None else Some(top[0])
  }

  /** A slot with the bid the query includes alongside it. */
  datatype SlotView = SlotView(id: SlotId, slot: Slot, topBid: Option<BidId>)

  function OpenIn(eventId: EventId): Slot -> bool
  {
    (s: Slot) => s.eventId == eventId && (s.status == Available || s.status == Bidding)
  }

  /**
   * The event's first ten slots open for bidding or available, by slot
   * number; any open slot left out is numbered no lower than all those kept.
   */
  function OpenSlotIds(slots: seq<Slot>, eventId: EventId): (r: seq<SlotId>)
    ensures |r| <= 10
    ensures forall k :: 0 <= k < |r| ==> r[k] < |slots| && OpenIn(eventId)(slots[r[k]])
    ensures forall i, j :: 0 <= i < j < |r| ==> r[i] != r[j]
    ensures forall i, j :: 0 <= i < j < |r| ==> slots[r[i]].slotNumber <= slots[r[j]].slotNumber
    ensures forall j :: 0 <= j < |slots| && OpenIn(eventId)(slots[j]) && j !in r ==>
      |r| == 10 && forall k :: 0 <= k < |r| ==> slots[r[k]].slotNumber <= slots[j].slotNumber
  {
    TopMatching(slots, OpenIn(eventId), NumberKey(slots), 10)
  }

  /** The slots of OpenSlotIds, in that order, each with its highest approved bid. */
  function GetCurrentAvailableSlots(slots: seq<Slot>, bids: seq<Bid>, eventId: EventId): (r: seq<SlotView>)
    ensures var ids := OpenSlotIds(slots, eventId);
      |r| == |ids| &&
      forall k :: 0 <= k < |r| ==> r[k] == SlotView(ids[k], slots[ids[k]], TopApprovedBid(bids, ids[k]))
  {
    var ids := OpenSlotIds(slots, eventId);
    seq(|ids|, k requires 0 <= k < |ids| => SlotView(ids[k], slots[ids[k]], TopApprovedBid(bids, ids[k])))
  }

  function LiveIn(eventId: EventId): Slot -> bool
  {
    (s: Slot) => s.eventId == eventId && (s.status == Bidding || s.status == Locked)
  }

  /**
   * The event's slot that started last, not after `now`, among those open
   * for bidding or locked, with its highest approved bid.
   */
  function GetCurrentActiveSlot(slots: seq<Slot>, bids: seq<Bid>, eventId: EventId, now: int): (r: Option<SlotView>)
    ensures r.Some? ==>
      && r.value.id < |slots| && r.value.slot == slots[r.value.id]
      && LiveIn(eventId)(r.value.slot) && r.value.slot.scheduledTime <= now
      && r.value.topBid == TopApprovedBid(bids, r.value.id)
    ensures r.Some? ==> forall j :: 0 <= j < |slots| && LiveIn(eventId)(slots[j]) && slots[j].scheduledTime <= now ==>
      slots[j].scheduledTime <= r.value.slot.scheduledTime
    ensures r.None? <==> forall j :: 0 <= j < |slots| ==> !(LiveIn(eventId)(slots[j]) && slots[j].scheduledTime <= now)
  {
    match LatestStarted(slots, LiveIn(eventId), now)
    case None => None
    case Some(id) => Some(SlotView(id, slots[id], TopApprovedBid(bids, id)))
  }

  // ---------------------------------------------------------------------------
  // progressToNextSlot

  function AvailableAfter(eventId: EventId, slotNumber: int): Slot -> bool
  {
    (s: Slot) => s.eventId == eventId && s.slotNumber > slotNumber && s.status == Available
  }

  /** The lowest-numbered available slot of the event after slot number `slotNumber`, if any. */
  function NextAvailable(slots: seq<Slot>, eventId: EventId, slotNumber: int): (r: Option<SlotId>)
    ensures r.Some? ==> r.value < |slots| && AvailableAfter(eventId, slotNumber)(slots[r.value])
    ensures r.Some? ==> forall j :: 0 <= j < |slots| && AvailableAfter(eventId, slotNumber)(slots[j]) ==>
      slots[r.value].slotNumber <= slots[j].slotNumber
    ensures r.None? <==> forall j :: 0 <= j < |slots| ==> !AvailableAfter(eventId, slotNumber)(slots[j])
  {
    var first := TopMatching(slots, AvailableAfter(eventId, slotNumber), NumberKey(slots), 1);
    if first == [] then None else Some(first[0])
  }

  /**
   * Completes the current slot and opens the next available one of its
   * event for bidding, returning that slot as it was found (still
   * available), or nothing when no available slot follows. An unknown slot
   * is an error that changes nothing. No other slot changes.
   */
  method ProgressToNextSlot(db: Db, currentSlotId: SlotId) returns (r: Result<Option<SlotRecord>, VibeError>)
    modifies db
    ensures currentSlotId >= |old(db.slots)| ==> r == Failure(SlotNotFound) && db.slots == old(db.slots)
    ensures currentSlotId < |old(db.slots)| ==>
      var current := old(db.slots)[currentSlotId];
      var completed := old(db.slots)[currentSlotId := current.(status := Completed)];
      var next := NextAvailable(completed, current.eventId, current.slotNumber);
      && r.Success?
      && (next.None? ==> r.value.None? && db.slots == completed)
      && (next.Some? ==>
            && r.value == Some(SlotRecord(next.value, completed[next.value]))
            && db.slots == completed[next.value := completed[next.value].(status := Bidding)])
    ensures db.events == old(db.events) && db.bids == old(db.bids)
    ensures db.wallets == old(db.wallets) && db.transactions == old(db.transactions)
  {
    if currentSlotId >= |db.slots| {
      return Failure(SlotNotFound);
    }
    var currentSlot := db.slots[currentSlotId];
    db.slots := db.slots[currentSlotId := currentSlot.(status := Completed)];
    var nextSlot := NextAvailable(db.slots, currentSlot.eventId, currentSlot.slotNumber);
    if nextSlot.Some? {
      var found := db.slots[nextSlot.value];
      db.slots := db.slots[nextSlot.value := found.(status := Bidding)];
      return Success(Some(SlotRecord(nextSlot.value, found)));
    }
    return Success(None);
  }

  /**
   * Moving on never reopens the slot just completed, opens only a later
   * available slot of the same event, and changes no other slot.
   */
  lemma ProgressChangesTwoSlots(slots: seq<Slot>, currentSlotId: SlotId, j: nat)
    requires currentSlotId < |slots| && j < |slots|
    ensures var current := slots[currentSlotId];
      var completed := slots[currentSlotId := current.(status := Completed)];
      var next := NextAvailable(completed, current.eventId, current.slotNumber);
      && (next.Some? ==>
            next.value != currentSlotId && slots[next.value].status == Available &&
            slots[next.value].slotNumber > current.slotNumber)
      && (j != currentSlotId && (next.None? || j != next.value) ==> completed[j] == slots[j])
  {
  }

  // ---------------------------------------------------------------------------
  // lockSlot and setSlotWinner

  /** Closes the slot to bids and returns the updated record; an unknown slot is an error. */
  method LockSlot(db: Db, slotId: SlotId) returns (r: Result<Slot, VibeError>)
    modifies db
    ensures slotId >= |old(db.slots)| ==> r == Failure(SlotNotFound) && db.slots == old(db.slots)
    ensures slotId < |old(db.slots)| ==>
      && r == Success(old(db.slots)[slotId].(status := Locked))
      && db.slots == old(db.slots)[slotId := r.value]
    ensures db.events == old(db.events) && db.bids == old(db.bids)
    ensures db.wallets == old(db.wallets) && db.transactions == old(db.transactions)
  {
    if slotId >= |db.slots| {
      return Failure(SlotNotFound);
    }
    var updated := db.slots[slotId].(status := Locked);
    db.slots := db.slots[slotId := updated];
    return Success(updated);
  }

  /**
   * Records `bidId` as the slot's winner and locks the slot, then marks the
   * bid played at `now`, whatever its status was. The two updates are
   * separate: an unknown bid is an error that leaves the slot updated.
   */
  method SetSlotWinner(db: Db, slotId: SlotId, bidId: BidId, now: int) returns (r: Outcome<VibeError>)
    modifies db
    ensures slotId >= |old(db.slots)| ==> r == Fail(SlotNotFound) && db.slots == old(db.slots) && db.bids == old(db.bids)
    ensures slotId < |old(db.slots)| ==>
      db.slots == old(db.slots)[slotId := old(db.slots)[slotId].(currentWinnerBidId := Some(bidId), status := Locked)]
    ensures slotId < |old(db.slots)| && bidId >= |old(db.bids)| ==> r == Fail(BidNotFound) && db.bids == old(db.bids)
    ensures slotId < |old(db.slots)| && bidId < |old(db.bids)| ==>
      r == Pass && db.bids == old(db.bids)[bidId := old(db.bids)[bidId].(status := Played, playedAt := Some(now))]
    ensures db.events == old(db.events)
    ensures db.wallets == old(db.wallets) && db.transactions == old(db.transactions)
  {
    if slotId >= |db.slots| {
      return Fail(SlotNotFound);
    }
    db.slots := db.slots[slotId := db.slots[slotId].(currentWinnerBidId := Some(bidId), status := Locked)];
    if bidId >= |db.bids| {
      return Fail(BidNotFound);
    }
    db.bids := db.bids[bidId := db.bids[bidId].(status := Played, playedAt := Some(now))];
    return Pass;
  }

  /** Marking a bid played frees its place in its slot: the slot's occupancy drops by one if the bid held a place, and no other slot's changes. */
  lemma PlayedBidFreesItsPlace(bids: seq<Bid>, bidId: BidId, now: int, slotId: SlotId)
    requires bidId < |bids|
    ensures var played := bids[bidId := bids[bidId].(status := Played, playedAt := Some(now))];
      Occupancy(played, slotId) == Occupancy(bids, slotId) - (if OccupiesSlot(slotId)(bids[bidId]) then 1 else 0)
  {
    var played := bids[bidId := bids[bidId].(status := Played, playedAt := Some(now))];
    CountRemoveOne(bids, played, OccupiesSlot(slotId), bidId);
  }

  // ---------------------------------------------------------------------------
  // calculateSlotSchedule

  datatype ScheduleEntry = ScheduleEntry(slotNumber: int, scheduledTime: int, estimatedEndTime: int)

  /** Entry `i` covers `[start + i * interval, start + (i + 1) * interval)`. */
  ghost predicate IsTimetable(schedule: seq<ScheduleEntry>, start: int, intervalMs: nat)
  {
    forall i :: 0 <= i < |schedule| ==>
      schedule[i] == ScheduleEntry(i + 1, start + i * intervalMs, start + i * intervalMs + intervalMs)
  }

  /**
   * The event's timetable without storing anything: `durationHours *
   * vibesPerHour` entries numbered from 1, each ending one interval after it
   * starts, where the next one starts.
   */
  method CalculateSlotSchedule(durationHours: int, vibesPerHour: VibesPerHour, startTime: int)
    returns (schedule: seq<ScheduleEntry>)
    ensures |schedule| == SlotCount(durationHours, vibesPerHour)
    ensures IsTimetable(schedule, startTime, SlotDurationMs(vibesPerHour))
    ensures forall i :: 0 <= i < |schedule| ==>
      schedule[i].slotNumber == i + 1 &&
      schedule[i].estimatedEndTime == schedule[i].scheduledTime + SlotDurationMs(vibesPerHour)
    ensures forall i :: 0 <= i < |schedule| - 1 ==> schedule[i].estimatedEndTime == schedule[i + 1].scheduledTime
  {
    var totalVibes := durationHours * vibesPerHour;
    var slotIntervalMs := (60 / vibesPerHour) * 60 * 1000;
    schedule := [];
    var currentTime := startTime;
    var i := 0;
    while i < totalVibes
      invariant 0 <= i <= SlotCount(durationHours, vibesPerHour)
      invariant |schedule| == i
      invariant currentTime == startTime + i * slotIntervalMs
      invariant IsTimetable(schedule, startTime, slotIntervalMs)
    {
      schedule := schedule + [ScheduleEntry(i + 1, currentTime, currentTime + slotIntervalMs)];
      currentTime := currentTime + slotIntervalMs;
      i := i + 1;
    }
    forall i | 0 <= i < |schedule| - 1
      ensures schedule[i].estimatedEndTime == schedule[i + 1].scheduledTime
    {
      assert (i + 1) * slotIntervalMs == i * slotIntervalMs + slotIntervalMs;
    }
  }

  /**
   * A timetable covers its whole span without gaps or overlaps: every
   * instant in it lies in exactly one entry.
   */
  lemma TimetableCoversOnce(schedule: seq<ScheduleEntry>, start: int, intervalMs: nat, t: int)
    requires IsTimetable(schedule, start, intervalMs) && intervalMs > 0
    requires start <= t < start + |schedule| * intervalMs
    ensures exists k :: 0 <= k < |schedule| && schedule[k].scheduledTime <= t < schedule[k].estimatedEndTime
    ensures forall k, m ::
              && 0 <= k < |schedule| && 0 <= m < |schedule|
              && schedule[k].scheduledTime <= t < schedule[k].estimatedEndTime
              && schedule[m].scheduledTime <= t < schedule[m].estimatedEndTime
              ==> k == m
  {
    WindowOf(start, intervalMs, |schedule|, t);
    var k := (t - start) / intervalMs;
    assert schedule[k].scheduledTime <= t < schedule[k].estimatedEndTime;
    forall a, b | 0 <= a < |schedule| && 0 <= b < |schedule| &&
      schedule[a].scheduledTime <= t < schedule[a].estimatedEndTime &&
      schedule[b].scheduledTime <= t < schedule[b].estimatedEndTime
      ensures a == b
    {
      if a < b {
        StepMonotone(a, b, intervalMs);
      } else if b < a {
        StepMonotone(b, a, intervalMs);
      }
    }
  }

  // ---------------------------------------------------------------------------
  // getSlotStatistics

  datatype SlotStatistics = SlotStatistics(
    totalSlots: nat,
    completedSlots: nat,
    activeSlot: Option<SlotId>,
    upcomingSlots: nat,
    totalBids: int,
    totalRevenue: int)

  function StatusIn(eventId: EventId, status: SlotStatus): Slot -> bool
  {
    (s: Slot) => s.eventId == eventId && s.status == status
  }

  /** Holds of an approved or played bid in slot `slotId`: the bids the statistics count. */
  function CountedIn(slotId: SlotId): Bid -> bool
  {
    (b: Bid) => b.vibeSlotId == Some(slotId) && (b.status == Approved || b.status == Played)
  }

  /** Holds of an approved or played bid in any of the slots `slotIds`. */
  function CountedInAny(slotIds: seq<SlotId>): Bid -> bool
  {
    (b: Bid) => b.vibeSlotId.Some? && b.vibeSlotId.value in slotIds && (b.status == Approved || b.status == Played)
  }

  function One(b: Bid): int { 1 }

  function Amount(b: Bid): int { b.bidAmount }

  /** Sums `f` over each slot's counted bids, slot by slot: the nested `reduce`. */
  function PerSlotTotal(slotIds: seq<SlotId>, bids: seq<Bid>, f: Bid -> int): int
  {
    if slotIds == [] then 0
    else PerSlotTotal(slotIds[..|slotIds| - 1], bids, f) + Total(bids, CountedIn(slotIds[|slotIds| - 1]), f)
  }

  /** Summing slot by slot over distinct slots counts every bid once: the same as one sum over all their bids. */
  lemma {:induction false} PerSlotTotalCountsEachBidOnce(slotIds: seq<SlotId>, bids: seq<Bid>, f: Bid -> int)
    requires forall i, j :: 0 <= i < j < |slotIds| ==> slotIds[i] < slotIds[j]
    ensures PerSlotTotal(slotIds, bids, f) == Total(bids, CountedInAny(slotIds), f)
  {
    if slotIds == [] {
      TotalNone(bids, CountedInAny(slotIds), f);
    } else {
      var init := slotIds[..|slotIds| - 1];
      var last := slotIds[|slotIds| - 1];
      PerSlotTotalCountsEachBidOnce(init, bids, f);
      assert last !in init by {
        assert forall k :: 0 <= k < |init| ==> init[k] == slotIds[k] && slotIds[k] < last;
      }
      assert forall x: SlotId :: x in slotIds <==> x in init || x == last;
      TotalSplit(bids, CountedInAny(slotIds), CountedInAny(init), CountedIn(last), f);
    }
  }

  lemma {:induction false} TotalNone(s: seq<Bid>, p: Bid -> bool, f: Bid -> int)
    requires forall x :: !p(x)
    ensures Total(s, p, f) == 0
  {
    if s != [] {
      TotalNone(s[..|s| - 1], p, f);
    }
  }

  /**
   * The event's slot counts, the first locked slot (in table order), and the
   * number and total amount of approved or played bids over its slots.
   */
  function GetSlotStatistics(slots: seq<Slot>, bids: seq<Bid>, eventId: EventId): (r: SlotStatistics)
    ensures r.totalSlots == |Matching(slots, InEvent(eventId))|
    ensures r.completedSlots == |Matching(slots, StatusIn(eventId, Completed))|
    ensures r.upcomingSlots == |Matching(slots, StatusIn(eventId, Available))|
    ensures r.completedSlots + r.upcomingSlots <= r.totalSlots
    ensures r.activeSlot.Some? ==>
      && r.activeSlot.value < |slots| && StatusIn(eventId, Locked)(slots[r.activeSlot.value])
      && forall j :: 0 <= j < r.activeSlot.value ==> !StatusIn(eventId, Locked)(slots[j])
    ensures r.activeSlot.None? ==> forall j :: 0 <= j < |slots| ==> !StatusIn(eventId, Locked)(slots[j])
    ensures r.totalBids == Total(bids, CountedInAny(Matching(slots, InEvent(eventId))), One)
    ensures r.totalRevenue == Total(bids, CountedInAny(Matching(slots, InEvent(eventId))), Amount)
  {
    var eventSlots := Matching(slots, InEvent(eventId));
    var locked := Matching(slots, StatusIn(eventId, Locked));
    MatchingDisjoint(slots, InEvent(eventId), StatusIn(eventId, Completed), StatusIn(eventId, Available));
    PerSlotTotalCountsEachBidOnce(eventSlots, bids, One);
    PerSlotTotalCountsEachBidOnce(eventSlots, bids, Amount);
    assert locked != [] ==> locked[0] in locked;
    SlotStatistics(
      |eventSlots|,
      |Matching(slots, StatusIn(eventId, Completed))|,
      if locked == [] then None else Some(locked[0]),
      |Matching(slots, StatusIn(eventId, Available))|,
      PerSlotTotal(eventSlots, bids, One),
      PerSlotTotal(eventSlots, bids, Amount))
  }
}
