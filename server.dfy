/**
 * The real-time server's in-memory auction: one global game state holding
 * the current slot, the bids (kept sorted by amount, highest first), a
 * leaderboard of the top approved bids and the bid now playing. The socket
 * handlers for submitting a bid, the DJ's approve/reject/win actions and
 * moving to the next slot are its methods. Leaderboard and winner refer to
 * bids by id, so a later change to a bid shows through them.
 */
module Server {
  import opened Wrappers
  import opened Query
  import opened JsText

  /** How long a slot lasts: five minutes. */
  const SLOT_MS: nat := 5 * 60 * 1000
  /** How many approved bids the leaderboard shows. */
  const LEADERBOARD_SIZE: nat := 10

  datatype SlotPhase = Active | Locked

  datatype LiveSlot = LiveSlot(id: int, endTime: int, status: SlotPhase)

  datatype BidStatus = Pending | Approved | Rejected

  datatype Bid = Bid(id: nat, song: string, amount: int, user: string, timestamp: int, status: BidStatus)

  /** The first position holding a bid with id `id`, as `findIndex` finds it. */
  function IndexOf(bids: seq<Bid>, id: nat): (r: Option<nat>)
    ensures r.Some? ==> r.value < |bids| && bids[r.value].id == id
    ensures r.Some? ==> forall j :: 0 <= j < r.value ==> bids[j].id != id
    ensures r.None? ==> forall j :: 0 <= j < |bids| ==> bids[j].id != id
  {
    if bids == [] then None
    else if bids[0].id == id then Some(0)
    else match IndexOf(bids[1..], id)
      case None => None
      case Some(i) => Some(i + 1)
  }

  /** A bid's place in the ordering by amount, highest first. */
  function AmountKey(b: Bid): Key
  {
    Key(-b.amount, 0)
  }

  /** `amount` as `parseInt(amount) || 0` reads it: the parsed integer, or 0 when nothing parses. */
  function ParsedAmount(amount: string): int
  {
    match ParseInt(amount)
    case Some(n) => n
    case None => 0
  }

  /** `user || 'Anonymous'`: a missing or empty name becomes "Anonymous". */
  function DisplayUser(user: Option<string>): (r: string)
    ensures r != []
    ensures user.Some? && user.value != [] ==> r == user.value
    ensures user.None? || user.value == [] ==> r == "Anonymous"
  {
    if user.None? || user.value == [] then "Anonymous" else user.value
  }

  /** Every amount the client can send as a decimal integer is read back exactly, whatever its sign. */
  lemma AmountRoundTrip(n: int)
    ensures ParsedAmount(IntToString(n)) == n
  {
    ParseIntRoundTrip(n);
  }

  /** No minimum is enforced: a zero or negative amount is accepted as it is, and text that is no number becomes 0. */
  lemma NoMinimumEnforced()
    ensures ParsedAmount("0") == 0
    ensures ParsedAmount("-50") == -50
    ensures ParsedAmount("abc") == 0
  {
    assert IntToString(0) == "0" by {
      assert DigitChar(0) == '0';
    }
    AmountRoundTrip(0);
    assert IntToString(-50) == "-50" by {
      assert DigitChar(5) == '5' && DigitChar(0) == '0';
      assert NatToString(5) == "5";
      assert NatToString(50) == NatToString(5) + "0";
    }
    AmountRoundTrip(-50);
    NotANumber("abc");
  }

  /** Text starting with a letter other than white space or a sign holds no number. */
  lemma NotANumber(s: string)
    requires s != [] && 'a' <= s[0] <= 'z'
    ensures ParsedAmount(s) == 0
  {
    assert !IsWhiteSpace(s[0]);
    assert TrimStart(s) == s;
    assert !IsDigit(s[0], 10);
    assert DigitPrefix(s, 10) == [];
    assert ParseUnsigned(s) == None;
  }

  function IsApproved(bids: seq<Bid>): Bid -> bool
  {
    (b: Bid) => b.status == Approved
  }

  function PositionKey(bids: seq<Bid>): nat -> Key
  {
    (i: nat) => if i < |bids| then AmountKey(bids[i]) else Key(0, 0)
  }

  /**
   * Positions of the leaderboard's bids: the approved bids, highest amount
   * first, at most LEADERBOARD_SIZE of them; an approved bid left out has
   * an amount no higher than any shown.
   */
  function LeaderPositions(bids: seq<Bid>): (r: seq<nat>)
    ensures |r| <= LEADERBOARD_SIZE
    ensures forall k :: 0 <= k < |r| ==> r[k] < |bids| && bids[r[k]].status == Approved
    ensures forall i, j :: 0 <= i < j < |r| ==> r[i] != r[j]
    ensures forall i, j :: 0 <= i < j < |r| ==> bids[r[i]].amount >= bids[r[j]].amount
    ensures forall j :: 0 <= j < |bids| && bids[j].status == Approved && j !in r ==>
      |r| == LEADERBOARD_SIZE && forall k :: 0 <= k < |r| ==> bids[r[k]].amount >= bids[j].amount
  {
    TopMatching(bids, IsApproved(bids), PositionKey(bids), LEADERBOARD_SIZE)
  }

  /** The ids of the leaderboard's bids, in leaderboard order. */
  function Leaderboard(bids: seq<Bid>): (r: seq<nat>)
    ensures var top := LeaderPositions(bids);
      |r| == |top| && forall k :: 0 <= k < |r| ==> top[k] < |bids| && r[k] == bids[top[k]].id
  {
    var top := LeaderPositions(bids);
    seq(|top|, k requires 0 <= k < |top| => bids[top[k]].id)
  }

  /** Moving a sorted list to a permutation with one more element keeps every id it had. */
  lemma IdsKept(bids: seq<Bid>, bids': seq<Bid>, id: nat)
    requires multiset(bids) <= multiset(bids')
    requires IndexOf(bids, id).Some?
    ensures IndexOf(bids', id).Some?
  {
    var b := bids[IndexOf(bids, id).value];
    assert b in multiset(bids);
    assert b in bids';
  }

  /** The game state's invariant, on its fields' values. */
  /** No two bids share an id. */
  ghost predicate UniqueIds(bids: seq<Bid>)
  {
    forall i, j :: 0 <= i < j < |bids| ==> bids[i].id != bids[j].id
  }

  /** Two bids of a list whose ids are distinct are the same bid when their ids agree. */
  lemma SameIdSameBid(s: seq<Bid>, x: Bid, y: Bid)
    requires UniqueIds(s) && x in s && y in s
    ensures x.id == y.id ==> x == y
  {
    var a :| 0 <= a < |s| && s[a] == x;
    var b :| 0 <= b < |s| && s[b] == y;
    assert a < b ==> s[a].id != s[b].id;
    assert b < a ==> s[b].id != s[a].id;
  }

  /** Reordering bids keeps their ids apart. */
  lemma UniqueIdsPermuted(s: seq<Bid>, t: seq<Bid>)
    requires multiset(s) == multiset(t) && UniqueIds(s)
    ensures UniqueIds(t)
  {
    assert Distinct(s);
    forall a, b | 0 <= a < b < |t| ensures t[a].id != t[b].id {
      TwiceCounted(t, a, b);
      DistinctAtMostOnce(s, t[b]);
      assert t[a] in multiset(s) && t[b] in multiset(s);
      SameIdSameBid(s, t[a], t[b]);
    }
  }

  ghost predicate ValidState(bids: seq<Bid>, leaderboard: seq<nat>, currentWinner: Option<nat>, nextId: nat)
  {
    && (forall i :: 0 <= i < |bids| ==> bids[i].id < nextId)
    && UniqueIds(bids)
    && SortedBy(bids, AmountKey)
    && |leaderboard| <= LEADERBOARD_SIZE
    && (forall k :: 0 <= k < |leaderboard| ==> IndexOf(bids, leaderboard[k]).Some?)
    && (currentWinner.Some? ==> IndexOf(bids, currentWinner.value).Some?)
  }

  /** A submitted bid gets an id no bid has, and sorting it in keeps the invariant. */
  lemma SubmitKeepsValid(bids: seq<Bid>, leaderboard: seq<nat>, currentWinner: Option<nat>, nextId: nat, newBid: Bid)
    requires ValidState(bids, leaderboard, currentWinner, nextId) && newBid.id == nextId
    ensures IndexOf(bids, newBid.id).None?
    ensures ValidState(SortBy(bids + [newBid], AmountKey), leaderboard, currentWinner, nextId + 1)
  {
    var after := SortBy(bids + [newBid], AmountKey);
    assert multiset(bids + [newBid]) == multiset(bids) + multiset{newBid};
    assert UniqueIds(bids + [newBid]);
    UniqueIdsPermuted(bids + [newBid], after);
    forall i | 0 <= i < |after| ensures after[i].id < nextId + 1 {
      assert after[i] in multiset(bids + [newBid]);
      assert after[i] in bids + [newBid];
    }
    forall k | 0 <= k < |leaderboard| ensures IndexOf(after, leaderboard[k]).Some? {
      IdsKept(bids, after, leaderboard[k]);
    }
    if currentWinner.Some? {
      IdsKept(bids, after, currentWinner.value);
    }
  }

  /** Changing a bid's status keeps the invariant: ids and amounts stay where they were. */
  lemma StatusChangeKeepsValid(bids: seq<Bid>, leaderboard: seq<nat>, currentWinner: Option<nat>, nextId: nat,
                               i: nat, status: BidStatus)
    requires ValidState(bids, leaderboard, currentWinner, nextId) && i < |bids|
    ensures ValidState(bids[i := bids[i].(status := status)], leaderboard, currentWinner, nextId)
  {
    var after := bids[i := bids[i].(status := status)];
    assert forall j :: 0 <= j < |after| ==> after[j].id == bids[j].id && AmountKey(after[j]) == AmountKey(bids[j]);
    forall id | IndexOf(bids, id).Some? ensures IndexOf(after, id).Some? {
      assert after[IndexOf(bids, id).value].id == id;
    }
  }

  /** A rebuilt leaderboard refers only to existing bids, and so does any winner picked among them. */
  lemma RebuiltLeaderboardKeepsValid(bids: seq<Bid>, leaderboard: seq<nat>, currentWinner: Option<nat>, nextId: nat)
    requires ValidState(bids, leaderboard, currentWinner, nextId)
    ensures ValidState(bids, Leaderboard(bids), currentWinner, nextId)
  {
    var top := LeaderPositions(bids);
    forall k | 0 <= k < |Leaderboard(bids)| ensures IndexOf(bids, Leaderboard(bids)[k]).Some? {
      assert IndexOf(bids, bids[top[k]].id).Some?;
    }
  }

  class GameState {
    var currentSlot: LiveSlot
    var bids: seq<Bid>
    /** Ids of the leaderboard's bids. */
    var leaderboard: seq<nat>
    /** Id of the bid now playing. */
    var currentWinner: Option<nat>
    /** The next bid id to hand out: ids stand for the submission clock and are never reused. */
    var nextId: nat

    /**
     * Bid ids are distinct and below `nextId`, bids are ordered by amount (highest
     * first), and the leaderboard (at most ten entries) and the winner refer
     * to bids that exist.
     */
    ghost predicate Valid()
      reads this
    {
      ValidState(bids, leaderboard, currentWinner, nextId)
    }

    /** The state at start-up: no bids, an active slot ending five minutes from `now`. */
    constructor(now: int)
      ensures Valid()
      ensures currentSlot == LiveSlot(now, now + SLOT_MS, Active)
      ensures bids == [] && leaderboard == [] && currentWinner == None
    {
      currentSlot := LiveSlot(now, now + SLOT_MS, Active);
      bids := [];
      leaderboard := [];
      currentWinner := None;
      nextId := 0;
    }

    /**
     * Adds one pending bid with a fresh id, the parsed amount (0 when it is
     * not a number; no minimum) and the user's name or "Anonymous", then
     * re-sorts the bids by amount, highest first.
     */
    method SubmitBid(song: string, amount: string, user: Option<string>, now: int)
      requires Valid()
      modifies this
      ensures Valid()
      ensures var newBid := Bid(old(nextId), song, ParsedAmount(amount), DisplayUser(user), now, Pending);
        && IndexOf(old(bids), newBid.id).None?
        && multiset(bids) == multiset(old(bids)) + multiset{newBid}
        && bids == SortBy(old(bids) + [newBid], AmountKey)
      ensures SortedBy(bids, AmountKey)
      ensures nextId == old(nextId) + 1
      ensures currentSlot == old(currentSlot) && leaderboard == old(leaderboard) && currentWinner == old(currentWinner)
    {
      var newBid := Bid(nextId, song, ParsedAmount(amount), DisplayUser(user), now, Pending);
      SubmitKeepsValid(bids, leaderboard, currentWinner, nextId, newBid);
      bids := SortBy(bids + [newBid], AmountKey);
      nextId := nextId + 1;
    }

    /**
     * The DJ's action on bid `bidId`. An unknown id changes nothing and
     * broadcasts nothing. "approve" approves the bid and rebuilds the
     * leaderboard; "reject" rejects it and leaves the leaderboard as it is;
     * "win" makes it the bid now playing without changing any status; any
     * other action changes nothing but is still broadcast.
     */
    method AdminAction(bidId: nat, action: string) returns (broadcast: bool)
      requires Valid()
      modifies this
      ensures Valid()
      ensures broadcast <==> IndexOf(old(bids), bidId).Some?
      ensures !broadcast ==> bids == old(bids) && leaderboard == old(leaderboard) && currentWinner == old(currentWinner)
      ensures broadcast ==>
        var i := IndexOf(old(bids), bidId).value;
        && (action == "approve" ==>
              && bids == old(bids)[i := old(bids)[i].(status := Approved)]
              && leaderboard == Leaderboard(bids)
              && currentWinner == old(currentWinner))
        && (action == "reject" ==>
              && bids == old(bids)[i := old(bids)[i].(status := Rejected)]
              && leaderboard == old(leaderboard)
              && currentWinner == old(currentWinner))
        && (action == "win" ==>
              bids == old(bids) && leaderboard == old(leaderboard) && currentWinner == Some(bidId))
        && (action != "approve" && action != "reject" && action != "win" ==>
              bids == old(bids) && leaderboard == old(leaderboard) && currentWinner == old(currentWinner))
      ensures currentSlot == old(currentSlot) && nextId == old(nextId)
    {
      var bidIndex := IndexOf(bids, bidId);
      if bidIndex.None? {
        return false;
      }
      var i := bidIndex.value;
      if action == "approve" {
        SetStatus(i, Approved);
        RebuiltLeaderboardKeepsValid(bids, leaderboard, currentWinner, nextId);
        leaderboard := Leaderboard(bids);
      } else if action == "reject" {
        SetStatus(i, Rejected);
      } else if action == "win" {
        currentWinner := Some(bidId);
      }
      return true;
    }

    /** Changes the status of the bid at position `i` and nothing else. */
    method SetStatus(i: nat, status: BidStatus)
      requires Valid() && i < |bids|
      modifies this
      ensures Valid()
      ensures bids == old(bids)[i := old(bids)[i].(status := status)]
      ensures currentSlot == old(currentSlot) && leaderboard == old(leaderboard)
      ensures currentWinner == old(currentWinner) && nextId == old(nextId)
    {
      StatusChangeKeepsValid(bids, leaderboard, currentWinner, nextId, i, status);
      bids := bids[i := bids[i].(status := status)];
    }

    /** Clears bids, leaderboard and winner and opens a new active slot ending five minutes from `now`. */
    method AdminNextSlot(now: int)
      requires Valid()
      modifies this
      ensures Valid()
      ensures bids == [] && leaderboard == [] && currentWinner == None
      ensures currentSlot == LiveSlot(now, now + SLOT_MS, Active)
      ensures nextId == old(nextId)
    {
      bids := [];
      leaderboard := [];
      currentWinner := None;
      currentSlot := LiveSlot(now, now + SLOT_MS, Active);
    }
  }

  /**
   * Rejecting a bid leaves the leaderboard as it was, so a listed bid goes
   * on being listed once rejected, while a leaderboard rebuilt from the new
   * bids would no longer hold it.
   */
  lemma RejectLeavesStaleLeaderboard(bids: seq<Bid>, leaderboard: seq<nat>, i: nat)
    requires UniqueIds(bids) && i < |bids| && bids[i].id in leaderboard
    ensures var after := bids[i := bids[i].(status := Rejected)];
      && after[i].status == Rejected
      && after[i].id in leaderboard
      && after[i].id !in Leaderboard(after)
  {
    var after := bids[i := bids[i].(status := Rejected)];
    var top := LeaderPositions(after);
    var r := Leaderboard(after);
    forall k | 0 <= k < |r| ensures r[k] != bids[i].id {
      assert after[top[k]].status == Approved;
      assert top[k] != i;
      assert r[k] == bids[top[k]].id;
      if top[k] < i {
        assert bids[top[k]].id != bids[i].id;
      } else {
        assert bids[i].id != bids[top[k]].id;
      }
    }
  }
}
