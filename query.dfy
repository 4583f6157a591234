/**
 * Filtering, ordering and truncation of record lists: what a database query's
 * `where`, `orderBy` and `take` do, and what JavaScript's `filter`, `sort` and
 * `slice(0, n)` do to an array.
 */
module Query {

  /** Positions of the elements of `s` that satisfy `p`, in increasing order. */
  function Matching<T>(s: seq<T>, p: T -> bool): (r: seq<nat>)
    ensures forall k: nat :: k in r <==> k < |s| && p(s[k])
    ensures forall i, j :: 0 <= i < j < |r| ==> r[i] < r[j]
    ensures |r| <= |s|
  {
    if s == [] then []
    else
      var init := s[..|s| - 1];
      var rest := Matching(init, p);
      assert forall k: nat :: k < |init| ==> init[k] == s[k];
      assert forall i :: 0 <= i < |rest| ==> rest[i] < |init| by {
        forall i | 0 <= i < |rest| ensures rest[i] < |init| {
          assert rest[i] in rest;
        }
      }
      if p(s[|s| - 1]) then rest + [|s| - 1] else rest
  }

  /** The first `n` elements of `s`, or all of them when there are fewer. */
  function Take<T>(s: seq<T>, n: nat): (r: seq<T>)
    ensures |r| == if n < |s| then n else |s|
    ensures r == s[..|r|]
  {
    if n < |s| then s[..n] else s
  }

  /** A sort key, compared lexicographically: `major` first, then `minor`. */
  datatype Key = Key(major: int, minor: int)

  predicate KeyLe(a: Key, b: Key) {
    a.major < b.major || (a.major == b.major && a.minor <= b.minor)
  }

  ghost predicate SortedBy<T>(s: seq<T>, key: T -> Key) {
    forall i, j :: 0 <= i < j < |s| ==> KeyLe(key(s[i]), key(s[j]))
  }

  /**
   * Inserts `x` into `s` just before the first element whose key is not
   * smaller than that of `x`, so that among equal keys `x` comes first.
   */
  function Insert<T>(x: T, s: seq<T>, key: T -> Key): (r: seq<T>)
    ensures multiset(r) == multiset(s) + multiset{x}
    ensures SortedBy(s, key) ==> SortedBy(r, key)
  {
    if s == [] then [x]
    else if KeyLe(key(x), key(s[0])) then [x] + s
    else
      var rest := Insert(x, s[1..], key);
      assert s == [s[0]] + s[1..];
      InsertAfterHead(x, s, rest, key);
      [s[0]] + rest
  }

  /** Putting a sorted list's head back in front of what `Insert` made of its tail keeps it sorted. */
  lemma InsertAfterHead<T>(x: T, s: seq<T>, rest: seq<T>, key: T -> Key)
    requires s != [] && !KeyLe(key(x), key(s[0]))
    requires multiset(rest) == multiset(s[1..]) + multiset{x}
    requires SortedBy(s[1..], key) ==> SortedBy(rest, key)
    ensures SortedBy(s, key) ==> SortedBy([s[0]] + rest, key)
  {
    if SortedBy(s, key) {
      assert SortedBy(s[1..], key) by {
        forall i, j | 0 <= i < j < |s[1..]| ensures KeyLe(key(s[1..][i]), key(s[1..][j])) {
          assert s[1..][i] == s[i + 1] && s[1..][j] == s[j + 1];
        }
      }
      HeadRanksFirst(x, s, rest, key);
      var r := [s[0]] + rest;
      forall i, j | 0 <= i < j < |r| ensures KeyLe(key(r[i]), key(r[j])) {
        assert r[j] == rest[j - 1];
        if i > 0 {
          assert r[i] == rest[i - 1];
        }
      }
    }
  }

  /** What `Insert` puts after a sorted list's head still ranks at or after that head. */
  lemma HeadRanksFirst<T>(x: T, s: seq<T>, rest: seq<T>, key: T -> Key)
    requires s != [] && !KeyLe(key(x), key(s[0]))
    requires multiset(rest) == multiset(s[1..]) + multiset{x}
    ensures SortedBy(s, key) ==> forall i :: 0 <= i < |rest| ==> KeyLe(key(s[0]), key(rest[i]))
  {
    forall i | 0 <= i < |rest| && SortedBy(s, key) ensures KeyLe(key(s[0]), key(rest[i])) {
      assert rest[i] in multiset(rest);
      if rest[i] != x {
        assert rest[i] in multiset(s[1..]);
        var j :| 0 <= j < |s[1..]| && s[1..][j] == rest[i];
        assert s[j + 1] == rest[i];
      }
    }
  }

  /**
   * An insertion sort by `key`: the result is ordered and is a permutation
   * of `s`. (Elements with equal keys also keep their original order; the
   * contract does not state it.)
   */
  function SortBy<T>(s: seq<T>, key: T -> Key): (r: seq<T>)
    ensures multiset(r) == multiset(s)
    ensures SortedBy(r, key)
  {
    if s == [] then []
    else
      assert s == [s[0]] + s[1..];
      Insert(s[0], SortBy(s[1..], key), key)
  }

  /** Whatever a sorted list's first `n` elements leave out ranks no earlier than any of them. */
  lemma PrefixIsLeast<T>(sorted: seq<T>, key: T -> Key, n: nat, x: T)
    requires SortedBy(sorted, key)
    requires x in sorted && x !in Take(sorted, n)
    ensures forall y :: y in Take(sorted, n) ==> KeyLe(key(y), key(x))
  {
    var j :| 0 <= j < |sorted| && sorted[j] == x;
    var t := Take(sorted, n);
    forall k | 0 <= k < |t| ensures sorted[k] != x {
      assert sorted[k] == t[k];
    }
    assert |t| <= j;
    forall y | y in t ensures KeyLe(key(y), key(x)) {
      var i :| 0 <= i < |t| && t[i] == y;
      assert sorted[i] == y;
    }
  }

  /** What the first `n` of a sorted copy of `s` hold, and what they leave out. */
  lemma TakeOfSorted<T>(s: seq<T>, key: T -> Key, n: nat)
    ensures var r := Take(SortBy(s, key), n);
      && |r| == (if n < |s| then n else |s|)
      && (forall k :: 0 <= k < |r| ==> r[k] in s)
      && (forall i, j :: 0 <= i < j < |r| ==> KeyLe(key(r[i]), key(r[j])))
      && (forall x :: x in s && x !in r ==> |r| == n && forall k :: 0 <= k < |r| ==> KeyLe(key(r[k]), key(x)))
  {
    var sorted := SortBy(s, key);
    var r := Take(sorted, n);
    assert |sorted| == |s| by {
      assert |multiset(sorted)| == |multiset(s)|;
    }
    forall k | 0 <= k < |r| ensures r[k] in s {
      assert r[k] == sorted[k];
      assert sorted[k] in multiset(sorted);
    }
    forall i, j | 0 <= i < j < |r| ensures KeyLe(key(r[i]), key(r[j])) {
      assert r[i] == sorted[i] && r[j] == sorted[j];
    }
    forall x | x in s && x !in r
      ensures |r| == n && forall k :: 0 <= k < |r| ==> KeyLe(key(r[k]), key(x))
    {
      assert x in multiset(sorted);
      PrefixIsLeast(sorted, key, n, x);
      forall k | 0 <= k < |r| ensures KeyLe(key(r[k]), key(x)) {
        assert r[k] in r;
      }
    }
  }

  /**
   * The positions of `s` satisfying `p`, ordered by `key` and cut to the
   * first `n`: a query with `where`, `orderBy` and `take`. Every matching
   * position left out ranks no earlier than all those kept.
   */
  function TopMatching<T>(s: seq<T>, p: T -> bool, key: nat -> Key, n: nat): (r: seq<nat>)
    ensures |r| == if n < |Matching(s, p)| then n else |Matching(s, p)|
    ensures forall k :: 0 <= k < |r| ==> r[k] < |s| && p(s[r[k]])
    ensures forall i, j :: 0 <= i < j < |r| ==> r[i] != r[j]
    ensures forall i, j :: 0 <= i < j < |r| ==> KeyLe(key(r[i]), key(r[j]))
    ensures forall x: nat :: x < |s| && p(s[x]) && x !in r ==>
      |r| == n && forall k :: 0 <= k < |r| ==> KeyLe(key(r[k]), key(x))
  {
    var matched := Matching(s, p);
    TakeOfSorted(matched, key, n);
    TakeOfSortedDistinct(matched, key, n);
    Take(SortBy(matched, key), n)
  }

  /** No element occurs twice in `s`. */
  ghost predicate Distinct<T>(s: seq<T>) {
    forall i, j :: 0 <= i < j < |s| ==> s[i] != s[j]
  }

  /** An element of a sequence without repetitions occurs in it at most once. */
  lemma {:induction false} DistinctAtMostOnce<T>(s: seq<T>, x: T)
    requires Distinct(s)
    ensures multiset(s)[x] <= 1
  {
    if s != [] {
      var n := |s| - 1;
      assert s == s[..n] + [s[n]];
      assert Distinct(s[..n]);
      DistinctAtMostOnce(s[..n], x);
      if x == s[n] {
        assert x !in s[..n];
      }
    }
  }

  /** An element found at two positions occurs at least twice. */
  lemma TwiceCounted<T>(t: seq<T>, i: nat, j: nat)
    requires i < j < |t|
    ensures t[i] == t[j] ==> multiset(t)[t[j]] >= 2
  {
    assert t == t[..j] + t[j..];
    assert t[..j][i] == t[i];
    assert t[j..][0] == t[j];
  }

  /** A permutation of a sequence without repetitions has none either. */
  lemma PermutationDistinct<T>(s: seq<T>, t: seq<T>)
    requires multiset(s) == multiset(t) && Distinct(s)
    ensures Distinct(t)
  {
    forall i, j | 0 <= i < j < |t| ensures t[i] != t[j] {
      DistinctAtMostOnce(s, t[j]);
      TwiceCounted(t, i, j);
    }
  }

  /** The first `n` of a sorted copy of a sequence without repetitions have none either. */
  lemma TakeOfSortedDistinct<T>(s: seq<T>, key: T -> Key, n: nat)
    requires Distinct(s)
    ensures Distinct(Take(SortBy(s, key), n))
  {
    var sorted := SortBy(s, key);
    PermutationDistinct(s, sorted);
    var r := Take(sorted, n);
    forall i, j | 0 <= i < j < |r| ensures r[i] != r[j] {
      assert r[i] == sorted[i] && r[j] == sorted[j];
    }
  }

  /** How many elements of `s` satisfy `p`. */
  function CountWhere<T>(s: seq<T>, p: T -> bool): nat
  {
    if s == [] then 0 else CountWhere(s[..|s| - 1], p) + (if p(s[|s| - 1]) then 1 else 0)
  }

  /** `Matching` lists one position per element that satisfies `p`. */
  lemma {:induction false} MatchingCount<T>(s: seq<T>, p: T -> bool)
    ensures |Matching(s, p)| == CountWhere(s, p)
  {
    if s != [] {
      MatchingCount(s[..|s| - 1], p);
    }
  }

  /** Sequences with the same verdicts everywhere have the same count. */
  lemma {:induction false} CountSameVerdicts<T>(s: seq<T>, s': seq<T>, p: T -> bool)
    requires |s| == |s'|
    requires forall k :: 0 <= k < |s| ==> p(s[k]) == p(s'[k])
    ensures CountWhere(s, p) == CountWhere(s', p)
  {
    if s != [] {
      var n := |s| - 1;
      assert p(s[n]) == p(s'[n]);
      CountSameVerdicts(s[..n], s'[..n], p);
    }
  }

  /** Switching one verdict off lowers the count by one if it was on. */
  lemma {:induction false} CountRemoveOne<T>(s: seq<T>, s': seq<T>, p: T -> bool, i: nat)
    requires |s| == |s'| && i < |s|
    requires !p(s'[i])
    requires forall k :: 0 <= k < |s| && k != i ==> p(s[k]) == p(s'[k])
    ensures CountWhere(s', p) == CountWhere(s, p) - (if p(s[i]) then 1 else 0)
  {
    var n := |s| - 1;
    if i == n {
      CountSameVerdicts(s[..n], s'[..n], p);
    } else {
      assert p(s'[n]) == p(s[n]);
      CountRemoveOne(s[..n], s'[..n], p, i);
    }
  }

  /** Two predicates that never hold together match no more positions than their union. */
  lemma {:induction false} MatchingDisjoint<T>(s: seq<T>, p: T -> bool, q1: T -> bool, q2: T -> bool)
    requires forall x :: q1(x) ==> p(x)
    requires forall x :: q2(x) ==> p(x)
    requires forall x :: !(q1(x) && q2(x))
    ensures |Matching(s, q1)| + |Matching(s, q2)| <= |Matching(s, p)|
  {
    if s != [] {
      MatchingDisjoint(s[..|s| - 1], p, q1, q2);
    }
  }

  /** The sum of `f` over the elements of `s` that satisfy `p`: a `filter` followed by a summing `reduce`. */
  function Total<T>(s: seq<T>, p: T -> bool, f: T -> int): int
  {
    if s == [] then 0
    else Total(s[..|s| - 1], p, f) + (if p(s[|s| - 1]) then f(s[|s| - 1]) else 0)
  }

  /** A sum over the union of two disjoint selections is the sum of the two sums. */
  lemma {:induction false} TotalSplit<T>(s: seq<T>, p: T -> bool, q1: T -> bool, q2: T -> bool, f: T -> int)
    requires forall x :: p(x) <==> q1(x) || q2(x)
    requires forall x :: !(q1(x) && q2(x))
    ensures Total(s, p, f) == Total(s, q1, f) + Total(s, q2, f)
  {
    if s != [] {
      TotalSplit(s[..|s| - 1], p, q1, q2, f);
    }
  }

}
