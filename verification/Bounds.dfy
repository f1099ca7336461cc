/** What range queries mean: filtering by timestamp, and the index bounds that describe it. */
module Bounds {
  import opened Bytes
  import opened Records

  /** The reference answer of every range query. */
  function InRange(rs: seq<Record>, start: int, end: int): seq<Record> {
    if rs == [] then []
    else (if start <= rs[0].ts <= end then [rs[0]] else []) + InRange(rs[1..], start, end)
  }

  /** How many leading records lie strictly before `t`. */
  function LowerBound(rs: seq<Record>, t: int): (k: nat)
    ensures k <= |rs|
  {
    if rs == [] || rs[0].ts >= t then 0 else 1 + LowerBound(rs[1..], t)
  }

  /** How many leading records lie at or before `t`. */
  function UpperBound(rs: seq<Record>, t: int): (k: nat)
    ensures k <= |rs|
  {
    if rs == [] || rs[0].ts > t then 0 else 1 + UpperBound(rs[1..], t)
  }

  ghost predicate SplitsBelow(rs: seq<Record>, t: int, k: int) {
    && 0 <= k <= |rs|
    && (forall i :: 0 <= i < k ==> rs[i].ts < t)
    && (forall i :: k <= i < |rs| ==> rs[i].ts >= t)
  }

  ghost predicate SplitsAtOrBelow(rs: seq<Record>, t: int, k: int) {
    && 0 <= k <= |rs|
    && (forall i :: 0 <= i < k ==> rs[i].ts <= t)
    && (forall i :: k <= i < |rs| ==> rs[i].ts > t)
  }

  lemma {:induction false} LowerBoundIs(rs: seq<Record>, t: int, k: int)
    requires SplitsBelow(rs, t, k)
    ensures LowerBound(rs, t) == k
  {
    if rs != [] && rs[0].ts < t {
      LowerBoundIs(rs[1..], t, k - 1);
    }
  }

  lemma {:induction false} UpperBoundIs(rs: seq<Record>, t: int, k: int)
    requires SplitsAtOrBelow(rs, t, k)
    ensures UpperBound(rs, t) == k
  {
    if rs != [] && rs[0].ts <= t {
      UpperBoundIs(rs[1..], t, k - 1);
    }
  }

  lemma {:induction false} LowerBoundSplits(rs: seq<Record>, t: int)
    requires NonDecreasing(rs)
    ensures SplitsBelow(rs, t, LowerBound(rs, t))
  {
    if rs != [] && rs[0].ts < t {
      LowerBoundSplits(rs[1..], t);
      assert forall i :: 1 <= i < |rs| ==> rs[i] == rs[1..][i - 1];
    }
  }

  lemma {:induction false} UpperBoundSplits(rs: seq<Record>, t: int)
    requires NonDecreasing(rs)
    ensures SplitsAtOrBelow(rs, t, UpperBound(rs, t))
  {
    if rs != [] && rs[0].ts <= t {
      UpperBoundSplits(rs[1..], t);
      assert forall i :: 1 <= i < |rs| ==> rs[i] == rs[1..][i - 1];
    }
  }

  lemma {:induction false} InRangeAppend(a: seq<Record>, b: seq<Record>, start: int, end: int)
    ensures InRange(a + b, start, end) == InRange(a, start, end) + InRange(b, start, end)
  {
    if a == [] {
      assert a + b == b;
    } else {
      InRangeAppend(a[1..], b, start, end);
      assert (a + b)[1..] == a[1..] + b;
      var head := if start <= a[0].ts <= end then [a[0]] else [];
      PlusAssociates(head, InRange(a[1..], start, end), InRange(b, start, end));
    }
  }

  lemma {:induction false} InRangeNone(rs: seq<Record>, start: int, end: int)
    requires forall i :: 0 <= i < |rs| ==> !(start <= rs[i].ts <= end)
    ensures InRange(rs, start, end) == []
  {
    if rs != [] {
      InRangeNone(rs[1..], start, end);
    }
  }

  lemma {:induction false} InRangeAll(rs: seq<Record>, start: int, end: int)
    requires forall i :: 0 <= i < |rs| ==> start <= rs[i].ts <= end
    ensures InRange(rs, start, end) == rs
  {
    if rs != [] {
      InRangeAll(rs[1..], start, end);
      assert rs == [rs[0]] + rs[1..];
    }
  }

  /** On sorted records the filter is the slice between the two bounds. */
  lemma {:induction false} InRangeIsSlice(rs: seq<Record>, start: int, end: int)
    requires NonDecreasing(rs)
    ensures var lo, hi := LowerBound(rs, start), UpperBound(rs, end);
            InRange(rs, start, end) == if lo <= hi then rs[lo..hi] else []
  {
    var lo, hi := LowerBound(rs, start), UpperBound(rs, end);
    LowerBoundSplits(rs, start);
    UpperBoundSplits(rs, end);
    if lo <= hi {
      assert rs == rs[..lo] + (rs[lo..hi] + rs[hi..]);
      InRangeAppend(rs[..lo], rs[lo..hi] + rs[hi..], start, end);
      InRangeAppend(rs[lo..hi], rs[hi..], start, end);
      InRangeNone(rs[..lo], start, end);
      InRangeAll(rs[lo..hi], start, end);
      InRangeNone(rs[hi..], start, end);
    } else {
      InRangeNone(rs, start, end);
    }
  }

  lemma {:induction false} BoundsInOrder(rs: seq<Record>, start: int, end: int)
    requires NonDecreasing(rs) && start <= end
    ensures LowerBound(rs, start) <= UpperBound(rs, end)
  {
    LowerBoundSplits(rs, start);
    UpperBoundSplits(rs, end);
    var hi := UpperBound(rs, end);
    assert hi < |rs| ==> rs[hi].ts > end;
  }

  /** Bounds found inside a window `lo..hi` that holds the split point are the global ones. */
  lemma {:induction false} LowerBoundInWindow(rs: seq<Record>, t: int, lo: nat, hi: nat, local: nat)
    requires NonDecreasing(rs) && lo <= hi <= |rs|
    requires SplitsBelow(rs[lo..hi], t, local)
    requires lo > 0 ==> rs[lo - 1].ts < t
    requires hi < |rs| ==> rs[hi].ts >= t
    ensures lo + local == LowerBound(rs, t)
  {
    assert forall i :: lo <= i < hi ==> rs[i] == rs[lo..hi][i - lo];
    LowerBoundIs(rs, t, lo + local);
  }

  lemma {:induction false} UpperBoundInWindow(rs: seq<Record>, t: int, lo: nat, hi: nat, local: nat)
    requires NonDecreasing(rs) && lo <= hi <= |rs|
    requires SplitsAtOrBelow(rs[lo..hi], t, local)
    requires lo > 0 ==> rs[lo - 1].ts <= t
    requires hi < |rs| ==> rs[hi].ts > t
    ensures lo + local == UpperBound(rs, t)
  {
    assert forall i :: lo <= i < hi ==> rs[i] == rs[lo..hi][i - lo];
    UpperBoundIs(rs, t, lo + local);
  }

  // The binary searches every reader runs over decoded rows.

  method LowerBoundInRecords(rs: seq<Record>, t: i64) returns (left: nat)
    requires NonDecreasing(rs)
    ensures SplitsBelow(rs, t, left)
  {
    left := 0;
    var right := |rs|;
    while left < right
      invariant 0 <= left <= right <= |rs|
      invariant forall i :: 0 <= i < left ==> rs[i].ts < t
      invariant forall i :: right <= i < |rs| ==> rs[i].ts >= t
    {
      var mid := left + (right - left) / 2;
      if rs[mid].ts < t {
        left := mid + 1;
      } else {
        right := mid;
      }
    }
  }

  method UpperBoundInRecords(rs: seq<Record>, t: i64) returns (left: nat)
    requires NonDecreasing(rs)
    ensures SplitsAtOrBelow(rs, t, left)
  {
    left := 0;
    var right := |rs|;
    while left < right
      invariant 0 <= left <= right <= |rs|
      invariant forall i :: 0 <= i < left ==> rs[i].ts <= t
      invariant forall i :: right <= i < |rs| ==> rs[i].ts > t
    {
      var mid := left + (right - left) / 2;
      if rs[mid].ts <= t {
        left := mid + 1;
      } else {
        right := mid;
      }
    }
  }
}
