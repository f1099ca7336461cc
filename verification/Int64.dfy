/** NumPy int64 arithmetic, which wraps around silently, and when it is exact. */
module Int64 {
  import opened Bytes

  const MAX: int := TWO_63 - 1

  /** What int64 arithmetic leaves of a mathematical result. */
  function Wrap(x: int): (r: i64) {
    (x + TWO_63) % TWO_64 - TWO_63
  }

  lemma WrapFits(x: int)
    requires -TWO_63 <= x < TWO_63
    ensures Wrap(x) == x
  {
  }

  function Sum(s: seq<int>): int {
    if s == [] then 0 else Sum(s[..|s| - 1]) + s[|s| - 1]
  }

  lemma {:induction false} SumAppend(a: seq<int>, b: seq<int>)
    ensures Sum(a + b) == Sum(a) + Sum(b)
    decreases |b|
  {
    if b == [] {
      assert a + b == a;
    } else {
      SumAppend(a, b[..|b| - 1]);
      assert (a + b)[..|a + b| - 1] == a + b[..|b| - 1];
    }
  }

  lemma SumSlice(s: seq<int>, i: nat, j: nat)
    requires i <= j <= |s|
    ensures Sum(s[..j]) - Sum(s[..i]) == Sum(s[i..j])
  {
    SumAppend(s[..i], s[i..j]);
    assert s[..i] + s[i..j] == s[..j];
  }

  function MaxOf(s: seq<int>): (m: int)
    requires s != []
    ensures m in s && forall i :: 0 <= i < |s| ==> s[i] <= m
  {
    if |s| == 1 then s[0]
    else
      var m := MaxOf(s[..|s| - 1]);
      if m < s[|s| - 1] then s[|s| - 1] else m
  }

  lemma {:induction false} SumBound(s: seq<int>, lo: int, hi: int)
    requires forall i :: 0 <= i < |s| ==> lo <= s[i] <= hi
    ensures lo * |s| <= Sum(s) <= hi * |s|
  {
    if s != [] {
      SumBound(s[..|s| - 1], lo, hi);
      assert hi * |s| == hi * (|s| - 1) + hi && lo * |s| == lo * (|s| - 1) + lo;
    }
  }

  /** `np.sum`/`np.cumsum` accumulate in int64. */
  function WrapSum(s: seq<int>): i64 {
    if s == [] then 0 else Wrap(WrapSum(s[..|s| - 1]) + s[|s| - 1])
  }

  lemma {:induction false} WrapSumExact(s: seq<int>)
    requires forall i :: 0 <= i <= |s| ==> -TWO_63 <= Sum(s[..i]) < TWO_63
    ensures WrapSum(s) == Sum(s)
  {
    assert s[..|s|] == s;
    if s != [] {
      var t := s[..|s| - 1];
      forall i | 0 <= i <= |t|
        ensures t[..i] == s[..i]
      {
      }
      WrapSumExact(t);
    }
  }

  /** When magnitude times length fits, no partial sum can overflow. */
  lemma {:induction false} WrapSumOfBounded(s: seq<int>, bound: nat)
    requires forall i :: 0 <= i < |s| ==> 0 - bound <= s[i] <= bound
    requires bound * |s| <= MAX
    ensures WrapSum(s) == Sum(s)
  {
    forall i | 0 <= i <= |s|
      ensures -TWO_63 <= Sum(s[..i]) < TWO_63
    {
      SumBound(s[..i], 0 - bound, bound);
      MulOrder(i, |s|, bound);
    }
    WrapSumExact(s);
  }
}
