/** The checksum total that may exceed int64 (external-tests/fastk_bench/batches.py). */
module ExactSum {
  import opened Bytes
  import opened Int64

  const BLOCK: nat := 1024

  function Abs(x: int): nat {
    if x < 0 then -x else x
  }

  function MinOf(s: seq<int>): (m: int)
    requires s != []
    ensures m in s && forall i :: 0 <= i < |s| ==> m <= s[i]
  {
    if |s| == 1 then s[0]
    else
      var m := MinOf(s[..|s| - 1]);
      if m > s[|s| - 1] then s[|s| - 1] else m
  }

  /** The mathematical sum, for every input, although full blocks are summed in int64. */
  method Total(values: seq<i64>) returns (total: int)
    ensures total == Sum(values)
  {
    total := 0;
    var start := 0;
    while start < |values|
      invariant 0 <= start <= |values|
      invariant total == Sum(values[..start])
    {
      var stop := if start + BLOCK < |values| then start + BLOCK else |values|;
      var block := values[start..stop];
      var lo, hi := Abs(MinOf(block)), Abs(MaxOf(block));
      var bound := if lo < hi then hi else lo;
      if bound * |block| <= MAX {
        WrapSumOfBounded(block, bound);
        total := total + WrapSum(block);
      } else {
        total := total + Sum(block);
      }
      SumSlice(values, start, stop);
      start := stop;
    }
    assert values[..|values|] == values;
  }
}
