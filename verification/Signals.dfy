/** Trading signals: what each target means over the whole history, and the batched computation. */
module Signals {
  import opened Wrappers
  import opened Bytes
  import opened Int64

  datatype Strategy = Rsi | Sma | Momentum

  type Closes = seq<i64>

  // What the target after the last close is, given all closes so far

  ghost predicate AllPositive(s: seq<int>) {
    forall i :: 0 <= i < |s| ==> s[i] > 0
  }

  function Last(s: Closes, n: nat): Closes {
    if |s| <= n then s else s[|s| - n..]
  }

  ghost function Mean(s: seq<int>): real
    requires s != []
  {
    Sum(s) as real / |s| as real
  }

  /** The last `n` closes up to and including position `i`. */
  function Window(closes: Closes, i: nat, n: nat): Closes
    requires n <= i + 1 <= |closes|
  {
    closes[i + 1 - n..i + 1]
  }

  ghost predicate MomentumTarget(closes: Closes, i: nat)
    requires i < |closes|
  {
    i >= 60 && closes[i] > closes[i - 60]
  }

  /** The fast mean over 20 bars exceeds the slow mean over 60. */
  ghost predicate SmaTarget(closes: Closes, i: nat)
    requires i < |closes|
  {
    i >= 59 && Mean(Window(closes, i, 20)) > Mean(Window(closes, i, 60))
  }

  datatype RsiState = RsiState(previous: Option<i64>, changes: nat, gain: real, loss: real, target: bool)

  const RSI_START := RsiState(None, 0, 0.0, 0.0, false)

  function Up(delta: int): real {
    if delta > 0 then delta as real else 0.0
  }

  /** Wilder averages: seeded by the mean of the first 14 changes, then smoothed. */
  function Averaged(average: real, changes: nat, change: real): real {
    if changes < 14 then average + change
    else if changes == 14 then (average + change) / 14.0
    else (average * 13.0 + change) / 14.0
  }

  function RsiValue(gain: real, loss: real): real {
    if gain + loss != 0.0 then 100.0 * gain / (gain + loss) else 50.0
  }

  function Retarget(target: bool, rsi: real): bool {
    if rsi <= 30.0 then true else if rsi >= 70.0 then false else target
  }

  function RsiStep(s: RsiState, value: i64): RsiState {
    if s.previous.None? then s.(previous := Some(value))
    else
      var delta := value - s.previous.value;
      var changes := s.changes + 1;
      var gain, loss := Averaged(s.gain, changes, Up(delta)), Averaged(s.loss, changes, Up(-delta));
      RsiState(Some(value), changes, gain, loss,
               if changes >= 14 then Retarget(s.target, RsiValue(gain, loss)) else s.target)
  }

  function RsiRun(closes: Closes): RsiState {
    if closes == [] then RSI_START else RsiStep(RsiRun(closes[..|closes| - 1]), closes[|closes| - 1])
  }

  /** The strategy's target at the close of bar `i`, as a function of the whole history. */
  ghost predicate Target(strategy: Strategy, closes: Closes, i: nat)
    requires i < |closes|
  {
    match strategy
    case Rsi => RsiRun(closes[..i + 1]).target
    case Sma => SmaTarget(closes, i)
    case Momentum => MomentumTarget(closes, i)
  }

  /** The targets at bars `from..` of a history. */
  ghost function TargetsFrom(strategy: Strategy, closes: Closes, from: nat): (ts: seq<bool>)
    requires from <= |closes|
    ensures |ts| == |closes| - from
    ensures forall i {:trigger ts[i]} :: 0 <= i < |ts| ==> ts[i] == Target(strategy, closes, from + i)
  {
    seq(|closes| - from, i requires 0 <= i < |closes| - from => Target(strategy, closes, from + i))
  }

  /** Targets look only backwards. */
  lemma {:induction false} TargetOfPrefix(strategy: Strategy, closes: Closes, more: Closes, i: nat)
    requires i < |closes|
    ensures Target(strategy, closes + more, i) == Target(strategy, closes, i)
  {
    assert (closes + more)[..i + 1] == closes[..i + 1];
    if i >= 59 {
      assert Window(closes + more, i, 20) == Window(closes, i, 20);
      assert Window(closes + more, i, 60) == Window(closes, i, 60);
    }
  }

  /** Averages stay nonnegative, so the RSI value lies in 0..100 and is 50 only by default or balance. */
  lemma {:induction false} RsiInRange(closes: Closes)
    ensures var s := RsiRun(closes);
            s.gain >= 0.0 && s.loss >= 0.0 && 0.0 <= RsiValue(s.gain, s.loss) <= 100.0
  {
    if closes != [] {
      RsiInRange(closes[..|closes| - 1]);
    }
    var s := RsiRun(closes);
    RatioInRange(s.gain, s.loss);
  }

  lemma RatioInRange(gain: real, loss: real)
    requires gain >= 0.0 && loss >= 0.0
    ensures 0.0 <= RsiValue(gain, loss) <= 100.0
  {
    var total := gain + loss;
    if total != 0.0 {
      var r := 100.0 * gain / total;
      assert r * total == 100.0 * gain;
      assert r < 0.0 ==> r * total < 0.0;
      assert r > 100.0 ==> r * total > 100.0 * total;
    }
  }

  /** The step from the last close but one to the last. */
  function Change(closes: Closes): int
    requires |closes| >= 2
  {
    closes[|closes| - 1] as int - closes[|closes| - 2] as int
  }

  /** The sum of all rises from one close to the next. */
  ghost function Rises(closes: Closes): real {
    if |closes| < 2 then 0.0
    else Rises(closes[..|closes| - 1]) + Up(Change(closes))
  }

  ghost function Falls(closes: Closes): real {
    if |closes| < 2 then 0.0
    else Falls(closes[..|closes| - 1]) + Up(-Change(closes))
  }

  /** All changes from position `i - n` to position `i` added up. */
  ghost function NetChange(closes: Closes, i: nat, n: nat): int
    requires n <= i < |closes|
  {
    if n == 0 then 0 else closes[i - n + 1] as int - closes[i - n] as int + NetChange(closes, i, n - 1)
  }

  lemma {:induction false} NetChangeTelescopes(closes: Closes, i: nat, n: nat)
    requires n <= i < |closes|
    ensures NetChange(closes, i, n) == closes[i] as int - closes[i - n] as int
  {
    if n > 0 {
      NetChangeTelescopes(closes, i, n - 1);
    }
  }

  /** Momentum is long exactly when sixty changes are known and together rise. */
  lemma {:induction false} MomentumIsNetRise(closes: Closes, i: nat)
    requires i < |closes|
    ensures Target(Momentum, closes, i) <==> i >= 60 && NetChange(closes, i, 60) > 0
  {
    if i >= 60 {
      NetChangeTelescopes(closes, i, 60);
    }
  }

  /** SMA is long exactly when sixty bars are known and the last twenty average more than the forty before them. */
  lemma {:induction false} SmaIsRecentOverEarlier(closes: Closes, i: nat)
    requires i < |closes|
    ensures Target(Sma, closes, i) <==> i >= 59 && Mean(closes[i - 19..i + 1]) > Mean(closes[i - 59..i - 19])
  {
    if i >= 59 {
      var early, late := closes[i - 59..i - 19], closes[i - 19..i + 1];
      assert Window(closes, i, 60) == early + late && Window(closes, i, 20) == late;
      SumAppend(early, late);
      MeansOfParts(Sum(early), Sum(late));
    }
  }

  lemma MeansOfParts(early: int, late: int)
    ensures late as real / 20.0 > (early + late) as real / 60.0 <==> late as real / 20.0 > early as real / 40.0
  {
  }

  /** The averages are seeded with the mean rise and fall of the first fourteen changes. */
  lemma {:induction false} RsiSeed(closes: Closes)
    requires 0 < |closes| <= 15
    ensures var s := RsiRun(closes);
            && s.previous == Some(closes[|closes| - 1]) && s.changes == |closes| - 1
            && (|closes| < 15 ==> s.gain == Rises(closes) && s.loss == Falls(closes) && !s.target)
            && (|closes| == 15 ==> s.gain == Rises(closes) / 14.0 && s.loss == Falls(closes) / 14.0)
  {
    if |closes| > 1 {
      RsiSeed(closes[..|closes| - 1]);
    }
  }

  /** From then on each average keeps 13/14 of itself, and the target only moves at the two thresholds. */
  lemma {:induction false} RsiSmoothing(closes: Closes)
    requires |closes| > 15
    ensures var s, before := RsiRun(closes), RsiRun(closes[..|closes| - 1]);
            var delta := Change(closes);
            && s.changes == |closes| - 1
            && s.gain * 14.0 == before.gain * 13.0 + Up(delta)
            && s.loss * 14.0 == before.loss * 13.0 + Up(-delta)
            && (s.target != before.target ==>
                  if s.target then RsiValue(s.gain, s.loss) <= 30.0 else RsiValue(s.gain, s.loss) >= 70.0)
  {
    RsiProgress(closes[..|closes| - 1]);
  }

  /**
   * The target after every close: flat until fourteen changes are known; from then on long at an RSI
   * of at most 30, flat at 70 or more, and otherwise what it was.
   */
  lemma {:induction false} RsiTargetExactly(closes: Closes)
    ensures |closes| < 15 ==> !RsiRun(closes).target
    ensures |closes| >= 15 ==>
              var s, before := RsiRun(closes), RsiRun(closes[..|closes| - 1]);
              var v := RsiValue(s.gain, s.loss);
              s.target <==> v <= 30.0 || (v < 70.0 && before.target)
  {
    if 0 < |closes| < 15 {
      RsiSeed(closes);
    } else if |closes| >= 15 {
      RsiProgress(closes[..|closes| - 1]);
    }
  }

  /** Wilder's form of the same value: with relative strength gain / loss, 100 minus 100 over one plus it. */
  lemma RsiIsWilders(gain: real, loss: real)
    requires gain >= 0.0 && loss > 0.0
    ensures RsiValue(gain, loss) == 100.0 - 100.0 / (1.0 + gain / loss)
  {
    var rs := gain / loss;
    assert rs * loss == gain;
    PositiveSum(rs, gain, loss);
    var v := 100.0 * gain / (gain + loss);
    var w := 100.0 / (1.0 + rs);
    assert w * (1.0 + rs) == 100.0;
    assert (gain + loss) == loss * (1.0 + rs);
    assert w * (gain + loss) == w * (1.0 + rs) * loss == 100.0 * loss;
    assert v * (gain + loss) == 100.0 * gain;
    assert (v + w) * (gain + loss) == 100.0 * (gain + loss);
    SameFactor(v + w, 100.0, gain + loss);
  }

  lemma PositiveSum(rs: real, gain: real, loss: real)
    requires gain >= 0.0 && loss > 0.0 && rs * loss == gain
    ensures rs >= 0.0 && 1.0 + rs > 0.0
  {
  }

  lemma SameFactor(a: real, b: real, c: real)
    requires c != 0.0 && a * c == b * c
    ensures a == b
  {
    assert (a - b) * c == 0.0;
  }

  /** Without losses the value is 100, unless nothing moved at all. */
  lemma RsiWithoutLosses(gain: real)
    requires gain > 0.0
    ensures RsiValue(gain, 0.0) == 100.0
  {
  }

  lemma {:induction false} RsiProgress(closes: Closes)
    requires closes != []
    ensures RsiRun(closes).previous == Some(closes[|closes| - 1]) && RsiRun(closes).changes == |closes| - 1
  {
    if |closes| > 1 {
      RsiProgress(closes[..|closes| - 1]);
    }
  }

  /** An entirely flat history has RSI 50 and never goes long. */
  lemma {:induction false} FlatHistoryIsNeutral(closes: Closes)
    requires forall i :: 0 <= i < |closes| ==> closes[i] == closes[0]
    ensures var s := RsiRun(closes);
            s.gain == 0.0 && s.loss == 0.0 && RsiValue(s.gain, s.loss) == 50.0 && !s.target
  {
    if |closes| > 1 {
      FlatHistoryIsNeutral(closes[..|closes| - 1]);
      RsiProgress(closes[..|closes| - 1]);
    }
  }

  // The int64 guards of the SMA signal

  /** The batched computation raises instead of overflowing. */
  predicate Raises(strategy: Strategy, joined: Closes) {
    strategy.Sma? && joined != [] &&
    (MaxOf(joined) * |joined| > MAX || (|joined| >= 60 && MaxOf(joined) > MAX / 1200))
  }

  /** A stretch of a history that passes the guards passes them too. */
  lemma {:induction false} GuardsAreMonotone(strategy: Strategy, joined: Closes, part: Closes, i: nat)
    requires AllPositive(joined) && i + |part| <= |joined| && part == joined[i..i + |part|]
    requires !Raises(strategy, joined)
    ensures !Raises(strategy, part)
  {
    if strategy.Sma? && part != [] {
      var m, n := MaxOf(part), MaxOf(joined);
      assert m in joined && 0 < m <= n;
      MulOrder(m, n, |part|);
      MulOrder(|part|, |joined|, n);
    }
  }

  // The batched computation in int64

  ghost function Cumulative(s: Closes): (sums: seq<int>)
    ensures |sums| == |s| + 1
  {
    seq(|s| + 1, i requires 0 <= i <= |s| => WrapSum(s[..i]))
  }

  method CumSum(s: Closes) returns (sums: seq<int>)
    ensures sums == Cumulative(s)
  {
    sums := [0];
    assert s[..0] == [];
    for i := 0 to |s|
      invariant |sums| == i + 1
      invariant forall k :: 0 <= k <= i ==> sums[k] == WrapSum(s[..k])
    {
      assert s[..i + 1][..i] == s[..i];
      sums := sums + [Wrap(sums[i] + s[i])];
    }
  }

  /** The comparison NumPy evaluates for the window ending at `i`. */
  function CompareMeans(sums: seq<int>, i: nat): bool
    requires 59 <= i < |sums| - 1
  {
    var fast, slow := Wrap(sums[i + 1] - sums[i + 1 - 20]), Wrap(sums[i + 1] - sums[i + 1 - 60]);
    Wrap(fast * 60) > Wrap(slow * 20)
  }

  /** Positive values up to `m`, few enough that their sum fits. */
  ghost predicate Small(s: seq<int>, m: int) {
    (forall i :: 0 <= i < |s| ==> 0 < s[i] <= m) && m * |s| <= MAX
  }

  lemma {:induction false} SumsAreExact(joined: Closes, m: nat, i: nat)
    requires Small(joined, m) && i <= |joined|
    ensures Cumulative(joined)[i] == Sum(joined[..i])
  {
    MulOrder(i, |joined|, m);
    WrapSumOfBounded(joined[..i], m);
  }

  lemma {:induction false} WindowIsExact(joined: Closes, m: nat, i: nat, n: nat)
    requires Small(joined, m) && n <= i + 1 <= |joined|
    ensures Wrap(Cumulative(joined)[i + 1] - Cumulative(joined)[i + 1 - n]) == Sum(Window(joined, i, n))
    ensures 0 <= Sum(Window(joined, i, n)) <= m * n
  {
    SumsAreExact(joined, m, i + 1);
    SumsAreExact(joined, m, i + 1 - n);
    SumSlice(joined, i + 1 - n, i + 1);
    WindowBound(joined, m, i, n);
    WrapFits(Sum(Window(joined, i, n)));
  }

  lemma {:induction false} WindowBound(joined: Closes, m: nat, i: nat, n: nat)
    requires Small(joined, m) && n <= i + 1 <= |joined|
    ensures 0 <= Sum(Window(joined, i, n)) <= m * n <= MAX
  {
    SumBound(Window(joined, i, n), 0, m);
    MulOrder(n, |joined|, m);
  }

  /** Scaled integer comparison is comparison of the exact means. */
  lemma MeansCompare(fast: seq<int>, slow: seq<int>)
    requires |fast| == 20 && |slow| == 60
    ensures Sum(fast) * 60 > Sum(slow) * 20 <==> Mean(fast) > Mean(slow)
  {
    var f, s := Sum(fast) as real, Sum(slow) as real;
    assert (Sum(fast) * 60) as real == f * 60.0 && (Sum(slow) * 20) as real == s * 20.0;
    assert Mean(fast) == f / 20.0 && Mean(slow) == s / 60.0;
  }

  lemma ProductsFit(m: int, fast: int, slow: int)
    requires 0 <= fast <= m * 20 && 0 <= slow <= m * 60 && m <= MAX / 1200
    ensures Wrap(fast * 60) == fast * 60 && Wrap(slow * 20) == slow * 20
  {
  }

  /** Under the two guards nothing wraps, so the int64 comparison is the exact rational one. */
  lemma {:induction false} SmaIsExact(joined: Closes, i: nat)
    requires AllPositive(joined) && !Raises(Sma, joined)
    requires 59 <= i < |joined|
    ensures CompareMeans(Cumulative(joined), i) == SmaTarget(joined, i)
  {
    var m := MaxOf(joined);
    assert m in joined && Small(joined, m);
    WindowIsExact(joined, m, i, 20);
    WindowIsExact(joined, m, i, 60);
    var fast, slow := Sum(Window(joined, i, 20)), Sum(Window(joined, i, 60));
    ProductsFit(m, fast, slow);
    MeansCompare(Window(joined, i, 20), Window(joined, i, 60));
  }

  lemma WindowShift(whole: Closes, cut: nat, i: nat, n: nat)
    requires cut <= |whole| && n <= i + 1 <= |whole| - cut
    ensures Window(whole[cut..], i, n) == Window(whole, cut + i, n)
  {
    var part := whole[cut..];
    assert |Window(part, i, n)| == |Window(whole, cut + i, n)|;
    forall k | 0 <= k < n
      ensures Window(part, i, n)[k] == Window(whole, cut + i, n)[k]
    {
      assert part[i + 1 - n + k] == whole[cut + (i + 1 - n + k)];
    }
  }

  /** Sixty bars of context are enough for every non-recursive signal. */
  lemma {:induction false} TailSuffices(strategy: Strategy, whole: Closes, cut: nat, i: nat)
    requires !strategy.Rsi? && cut <= |whole| && i < |whole| - cut
    requires cut > 0 ==> i >= 60
    ensures Target(strategy, whole[cut..], i) == Target(strategy, whole, cut + i)
  {
    if i >= 59 {
      WindowShift(whole, cut, i, 20);
      WindowShift(whole, cut, i, 60);
    }
  }

  lemma JoinedTail(history: Closes, close: Closes)
    ensures var tail := Last(history, 60);
            tail + close == (history + close)[|history| - |tail|..]
  {
  }

  lemma {:induction false} TailTargets(strategy: Strategy, history: Closes, close: Closes)
    requires !strategy.Rsi?
    ensures var tail := Last(history, 60);
            TargetsFrom(strategy, tail + close, |tail|) == TargetsFrom(strategy, history + close, |history|)
  {
    var tail := Last(history, 60);
    JoinedTail(history, close);
    var cut := |history| - |tail|;
    var a, b := TargetsFrom(strategy, tail + close, |tail|), TargetsFrom(strategy, history + close, |history|);
    forall i | 0 <= i < |close|
      ensures a[i] == b[i]
    {
      TailSuffices(strategy, history + close, cut, |tail| + i);
    }
  }

  lemma {:induction false} TargetsTail(strategy: Strategy, closes: Closes, from: nat)
    requires from <= |closes|
    ensures TargetsFrom(strategy, closes, 0)[from..] == TargetsFrom(strategy, closes, from)
  {
  }

  lemma TailIsPositive(history: Closes, close: Closes)
    requires AllPositive(history + close)
    ensures AllPositive(Last(history, 60) + close)
  {
    JoinedTail(history, close);
  }

  lemma LastOfLast(history: Closes, close: Closes)
    ensures Last(Last(history, 60) + close, 60) == Last(history + close, 60)
  {
  }

  /** The next tail is what the joined array ends with. */
  lemma {:induction false} NextTail(history: Closes, close: Closes)
    ensures var joined, tail := Last(history, 60) + close, Last(history + close, 60);
            |tail| <= |joined| && tail == joined[|joined| - |tail|..]
  {
    LastOfLast(history, close);
  }

  class Signal {
    const strategy: Strategy
    var tail: Closes
    var rsi: RsiState
    ghost var history: Closes

    ghost predicate Valid()
      reads this
    {
      && (!strategy.Rsi? ==> tail == Last(history, 60))
      && (strategy.Rsi? ==> rsi == RsiRun(history))
    }

    constructor (strategy: Strategy)
      ensures Valid() && history == [] && this.strategy == strategy
    {
      this.strategy := strategy;
      tail, rsi, history := [], RSI_START, [];
    }

    /**
     * However the closes arrive in batches, the returned targets are those of the whole
     * history; an overflow guard raises without changing anything.
     */
    method Consume(close: Closes) returns (r: Result<seq<bool>>)
      requires Valid()
      modifies this
      ensures Valid()
      ensures r.Ok? <==> !Raises(strategy, Last(old(history), 60) + close)
      ensures r.Ok? ==> history == old(history) + close && |r.value| == |close|
      ensures r.Ok? && AllPositive(history) ==> r.value == TargetsFrom(strategy, history, old(|history|))
      ensures r.Err? ==> history == old(history) && tail == old(tail) && rsi == old(rsi)
    {
      if strategy.Rsi? {
        var desired := ConsumeRsi(close);
        return Ok(desired);
      }
      var joined, offset := tail + close, |tail|;
      var desired :- Desired(strategy, joined);
      LastOfLast(history, close);
      TailTargets(strategy, history, close);
      TargetsTail(strategy, joined, offset);
      if AllPositive(history + close) {
        TailIsPositive(history, close);
      }
      tail := Last(joined, 60);
      history := history + close;
      return Ok(desired[offset..]);
    }

    method StepRsi(value: i64, ghost whole: Closes, ghost i: nat)
      requires i < |whole| && whole[i] == value && rsi == RsiRun(whole[..i])
      modifies this`rsi
      ensures rsi == RsiRun(whole[..i + 1])
    {
      RsiNext(whole, i);
      rsi := RsiStep(rsi, value);
    }

    method ConsumeRsi(close: Closes) returns (desired: seq<bool>)
      requires Valid() && strategy.Rsi?
      modifies this
      ensures Valid() && history == old(history) + close && |desired| == |close|
      ensures desired == TargetsFrom(Rsi, history, old(|history|))
    {
      desired := [];
      ghost var whole, h := history + close, |history|;
      assert whole[..h] == history;
      ghost var targets := TargetsFrom(Rsi, whole, h);
      for i := 0 to |close|
        invariant rsi == RsiRun(whole[..h + i])
        invariant desired == targets[..i]
      {
        assert targets[i] == Target(Rsi, whole, h + i);
        StepRsi(close[i], whole, h + i);
        desired := desired + [rsi.target];
      }
      assert whole[..|whole|] == whole;
      history := whole;
    }
  }

  lemma RsiNext(closes: Closes, i: nat)
    requires i < |closes|
    ensures RsiRun(closes[..i + 1]) == RsiStep(RsiRun(closes[..i]), closes[i])
  {
    assert closes[..i + 1][..i] == closes[..i];
  }

  /** The vectorised momentum and SMA rules over one joined array. */
  method Desired(strategy: Strategy, joined: Closes) returns (r: Result<seq<bool>>)
    requires !strategy.Rsi?
    ensures r.Ok? <==> !Raises(strategy, joined)
    ensures r.Ok? ==> |r.value| == |joined|
    ensures r.Ok? && AllPositive(joined) ==> r.value == TargetsFrom(strategy, joined, 0)
  {
    if strategy.Momentum? {
      return Ok(seq(|joined|, i requires 0 <= i < |joined| => i >= 60 && joined[i] > joined[i - 60]));
    }
    if joined != [] && MaxOf(joined) * |joined| > MAX {
      return Err(InvalidInput);
    }
    var sums := CumSum(joined);
    var desired := seq(|joined|, i => false);
    if |joined| >= 60 {
      if MaxOf(joined) > MAX / 1200 {
        return Err(InvalidInput);
      }
      desired := seq(|joined|, i requires 0 <= i < |joined| => i >= 59 && CompareMeans(sums, i));
      if AllPositive(joined) {
        forall i | 59 <= i < |joined|
          ensures CompareMeans(sums, i) == SmaTarget(joined, i)
        {
          SmaIsExact(joined, i);
        }
      }
    }
    return Ok(desired);
  }
}
