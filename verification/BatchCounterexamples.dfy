/** What batching does change: runs at a 100% fee, and which runs the SMA overflow guard refuses. */
module BatchCounterexamples {
  import opened Wrappers
  import opened Bytes
  import opened Int64
  import opened Signals
  import opened Simulator
  import opened Accounts
  import opened BatchIndependence

  function Fresh(cash: real): Acct {
    Acct(Books(cash, 0.0, []), false, None, None, [])
  }

  // A 100% fee

  /** Quiet up to bar `t`, then the target goes long, flat, long and stays long. */
  ghost predicate Whipsaw(strategy: Strategy, bars: seq<Bar>, t: nat) {
    && |bars| == t + 5 && Accepts(strategy, Fresh(0.0), bars)
    && var closes := ClosesOf(bars);
       && (forall i :: 0 <= i < t ==> !Target(strategy, closes, i))
       && Target(strategy, closes, t) && !Target(strategy, closes, t + 1)
       && Target(strategy, closes, t + 2) && Target(strategy, closes, t + 3)
  }

  ghost function RunTo(strategy: Strategy, p: Params, cash: real, bars: seq<Bar>, n: nat): Sim
    requires ValidParams(p) && n <= |bars| && AllTradable(bars)
  {
    SimTo(p, Begin(Fresh(cash)), bars, TargetsFrom(strategy, ClosesOf(bars), 0), n)
  }

  lemma NoChangeBefore(desired: seq<bool>, t: nat)
    requires t < |desired| && forall i :: 0 <= i < t ==> !desired[i]
    ensures forall i :: 0 <= i < t + 1 ==> !ChangesOf(false, PositionsOf(false, desired))[i]
  {
    var positions := PositionsOf(false, desired);
    assert forall i :: 0 < i <= t ==> positions[i] == desired[i - 1];
    assert forall i :: 0 <= i < t + 1 ==> !positions[i];
  }

  lemma {:induction false} QuietRun(p: Params, cash: real, bars: seq<Bar>, desired: seq<bool>, t: nat)
    requires ValidParams(p) && AllTradable(bars) && t + 1 < |bars| == |desired|
    requires desired[t] && forall i :: 0 <= i < t ==> !desired[i]
    ensures var s := SimTo(p, Begin(Fresh(cash)), bars, desired, t + 1);
            s.books == Books(cash, 0.0, []) && s.pending && !s.position
  {
    NoChangeBefore(desired, t);
    NoTradeBetween(p, Begin(Fresh(cash)), bars, desired, 0, t + 1);
    FlagsAt(p, Begin(Fresh(cash)), bars, desired, t + 1);
  }

  lemma {:induction false} QuietStart(strategy: Strategy, p: Params, cash: real, bars: seq<Bar>, t: nat)
    requires ValidParams(p) && Whipsaw(strategy, bars, t)
    ensures var s := RunTo(strategy, p, cash, bars, t + 1);
            s.books == Books(cash, 0.0, []) && s.pending && !s.position
  {
    QuietRun(p, cash, bars, TargetsFrom(strategy, ClosesOf(bars), 0), t);
  }

  lemma RunNext(strategy: Strategy, p: Params, cash: real, bars: seq<Bar>, i: nat)
    requires ValidParams(p) && i < |bars| && AllTradable(bars)
    ensures RunTo(strategy, p, cash, bars, i + 1) ==
              SimBar(p, RunTo(strategy, p, cash, bars, i), bars[i], Target(strategy, ClosesOf(bars), i))
  {
  }

  /** Bought, sold for nothing at a 100% fee, bought nothing: three trades and an empty account. */
  lemma {:induction false} AfterTheSale(strategy: Strategy, p: Params, cash: real, bars: seq<Bar>, t: nat)
    requires ValidParams(p) && p.fee == 1.0 && Whipsaw(strategy, bars, t)
    ensures var s := RunTo(strategy, p, cash, bars, t + 4);
            s.books.cash == 0.0 && s.books.units == 0.0 && |s.books.trades| == 3 && s.position && s.pending
  {
    QuietStart(strategy, p, cash, bars, t);
    ThreeTrades(p, RunTo(strategy, p, cash, bars, t + 1), bars[t + 1], bars[t + 2], bars[t + 3]);
    RunNext(strategy, p, cash, bars, t + 1);
    RunNext(strategy, p, cash, bars, t + 2);
    RunNext(strategy, p, cash, bars, t + 3);
  }

  lemma {:induction false} ThreeTrades(p: Params, s: Sim, b1: Bar, b2: Bar, b3: Bar)
    requires ValidParams(p) && p.fee == 1.0 && Tradable(b1) && Tradable(b2) && Tradable(b3)
    requires s.pending && !s.position
    ensures var end := SimBar(p, SimBar(p, SimBar(p, s, b1, false), b2, true), b3, true);
            && end.books.cash == 0.0 && end.books.units == 0.0
            && |end.books.trades| == |s.books.trades| + 3
            && end.position && end.pending
  {
    var s1 := SimBar(p, s, b1, false);
    TradesWhenChanged(p, s, b1, false);
    var s2 := SimBar(p, s1, b2, true);
    TradesWhenChanged(p, s1, b2, true);
    SoldForNothing(p, s1.books, b2.ts, Quote(p, b2.open));
    TradesWhenChanged(p, s2, b3, true);
  }

  lemma SoldForNothing(p: Params, b: Books, ts: i64, quoted: real)
    requires ValidParams(p) && p.fee == 1.0 && quoted > 0.0
    ensures Trade(p, b, ts, quoted, false).cash == 0.0
  {
    var gross := b.units * ExecutionPrice(p, quoted, false);
    assert gross - gross * 1.0 == 0.0;
  }

  lemma {:induction false} WholeRun(strategy: Strategy, p: Params, cash: real, bars: seq<Bar>, n: nat)
    requires ValidParams(p) && |bars| == n + 1 && Accepts(strategy, Fresh(cash), bars)
    requires RunTo(strategy, p, cash, bars, n).pending == RunTo(strategy, p, cash, bars, n).position
    ensures Batch(strategy, p, Fresh(cash), bars).Ok?
    ensures Batch(strategy, p, Fresh(cash), bars).value.account.books == RunTo(strategy, p, cash, bars, n).books
  {
    RunNext(strategy, p, cash, bars, n);
    StandsStill(p, RunTo(strategy, p, cash, bars, n), bars[n], Target(strategy, ClosesOf(bars), n));
    assert [] + ClosesOf(bars) == ClosesOf(bars);
    assert Simulated(strategy, p, Fresh(cash), bars) == RunTo(strategy, p, cash, bars, n + 1);
    BatchOf(strategy, p, Fresh(cash), bars);
  }

  lemma StandsStill(p: Params, s: Sim, bar: Bar, desired: bool)
    requires ValidParams(p) && Tradable(bar) && s.pending == s.position
    ensures SimBar(p, s, bar, desired).books == s.books
  {
  }

  lemma BatchOf(strategy: Strategy, p: Params, a: Acct, bars: seq<Bar>)
    requires ValidParams(p) && bars != [] && Accepts(strategy, a, bars)
    ensures Batch(strategy, p, a, bars).Ok?
    ensures Batch(strategy, p, a, bars).value.account.books == Simulated(strategy, p, a, bars).books
  {
  }

  /** Running only the first bars is the whole run up to there. */
  lemma {:induction false} PartOfRun(strategy: Strategy, p: Params, cash: real, first: seq<Bar>, second: seq<Bar>)
    requires ValidParams(p) && AllTradable(first) && AllTradable(first + second)
    ensures Simulated(strategy, p, Fresh(cash), first) == RunTo(strategy, p, cash, first + second, |first|)
  {
    var a, b := ClosesOf(first), ClosesOf(second);
    ClosesAppend(first, second);
    assert [] + (a + b) == a + b && [] + a == a;
    TargetsSplit(strategy, [], a, b);
    var d1, d2 := TargetsFrom(strategy, a, 0), TargetsFrom(strategy, a + b, |a|);
    SimPrefix(p, Begin(Fresh(cash)), first, d1, second, d2, |first|);
  }

  /** The first batch ends where the whole run stood: bought nothing, and yet in position. */
  lemma {:induction false} FirstBatch(strategy: Strategy, p: Params, cash: real, first: seq<Bar>, second: seq<Bar>)
    requires ValidParams(p) && first != [] && second != [] && Accepts(strategy, Fresh(cash), first + second)
    ensures Batch(strategy, p, Fresh(cash), first).Ok?
    ensures var a := Batch(strategy, p, Fresh(cash), first).value.account;
            && a.books == RunTo(strategy, p, cash, first + second, |first|).books
            && a.pending == RunTo(strategy, p, cash, first + second, |first|).pending
            && Accepts(strategy, a, second)
  {
    AcceptanceSplits(strategy, p, Fresh(cash), first, second);
    PartOfRun(strategy, p, cash, first, second);
  }

  lemma {:induction false} SecondBatch(strategy: Strategy, p: Params, a: Acct, bar: Bar)
    requires ValidParams(p) && Accepts(strategy, a, [bar]) && a.books.units == 0.0 && a.pending
    ensures |Batch(strategy, p, a, [bar]).value.account.books.trades| == |a.books.trades| + 1
  {
    assert Tradable([bar][0]);
    var desired := TargetsFrom(strategy, a.closes + ClosesOf([bar]), |a.closes|);
    TradesWhenChanged(p, Begin(a), bar, desired[0]);
    assert Simulated(strategy, p, a, [bar]) == SimBar(p, SimTo(p, Begin(a), [bar], desired, 0), bar, desired[0]);
  }

  /** Cut before its last bar, a run that holds a bought nothing trades once more. */
  lemma {:induction false} OneMoreTrade(strategy: Strategy, p: Params, cash: real, first: seq<Bar>, last: Bar)
    requires ValidParams(p) && first != [] && Accepts(strategy, Fresh(cash), first + [last])
    requires RunTo(strategy, p, cash, first + [last], |first|).books.units == 0.0
    requires RunTo(strategy, p, cash, first + [last], |first|).pending
    ensures var cut := Batches(strategy, p, Fresh(cash), [first, [last]]);
            && cut.Ok?
            && |cut.value.account.books.trades| ==
                 |RunTo(strategy, p, cash, first + [last], |first|).books.trades| + 1
  {
    FirstBatch(strategy, p, cash, first, [last]);
    var one := Batch(strategy, p, Fresh(cash), first).value;
    SecondBatch(strategy, p, one.account, last);
    TwoBatches(strategy, p, Fresh(cash), first, [last]);
  }

  /** At a 100% fee a whipsaw trades three times in one batch and four times in two. */
  lemma {:induction false} FullFeeBreaksBatching(strategy: Strategy, p: Params, cash: real, bars: seq<Bar>, t: nat)
    requires ValidParams(p) && p.fee == 1.0 && Whipsaw(strategy, bars, t)
    ensures var whole := Batch(strategy, p, Fresh(cash), bars);
            var cut := Batches(strategy, p, Fresh(cash), [bars[..t + 4], [bars[t + 4]]]);
            && whole.Ok? && |whole.value.account.books.trades| == 3
            && cut.Ok? && |cut.value.account.books.trades| == 4
  {
    AfterTheSale(strategy, p, cash, bars, t);
    CashDoesNotMatter(strategy, cash, bars);
    SplitBeforeLast(strategy, p, cash, bars, t + 4);
  }

  /** Standing in position with nothing bought: the whole run trades no more, the cut run once more. */
  lemma {:induction false} SplitBeforeLast(strategy: Strategy, p: Params, cash: real, bars: seq<Bar>, n: nat)
    requires ValidParams(p) && 0 < n && |bars| == n + 1 && Accepts(strategy, Fresh(cash), bars)
    requires var s := RunTo(strategy, p, cash, bars, n); s.books.units == 0.0 && s.position && s.pending
    ensures var whole := Batch(strategy, p, Fresh(cash), bars);
            var cut := Batches(strategy, p, Fresh(cash), [bars[..n], [bars[n]]]);
            && whole.Ok? && whole.value.account.books.trades == RunTo(strategy, p, cash, bars, n).books.trades
            && cut.Ok? && |cut.value.account.books.trades| == |RunTo(strategy, p, cash, bars, n).books.trades| + 1
  {
    WholeRun(strategy, p, cash, bars, n);
    assert bars[..n] + [bars[n]] == bars;
    OneMoreTrade(strategy, p, cash, bars[..n], bars[n]);
  }

  lemma CashDoesNotMatter(strategy: Strategy, cash: real, bars: seq<Bar>)
    requires Accepts(strategy, Fresh(0.0), bars)
    ensures Accepts(strategy, Fresh(cash), bars)
  {
  }

  lemma {:induction false} TwoBatches(strategy: Strategy, p: Params, a: Acct, first: seq<Bar>, second: seq<Bar>)
    requires ValidParams(p) && Batch(strategy, p, a, first).Ok?
    requires Batch(strategy, p, Batch(strategy, p, a, first).value.account, second).Ok?
    ensures var one := Batch(strategy, p, a, first).value;
            var two := Batch(strategy, p, one.account, second).value;
            Batches(strategy, p, a, [first, second]) == Ok(Step(two.account, one.equity + two.equity))
  {
    var one := Batch(strategy, p, a, first).value;
    var two := Batch(strategy, p, one.account, second).value;
    assert [first, second][1..] == [second] && [second][1..] == [];
    assert Batches(strategy, p, one.account, [second]) == Ok(Step(two.account, two.equity + []));
    assert two.equity + [] == two.equity;
  }

  // A whipsaw for each strategy

  /** Bars one millisecond apart with the given closes. */
  function BarsWith(closes: Closes): (bars: seq<Bar>)
    requires |closes| < 100
    ensures |bars| == |closes| && ClosesOf(bars) == closes
  {
    var bars := seq(|closes|, i requires 0 <= i < |closes| => Bar(i, 1, closes[i]));
    assert ClosesOf(bars) == closes;
    bars
  }

  lemma {:induction false} BarsWithAccepted(strategy: Strategy, closes: Closes)
    requires 0 < |closes| < 100 && forall i :: 0 <= i < |closes| ==> 0 < closes[i] <= 3000
    ensures Accepts(strategy, Fresh(0.0), BarsWith(closes))
  {
    BarsWithInOrder(closes);
    SmallClosesPass(strategy, closes);
    assert [] + closes == closes && Last([], 60) == [];
  }

  lemma BarsWithInOrder(closes: Closes)
    requires |closes| < 100 && forall i :: 0 <= i < |closes| ==> 0 < closes[i]
    ensures InOrder(None, BarsWith(closes)) && AllTradable(BarsWith(closes))
  {
  }

  lemma {:induction false} SmallClosesPass(strategy: Strategy, closes: Closes)
    requires 0 < |closes| < 100 && forall i :: 0 <= i < |closes| ==> 0 < closes[i] <= 3000
    ensures !Raises(strategy, closes)
  {
    assert MaxOf(closes) in closes;
    MulOrder(MaxOf(closes), 3000, |closes|);
  }

  function MomentumClose(i: nat): i64 {
    if i == 60 || i >= 62 then 2 else 1
  }

  lemma {:induction false} MomentumWhipsaw() returns (bars: seq<Bar>)
    ensures Whipsaw(Momentum, bars, 60)
  {
    var closes := seq(65, i requires 0 <= i < 65 => MomentumClose(i));
    BarsWithAccepted(Momentum, closes);
    bars := BarsWith(closes);
  }

  function SmaClose(i: nat): i64 {
    if i == 60 || i == 62 then 3 else if i == 61 then 1 else 2
  }

  /** The sum of the first `i` closes, as `2 * i` plus how far they have moved. */
  lemma {:induction false} SmaSums(closes: Closes, i: nat)
    requires i <= |closes| && forall k :: 0 <= k < |closes| ==> closes[k] == SmaClose(k)
    ensures Sum(closes[..i]) == 2 * i + if i == 61 || i >= 63 then 1 else 0
  {
    if i > 0 {
      SmaSums(closes, i - 1);
      assert closes[..i][..i - 1] == closes[..i - 1];
    }
  }

  lemma {:induction false} SmaTargetAt(closes: Closes, i: nat)
    requires 59 <= i < |closes| <= 65 && forall k :: 0 <= k < |closes| ==> closes[k] == SmaClose(k)
    ensures SmaTarget(closes, i) <==> i == 60 || i >= 62
  {
    SmaSums(closes, i + 1);
    SmaSums(closes, i - 19);
    SmaSums(closes, i - 59);
    SumSlice(closes, i - 19, i + 1);
    SumSlice(closes, i - 59, i + 1);
    MeansCompare(Window(closes, i, 20), Window(closes, i, 60));
  }

  lemma {:induction false} SmaWhipsaw() returns (bars: seq<Bar>)
    ensures Whipsaw(Sma, bars, 60)
  {
    var closes := seq(65, i requires 0 <= i < 65 => SmaClose(i));
    BarsWithAccepted(Sma, closes);
    bars := BarsWith(closes);
    forall i | 59 <= i < 65
      ensures SmaTarget(closes, i) <==> i == 60 || i >= 62
    {
      SmaTargetAt(closes, i);
    }
  }

  /** Flat, a fall, a rise ten times as large, and a fall ten times as large again. */
  function RsiClose(i: nat): i64 {
    if i < 14 then 2000 else if i == 14 then 1986 else if i == 15 then 2126 else 726
  }

  lemma {:induction false} RsiFlatPart(closes: Closes, i: nat)
    requires 0 < i <= 14 <= |closes| && forall k :: 0 <= k < |closes| ==> closes[k] == RsiClose(k)
    ensures RsiRun(closes[..i]) == RsiState(Some(2000), i - 1, 0.0, 0.0, false)
  {
    FlatHistoryIsNeutral(closes[..i]);
    RsiProgress(closes[..i]);
  }

  lemma {:induction false} RsiSwings(closes: Closes)
    requires |closes| == 19 && forall k :: 0 <= k < |closes| ==> closes[k] == RsiClose(k)
    ensures RsiRun(closes[..15]).target && !RsiRun(closes[..16]).target
    ensures RsiRun(closes[..17]).target && RsiRun(closes[..18]).target
  {
    RsiFlatPart(closes, 14);
    RsiNext(closes, 14);
    FirstFall();
    RsiNext(closes, 15);
    ThenRise();
    RsiNext(closes, 16);
    ThenFallAgain();
    RsiNext(closes, 17);
  }

  lemma FirstFall()
    ensures RsiStep(RsiState(Some(2000), 13, 0.0, 0.0, false), 1986) == RsiState(Some(1986), 14, 0.0, 1.0, true)
  {
  }

  lemma ThenRise()
    ensures RsiStep(RsiState(Some(1986), 14, 0.0, 1.0, true), 2126)
         == RsiState(Some(2126), 15, 10.0, 13.0 / 14.0, false)
  {
  }

  lemma ThenFallAgain()
    ensures var fallen := RsiStep(RsiState(Some(2126), 15, 10.0, 13.0 / 14.0, false), 726);
            fallen.target && fallen.previous == Some(726) && RsiStep(fallen, 726).target
  {
  }

  lemma {:induction false} RsiWhipsaw() returns (bars: seq<Bar>)
    ensures Whipsaw(Rsi, bars, 14)
  {
    var closes := seq(19, i requires 0 <= i < 19 => RsiClose(i));
    BarsWithAccepted(Rsi, closes);
    bars := BarsWith(closes);
    forall i | 0 <= i < 14
      ensures !Target(Rsi, closes, i)
    {
      RsiFlatPart(closes, i + 1);
    }
    RsiSwings(closes);
  }

  /** Every strategy has bars that make it whipsaw. */
  lemma {:induction false} AnyWhipsaw(strategy: Strategy) returns (bars: seq<Bar>, t: nat)
    ensures Whipsaw(strategy, bars, t)
  {
    match strategy
    case Rsi =>
      bars := RsiWhipsaw();
      t := 14;
    case Sma =>
      bars := SmaWhipsaw();
      t := 60;
    case Momentum =>
      bars := MomentumWhipsaw();
      t := 60;
  }

  /** Batches give what one batch of the same bars gives, if that is accepted. */
  ghost predicate Faithful(strategy: Strategy, p: Params, cash: real, cuts: seq<seq<Bar>>)
    requires ValidParams(p)
  {
    var whole := Batch(strategy, p, Fresh(cash), Concat(cuts));
    whole.Ok? ==> Batches(strategy, p, Fresh(cash), cuts) == whole
  }

  lemma {:induction false} UnfaithfulCutting(strategy: Strategy, p: Params, cash: real) returns (cuts: seq<seq<Bar>>)
    requires ValidParams(p) && p.fee == 1.0
    ensures !Faithful(strategy, p, cash, cuts)
  {
    var bars, t := AnyWhipsaw(strategy);
    FullFeeBreaksBatching(strategy, p, cash, bars, t);
    cuts := [bars[..t + 4], [bars[t + 4]]];
    ConcatOfTwo(bars[..t + 4], [bars[t + 4]]);
    assert bars[..t + 4] + [bars[t + 4]] == bars;
  }

  /** For each strategy, batching is faithful for every opening cash and cutting exactly when the fee is not 100%. */
  lemma {:induction false} FaithfulExactlyOffFullFee(strategy: Strategy, p: Params)
    requires ValidParams(p)
    ensures p.fee != 1.0 <==>
              forall cash: real, cuts: seq<seq<Bar>> :: cash > 0.0 ==> Faithful(strategy, p, cash, cuts)
  {
    if p.fee != 1.0 {
      forall cash: real, cuts: seq<seq<Bar>> | cash > 0.0
        ensures Faithful(strategy, p, cash, cuts)
      {
        if Batch(strategy, p, Fresh(cash), Concat(cuts)).Ok? {
          CuttingChangesNothing(strategy, p, Fresh(cash), false, cuts);
        }
      }
    } else {
      var cuts := UnfaithfulCutting(strategy, p, 1.0);
    }
  }

  lemma ConcatOfTwo(a: seq<Bar>, b: seq<Bar>)
    ensures Concat([a, b]) == a + b
  {
    assert [a, b][1..] == [b] && [b][1..] == [];
    assert Concat([b]) == b + Concat<Bar>([]);
  }

  // The SMA overflow guard

  /** The largest price the product guard allows. */
  const PRICE: i64 := 7686143364045646

  lemma PriceIsLargest()
    ensures PRICE == MAX / 1200 && PRICE * 1200 <= MAX < PRICE * 1201
  {
  }

  /** `n` bars at that price. */
  function Expensive(from: nat, n: nat): (bars: seq<Bar>)
    requires from + n <= 2000
    ensures |bars| == n
  {
    seq(n, i requires 0 <= i < n => Bar(from + i, 1, PRICE))
  }

  lemma {:induction false} ExpensiveCloses(from: nat, n: nat, tail: Closes)
    requires from + n <= 2000 && n > 0
    requires forall i :: 0 <= i < |tail| ==> tail[i] == PRICE
    ensures Raises(Sma, tail + ClosesOf(Expensive(from, n))) <==> |tail| + n > 1200
  {
    var joined := tail + ClosesOf(Expensive(from, n));
    assert forall i :: 0 <= i < |joined| ==> joined[i] == PRICE;
    assert MaxOf(joined) in joined;
    assert MaxOf(joined) == PRICE;
    PriceIsLargest();
    assert MaxOf(joined) * |joined| == PRICE * |joined|;
  }

  lemma {:induction false} FirstHalfAccepted(cash: real, n: nat)
    requires 0 < n <= 1000
    ensures Accepts(Sma, Fresh(cash), Expensive(0, n))
  {
    ExpensiveCloses(0, n, []);
  }

  lemma {:induction false} SecondHalfAccepted(a: Acct, n: nat)
    requires 0 < n <= 1000
    requires a.lastTs == Some(n - 1) && a.closes == ClosesOf(Expensive(0, n))
    ensures Accepts(Sma, a, Expensive(n, n))
  {
    var tail := Last(a.closes, 60);
    assert forall i :: 0 <= i < |tail| ==> tail[i] == PRICE;
    ExpensiveCloses(n, n, tail);
  }

  lemma {:induction false} RefusedWhole(p: Params, cash: real, n: nat)
    requires ValidParams(p) && 600 < n <= 1000
    ensures Batch(Sma, p, Fresh(cash), Expensive(0, 2 * n)).Err?
  {
    ExpensiveCloses(0, 2 * n, []);
  }

  lemma {:induction false} AcceptedInHalves(p: Params, cash: real, n: nat)
    requires ValidParams(p) && 0 < n <= 1000
    ensures Batches(Sma, p, Fresh(cash), [Expensive(0, n), Expensive(n, n)]).Ok?
  {
    FirstHalfAccepted(cash, n);
    var a := Batch(Sma, p, Fresh(cash), Expensive(0, n)).value.account;
    assert a.closes == ClosesOf(Expensive(0, n));
    SecondHalfAccepted(a, n);
    TwoBatches(Sma, p, Fresh(cash), Expensive(0, n), Expensive(n, n));
  }

  /** The same bars, more than 1200 of them, are refused in one batch and accepted in two halves. */
  lemma {:induction false} GuardDependsOnBatching(p: Params, cash: real, n: nat)
    requires ValidParams(p) && 600 < n <= 1000
    ensures Expensive(0, 2 * n) == Expensive(0, n) + Expensive(n, n)
    ensures Batch(Sma, p, Fresh(cash), Expensive(0, 2 * n)).Err?
    ensures Batches(Sma, p, Fresh(cash), [Expensive(0, n), Expensive(n, n)]).Ok?
  {
    ExpensiveSplits(n);
    RefusedWhole(p, cash, n);
    AcceptedInHalves(p, cash, n);
  }

  lemma ExpensiveSplits(n: nat)
    requires n <= 1000
    ensures Expensive(0, 2 * n) == Expensive(0, n) + Expensive(n, n)
  {
  }
}
