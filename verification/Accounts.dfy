/** One symbol's account: vectorised batches against the bar-by-bar reference. */
module Accounts {
  import opened Wrappers
  import opened Bytes
  import opened Signals
  import opened Simulator

  // Specification of one batch

  datatype Acct = Acct(books: Books, pending: bool, lastTs: Option<i64>, lastClose: Option<real>, closes: Closes)

  function ClosesOf(bars: seq<Bar>): (closes: Closes)
    ensures |closes| == |bars|
    ensures forall i {:trigger closes[i]} :: 0 <= i < |bars| ==> closes[i] == bars[i].close
  {
    seq(|bars|, i requires 0 <= i < |bars| => bars[i].close)
  }

  ghost predicate InOrder(lastTs: Option<i64>, bars: seq<Bar>) {
    && (forall i, j :: 0 <= i < j < |bars| ==> bars[i].ts < bars[j].ts)
    && (bars != [] && lastTs.Some? ==> lastTs.value < bars[0].ts)
  }

  ghost predicate AllTradable(bars: seq<Bar>) {
    forall i :: 0 <= i < |bars| ==> Tradable(bars[i])
  }

  /** Starting a batch, the code takes the position from whether any units are held. */
  function Begin(a: Acct): Sim {
    Sim(a.books, a.books.units != 0.0, a.pending, [])
  }

  ghost predicate Accepts(strategy: Strategy, a: Acct, bars: seq<Bar>) {
    && InOrder(a.lastTs, bars)
    && AllTradable(bars)
    && !Raises(strategy, Last(a.closes, 60) + ClosesOf(bars))
  }

  /** The reference run of a batch whose targets are those of the whole close history. */
  ghost function Simulated(strategy: Strategy, p: Params, a: Acct, bars: seq<Bar>): Sim
    requires ValidParams(p) && AllTradable(bars)
  {
    SimTo(p, Begin(a), bars, TargetsFrom(strategy, a.closes + ClosesOf(bars), |a.closes|), |bars|)
  }

  ghost function Advanced(p: Params, a: Acct, bars: seq<Bar>, s: Sim): Acct
    requires ValidParams(p) && bars != []
  {
    var last := bars[|bars| - 1];
    Acct(s.books, s.pending, Some(last.ts), Some(Quote(p, last.close)), a.closes + ClosesOf(bars))
  }

  datatype Step = Step(account: Acct, equity: seq<real>)

  /** What one call of `Account.consume` does, for every fee. */
  ghost function Batch(strategy: Strategy, p: Params, a: Acct, bars: seq<Bar>): Result<Step>
    requires ValidParams(p)
  {
    if bars == [] then Ok(Step(a, []))
    else if !Accepts(strategy, a, bars) then Err(InvalidInput)
    else
      var s := Simulated(strategy, p, a, bars);
      Ok(Step(Advanced(p, a, bars, s), s.equity))
  }

  // Where trades happen

  function PositionsOf(pending: bool, desired: seq<bool>): (ps: seq<bool>)
    requires desired != []
    ensures |ps| == |desired|
  {
    [pending] + desired[..|desired| - 1]
  }

  function ChangesOf(held: bool, positions: seq<bool>): (cs: seq<bool>)
    ensures |cs| == |positions|
  {
    seq(|positions|, i requires 0 <= i < |positions| => positions[i] != if i == 0 then held else positions[i - 1])
  }

  lemma {:induction false} FlagsAt(p: Params, s: Sim, bars: seq<Bar>, desired: seq<bool>, i: nat)
    requires ValidParams(p) && AllTradable(bars) && |bars| == |desired| && i < |bars|
    ensures var before, positions := SimTo(p, s, bars, desired, i), PositionsOf(s.pending, desired);
            && before.pending == positions[i]
            && before.position == (if i == 0 then s.position else positions[i - 1])
            && (before.pending != before.position) == ChangesOf(s.position, positions)[i]
  {
    if i > 0 {
      FlagsAt(p, s, bars, desired, i - 1);
    }
  }

  lemma {:induction false} NoTradeBetween(p: Params, s: Sim, bars: seq<Bar>, desired: seq<bool>, from: nat, until: nat)
    requires ValidParams(p) && AllTradable(bars) && |bars| == |desired| && from <= until <= |bars|
    requires bars != []
    requires forall i :: from <= i < until ==> !ChangesOf(s.position, PositionsOf(s.pending, desired))[i]
    ensures SimTo(p, s, bars, desired, until).books == SimTo(p, s, bars, desired, from).books
    decreases until
  {
    if from < until {
      NoTradeBetween(p, s, bars, desired, from, until - 1);
      FlagsAt(p, s, bars, desired, until - 1);
    }
  }

  lemma {:induction false} EquityAt(p: Params, s: Sim, bars: seq<Bar>, desired: seq<bool>, i: nat, j: nat)
    requires ValidParams(p) && AllTradable(bars) && j < i <= |bars| == |desired|
    requires s.equity == []
    ensures SimTo(p, s, bars, desired, i).equity[j] ==
              Mark(SimTo(p, s, bars, desired, j + 1).books, Quote(p, bars[j].close))
  {
    if j < i - 1 {
      EquityAt(p, s, bars, desired, i - 1, j);
    }
  }

  // Event lists

  /** First position after the `k`-th event's predecessor, and the `k`-th event itself or the end. */
  function SegmentStart(events: seq<nat>, k: nat): nat
    requires k <= |events|
  {
    if k == 0 then 0 else events[k - 1] + 1
  }

  function SegmentEnd(events: seq<nat>, k: nat, n: nat): nat
    requires k <= |events|
  {
    if k < |events| then events[k] else n
  }

  /** The events are the changes, in order. */
  ghost predicate ListsChanges(events: seq<nat>, changes: seq<bool>) {
    && (forall k :: 0 <= k < |events| ==> events[k] < |changes| && changes[events[k]])
    && (forall k :: 0 <= k <= |events| ==> SegmentStart(events, k) <= SegmentEnd(events, k, |changes|))
    && (forall k, i :: 0 <= k <= |events| && SegmentStart(events, k) <= i < SegmentEnd(events, k, |changes|) ==>
          !changes[i])
  }

  /** `np.flatnonzero`. */
  method FlatNonzero(changes: seq<bool>) returns (events: seq<nat>)
    ensures ListsChanges(events, changes)
  {
    events := [];
    for n := 0 to |changes|
      invariant ListsChanges(events, changes[..n])
    {
      ghost var before := events;
      if changes[n] {
        events := events + [n];
        ExtendEvents(before, changes, n);
      } else {
        ExtendQuiet(before, changes, n);
      }
    }
    assert changes[..|changes|] == changes;
  }

  lemma ExtendEvents(events: seq<nat>, changes: seq<bool>, n: nat)
    requires n < |changes| && ListsChanges(events, changes[..n]) && changes[n]
    ensures ListsChanges(events + [n], changes[..n + 1])
  {
    var more, longer := events + [n], changes[..n + 1];
    forall k | 0 <= k <= |more|
      ensures SegmentStart(more, k) <= SegmentEnd(more, k, n + 1)
      ensures forall i :: SegmentStart(more, k) <= i < SegmentEnd(more, k, n + 1) ==> !longer[i]
    {
      if k <= |events| {
        assert SegmentStart(more, k) == SegmentStart(events, k);
        assert SegmentEnd(more, k, n + 1) == SegmentEnd(events, k, n);
      }
    }
  }

  lemma ExtendQuiet(events: seq<nat>, changes: seq<bool>, n: nat)
    requires n < |changes| && ListsChanges(events, changes[..n]) && !changes[n]
    ensures ListsChanges(events, changes[..n + 1])
  {
    var longer := changes[..n + 1];
    forall k | 0 <= k <= |events|
      ensures SegmentStart(events, k) <= SegmentEnd(events, k, n + 1)
      ensures forall i :: SegmentStart(events, k) <= i < SegmentEnd(events, k, n + 1) ==> !longer[i]
    {
      assert k < |events| ==> SegmentEnd(events, k, n + 1) == SegmentEnd(events, k, n);
    }
  }

  // The account object

  class Account {
    const params: Params
    const signal: Signal
    var cash: real
    var units: real
    var pending: bool
    var lastTs: Option<i64>
    var lastClose: Option<real>
    var trades: seq<Fill>

    ghost predicate Valid()
      reads this, signal
    {
      ValidParams(params) && signal.Valid() && AllPositive(signal.history)
    }

    ghost function State(): Acct
      reads this, signal
    {
      Acct(Books(cash, units, trades), pending, lastTs, lastClose, signal.history)
    }

    constructor (strategy: Strategy, cash: real, params: Params)
      requires ValidParams(params)
      ensures Valid() && this.params == params && signal.strategy == strategy && fresh(signal)
      ensures State() == Acct(Books(cash, 0.0, []), false, None, None, [])
    {
      this.params, this.cash, units, pending := params, cash, 0.0, false;
      lastTs, lastClose, trades := None, None, [];
      signal := new Signal(strategy);
    }

    /** The updates of one fill, in the order the fields change, amount to the specified trade. */
    method FillOrder(ts: i64, quoted: real, buy: bool)
      requires ValidParams(params) && quoted > 0.0
      modifies this`cash, this`units, this`trades
      ensures Books(cash, units, trades) == Trade(params, old(Books(cash, units, trades)), ts, quoted, buy)
    {
      var price, fee, quantity := quoted, 0.0, 0.0;
      if buy {
        price := price * (1.0 + params.slippage);
        assert price == ExecutionPrice(params, quoted, true);
        CostIsPositive(params, quoted);
        assert price * (1.0 + params.fee) == UnitCost(params, price);
        units := cash / (price * (1.0 + params.fee));
        fee := units * price * params.fee;
        assert fee == FeeOn(params, units, price);
        cash := 0.0;
        quantity := units;
      } else {
        price := price * (1.0 - params.slippage);
        assert price == ExecutionPrice(params, quoted, false);
        quantity := units;
        fee := units * price * params.fee;
        assert fee == FeeOn(params, units, price);
        cash := units * price - fee;
        units := 0.0;
      }
      trades := trades + [Fill(params.symbol, ts, buy, price, quantity, units, fee, cash)];
    }

    /** Marks bars `begin..end` with the current books, all at once. */
    method MarkSegment(equity: array<real>, bars: seq<Bar>, begin: nat, end: nat)
      requires ValidParams(params) && begin <= end <= |bars| == equity.Length
      modifies equity
      ensures forall j :: 0 <= j < equity.Length ==>
                equity[j] ==
                  if begin <= j < end then Mark(Books(cash, units, trades), Quote(params, bars[j].close))
                  else old(equity[j])
    {
      for j := begin to end
        invariant forall i :: 0 <= i < equity.Length ==>
                    equity[i] ==
                      if begin <= i < j then Mark(Books(cash, units, trades), Quote(params, bars[i].close))
                      else old(equity[i])
      {
        equity[j] := cash + units * Quote(params, bars[j].close);
      }
    }

    /** One event: mark the bars since the last one, then trade at the event's open. */
    method RunEvent(
        marks: array<real>, bars: seq<Bar>, desired: seq<bool>, positions: seq<bool>, events: seq<nat>, k: nat,
        begin: nat, ghost s: Sim)
      requires ValidParams(params) && AllTradable(bars) && bars != [] && |bars| == |desired| == marks.Length
      requires s.equity == []
      requires positions == PositionsOf(s.pending, desired) && ListsChanges(events, ChangesOf(s.position, positions))
      requires k < |events| && begin == SegmentBegin(events, k)
      requires Books(cash, units, trades) == BooksAt(params, s, bars, desired, SegmentStart(events, k))
      requires forall j :: 0 <= j < begin ==> marks[j] == SimTo(params, s, bars, desired, |bars|).equity[j]
      modifies marks, this`cash, this`units, this`trades
      ensures Books(cash, units, trades) == BooksAt(params, s, bars, desired, events[k] + 1)
      ensures forall j :: 0 <= j < events[k] ==> marks[j] == SimTo(params, s, bars, desired, |bars|).equity[j]
    {
      var index := events[k];
      SegmentMarks(params, s, bars, desired, events, k);
      MarkSegment(marks, bars, begin, index);
      TradeAtEvent(params, s, bars, desired, events, k);
      FillOrder(bars[index].ts, Quote(params, bars[index].open), positions[index]);
    }

    /** Jumping from change to change gives the books and equity of the bar-by-bar run. */
    method RunEvents(bars: seq<Bar>, desired: seq<bool>, ghost s: Sim) returns (equity: seq<real>)
      requires ValidParams(params) && AllTradable(bars) && bars != [] && |bars| == |desired|
      requires s == Sim(Books(cash, units, trades), units != 0.0, pending, [])
      modifies this`cash, this`units, this`trades
      ensures Books(cash, units, trades) == SimTo(params, s, bars, desired, |bars|).books
      ensures equity == SimTo(params, s, bars, desired, |bars|).equity
    {
      var positions := PositionsOf(pending, desired);
      var events := FlatNonzero(ChangesOf(units != 0.0, positions));
      var marks := new real[|bars|](i => 0.0);
      MarkEvents(marks, bars, desired, positions, events, s);
      equity := marks[..];
    }

    /** The loop over the events, and the bars after the last one. */
    method MarkEvents(
        marks: array<real>, bars: seq<Bar>, desired: seq<bool>, positions: seq<bool>, events: seq<nat>, ghost s: Sim)
      requires ValidParams(params) && AllTradable(bars) && bars != [] && |bars| == |desired| == marks.Length
      requires s.equity == [] && s.books == Books(cash, units, trades)
      requires positions == PositionsOf(s.pending, desired) && ListsChanges(events, ChangesOf(s.position, positions))
      modifies marks, this`cash, this`units, this`trades
      ensures Books(cash, units, trades) == SimTo(params, s, bars, desired, |bars|).books
      ensures marks[..] == SimTo(params, s, bars, desired, |bars|).equity
    {
      var begin := 0;
      for k := 0 to |events|
        invariant begin == SegmentBegin(events, k)
        invariant Books(cash, units, trades) == BooksAt(params, s, bars, desired, SegmentStart(events, k))
        invariant forall j :: 0 <= j < begin ==> marks[j] == SimTo(params, s, bars, desired, |bars|).equity[j]
      {
        RunEvent(marks, bars, desired, positions, events, k, begin, s);
        begin := events[k];
      }
      MarkRest(marks, bars, desired, events, begin, s);
    }

    /** After the last event the books stand still to the end of the batch. */
    method MarkRest(marks: array<real>, bars: seq<Bar>, desired: seq<bool>, events: seq<nat>, begin: nat, ghost s: Sim)
      requires ValidParams(params) && AllTradable(bars) && bars != [] && |bars| == |desired| == marks.Length
      requires s.equity == []
      requires ListsChanges(events, ChangesOf(s.position, PositionsOf(s.pending, desired)))
      requires begin == SegmentBegin(events, |events|)
      requires Books(cash, units, trades) == BooksAt(params, s, bars, desired, SegmentStart(events, |events|))
      requires forall j :: 0 <= j < begin ==> marks[j] == SimTo(params, s, bars, desired, |bars|).equity[j]
      modifies marks
      ensures Books(cash, units, trades) == SimTo(params, s, bars, desired, |bars|).books
      ensures marks[..] == SimTo(params, s, bars, desired, |bars|).equity
    {
      SegmentMarks(params, s, bars, desired, events, |events|);
      MarkSegment(marks, bars, begin, |bars|);
    }

    /** Comparing neighbours is enough to order the whole batch. */
    method CheckBars(bars: seq<Bar>) returns (ok: bool)
      requires bars != []
      ensures ok <==> InOrder(lastTs, bars) && AllTradable(bars)
    {
      var ordered := true;
      for i := 1 to |bars|
        invariant ordered <==> forall k, j :: 0 <= k < j < i ==> bars[k].ts < bars[j].ts
      {
        if bars[i].ts <= bars[i - 1].ts {
          ordered := false;
        }
      }
      if !ordered || (lastTs.Some? && bars[0].ts <= lastTs.value) {
        return false;
      }
      ok := forall i :: 0 <= i < |bars| ==> Tradable(bars[i]);
    }

    /** The vectorised batch is the reference batch, rejected in exactly the same cases. */
    method Consume(bars: seq<Bar>) returns (r: Result<seq<real>>)
      requires Valid()
      modifies this, signal
      ensures Valid()
      ensures var step := Batch(signal.strategy, params, old(State()), bars);
              && r.Ok? == step.Ok?
              && (r.Ok? ==> State() == step.value.account && r.value == step.value.equity)
      ensures r.Err? ==> State() == old(State())
    {
      var n := |bars|;
      if n == 0 {
        return Ok([]);
      }
      var ok := CheckBars(bars);
      if !ok {
        return Err(InvalidInput);
      }
      ghost var a := State();
      var desired :- signal.Consume(ClosesOf(bars));
      PositiveCloses(a.closes, bars);
      var equity := RunEvents(bars, desired, Begin(a));
      FinalPending(params, Begin(a), bars, desired);
      pending := desired[n - 1];
      lastTs := Some(bars[n - 1].ts);
      lastClose := Some(Quote(params, bars[n - 1].close));
      return Ok(equity);
    }
  }

  lemma PositiveCloses(closes: Closes, bars: seq<Bar>)
    requires AllPositive(closes) && AllTradable(bars)
    ensures AllPositive(closes + ClosesOf(bars))
  {
    forall i | 0 <= i < |bars|
      ensures ClosesOf(bars)[i] > 0
    {
      assert Tradable(bars[i]);
    }
  }

  ghost function BooksAt(p: Params, s: Sim, bars: seq<Bar>, desired: seq<bool>, i: nat): Books
    requires ValidParams(p) && AllTradable(bars) && i <= |bars| == |desired|
  {
    SimTo(p, s, bars, desired, i).books
  }

  function SegmentBegin(events: seq<nat>, k: nat): nat
    requires k <= |events|
  {
    if k == 0 then 0 else events[k - 1]
  }

  /** Until the next event the books stand still, so one formula marks the whole segment. */
  lemma {:induction false} SegmentMarks(p: Params, s: Sim, bars: seq<Bar>, desired: seq<bool>, events: seq<nat>, k: nat)
    requires ValidParams(p) && AllTradable(bars) && |bars| == |desired| && bars != [] && s.equity == []
    requires ListsChanges(events, ChangesOf(s.position, PositionsOf(s.pending, desired)))
    requires k <= |events|
    ensures SegmentBegin(events, k) <= SegmentStart(events, k) <= SegmentEnd(events, k, |bars|) <= |bars|
    ensures SegmentBegin(events, k) <= SegmentEnd(events, k, |bars|)
    ensures BooksAt(p, s, bars, desired, SegmentEnd(events, k, |bars|)) ==
              BooksAt(p, s, bars, desired, SegmentStart(events, k))
    ensures var curve := SimTo(p, s, bars, desired, |bars|).equity;
            var books := BooksAt(p, s, bars, desired, SegmentStart(events, k));
            forall j {:trigger bars[j]} :: SegmentBegin(events, k) <= j < SegmentEnd(events, k, |bars|) ==>
              curve[j] == Mark(books, Quote(p, bars[j].close))
  {
    var from, until := SegmentStart(events, k), SegmentEnd(events, k, |bars|);
    NoTradeBetween(p, s, bars, desired, from, until);
    forall j | SegmentBegin(events, k) <= j < until
      ensures SimTo(p, s, bars, desired, |bars|).equity[j] ==
                Mark(BooksAt(p, s, bars, desired, from), Quote(p, bars[j].close))
    {
      EquityAt(p, s, bars, desired, |bars|, j);
      NoTradeBetween(p, s, bars, desired, from, j + 1);
    }
  }

  lemma {:induction false} TradeAtEvent(p: Params, s: Sim, bars: seq<Bar>, desired: seq<bool>, events: seq<nat>, k: nat)
    requires ValidParams(p) && AllTradable(bars) && |bars| == |desired| && bars != [] && s.equity == []
    requires ListsChanges(events, ChangesOf(s.position, PositionsOf(s.pending, desired)))
    requires k < |events|
    ensures events[k] < |bars| && Quote(p, bars[events[k]].open) > 0.0
    ensures BooksAt(p, s, bars, desired, events[k] + 1)
         == Trade(p, BooksAt(p, s, bars, desired, SegmentStart(events, k)), bars[events[k]].ts,
                  Quote(p, bars[events[k]].open), PositionsOf(s.pending, desired)[events[k]])
  {
    var i := events[k];
    NoTradeBetween(p, s, bars, desired, SegmentStart(events, k), i);
    FlagsAt(p, s, bars, desired, i);
    QuotePositive(p, bars[i].open);
    TradesWhenChanged(p, SimTo(p, s, bars, desired, i), bars[i], desired[i]);
  }

  lemma QuotePositive(p: Params, price: i64)
    requires ValidParams(p) && price > 0
    ensures Quote(p, price) > 0.0
  {
  }

  lemma TradesWhenChanged(p: Params, s: Sim, bar: Bar, desired: bool)
    requires ValidParams(p) && Tradable(bar) && s.pending != s.position
    ensures Quote(p, bar.open) > 0.0
    ensures SimBar(p, s, bar, desired).books == Trade(p, s.books, bar.ts, Quote(p, bar.open), s.pending)
  {
  }

  lemma FinalPending(p: Params, s: Sim, bars: seq<Bar>, desired: seq<bool>)
    requires ValidParams(p) && AllTradable(bars) && |bars| == |desired| && bars != []
    ensures SimTo(p, s, bars, desired, |bars|).pending == desired[|bars| - 1]
  {
  }

  // What a batch says about itself

  /** Which batches are accepted, in full: in order, behind the last one, all prices positive, no guard raised. */
  lemma {:induction false} AcceptedExactly(strategy: Strategy, p: Params, a: Acct, bars: seq<Bar>)
    requires ValidParams(p)
    ensures Batch(strategy, p, a, bars).Ok? <==>
              || bars == []
              || ((forall i, j :: 0 <= i < j < |bars| ==> bars[i].ts < bars[j].ts)
                  && (a.lastTs.Some? ==> a.lastTs.value < bars[0].ts)
                  && (forall i :: 0 <= i < |bars| ==> bars[i].open > 0 && bars[i].close > 0)
                  && !Raises(strategy, Last(a.closes, 60) + ClosesOf(bars)))
  {
    if bars != [] && forall i :: 0 <= i < |bars| ==> bars[i].open > 0 && bars[i].close > 0 {
      assert AllTradable(bars);
    }
    if AllTradable(bars) {
      assert forall i :: 0 <= i < |bars| ==> Tradable(bars[i]);
    }
  }

  /** After an accepted batch: one equity point a bar, the last of them cash plus units at the last bar's close. */
  lemma {:induction false} BatchEnds(strategy: Strategy, p: Params, a: Acct, bars: seq<Bar>)
    requires ValidParams(p) && bars != [] && Batch(strategy, p, a, bars).Ok?
    ensures var step, last := Batch(strategy, p, a, bars).value, bars[|bars| - 1];
            var after := step.account;
            && |step.equity| == |bars| && after.lastTs == Some(last.ts) && after.lastClose == Some(Quote(p, last.close))
            && step.equity[|bars| - 1] == Mark(after.books, Quote(p, last.close))
            && after.closes == a.closes + ClosesOf(bars) && a.books.trades <= after.books.trades
  {
    BatchParts(strategy, p, a, bars);
    RunEnds(p, Begin(a), bars, TargetsFrom(strategy, a.closes + ClosesOf(bars), |a.closes|));
  }

  /** The pending target is the strategy's at the last close. */
  lemma {:induction false} PendingIsLastTarget(strategy: Strategy, p: Params, a: Acct, bars: seq<Bar>)
    requires ValidParams(p) && bars != [] && Batch(strategy, p, a, bars).Ok?
    ensures var all := a.closes + ClosesOf(bars);
            Batch(strategy, p, a, bars).value.account.pending == Target(strategy, all, |all| - 1)
  {
    var all := a.closes + ClosesOf(bars);
    BatchParts(strategy, p, a, bars);
    FinalPending(p, Begin(a), bars, TargetsFrom(strategy, all, |a.closes|));
    LastTarget(strategy, all, |a.closes|);
  }

  lemma LastTarget(strategy: Strategy, closes: Closes, from: nat)
    requires from < |closes|
    ensures TargetsFrom(strategy, closes, from)[|closes| - from - 1] == Target(strategy, closes, |closes| - 1)
  {
  }

  lemma {:induction false} BatchParts(strategy: Strategy, p: Params, a: Acct, bars: seq<Bar>)
    requires ValidParams(p) && bars != [] && Batch(strategy, p, a, bars).Ok?
    ensures AllTradable(bars)
    ensures var s := Simulated(strategy, p, a, bars);
            Batch(strategy, p, a, bars).value == Step(Advanced(p, a, bars, s), s.equity)
  {
  }

  lemma {:induction false} RunEnds(p: Params, s: Sim, bars: seq<Bar>, desired: seq<bool>)
    requires ValidParams(p) && AllTradable(bars) && bars != [] && |bars| == |desired| && s.equity == []
    ensures var end, n := SimTo(p, s, bars, desired, |bars|), |bars|;
            && |end.equity| == n && s.books.trades <= end.books.trades
            && end.equity[n - 1] == Mark(end.books, Quote(p, bars[n - 1].close))
  {
    EquityAt(p, s, bars, desired, |bars|, |bars| - 1);
    TradesGrow(p, s, bars, desired, |bars|);
  }

  lemma {:induction false} TradesGrow(p: Params, s: Sim, bars: seq<Bar>, desired: seq<bool>, i: nat)
    requires ValidParams(p) && AllTradable(bars) && i <= |bars| == |desired|
    ensures s.books.trades <= SimTo(p, s, bars, desired, i).books.trades
  {
    if i > 0 {
      TradesGrow(p, s, bars, desired, i - 1);
    }
  }

  /** A fill at this bar's open, adverse by the slippage, on the side the target asks for. */
  ghost predicate FillsAt(p: Params, f: Fill, bar: Bar, target: bool) {
    && f.ts == bar.ts && f.buy == target && f.symbol == p.symbol
    && f.price * p.scale == bar.open as real * (if target then 1.0 + p.slippage else 1.0 - p.slippage)
  }

  lemma OpenPrice(p: Params, price: i64, buy: bool)
    requires ValidParams(p)
    ensures ExecutionPrice(p, Quote(p, price), buy) * p.scale ==
              price as real * (if buy then 1.0 + p.slippage else 1.0 - p.slippage)
  {
    var quoted, factor := Quote(p, price), if buy then 1.0 + p.slippage else 1.0 - p.slippage;
    QuoteScales(p, price);
    assert quoted * factor * p.scale == quoted * p.scale * factor;
  }

  lemma {:induction false} TradeFills(p: Params, b: Books, bar: Bar, target: bool)
    requires ValidParams(p) && Tradable(bar) && Quote(p, bar.open) > 0.0
    ensures var after := Trade(p, b, bar.ts, Quote(p, bar.open), target);
            && |after.trades| == |b.trades| + 1 && after.trades[..|b.trades|] == b.trades
            && FillsAt(p, after.trades[|b.trades|], bar, target)
  {
    OpenPrice(p, bar.open, target);
  }

  /** The target a bar may execute is the one decided at the close before it. */
  ghost predicate FillFollows(p: Params, pending: bool, bars: seq<Bar>, desired: seq<bool>, f: Fill, i: nat)
    requires |bars| == |desired|
  {
    i < |bars| && FillsAt(p, f, bars[i], if i == 0 then pending else desired[i - 1])
  }

  ghost predicate Followed(p: Params, pending: bool, bars: seq<Bar>, desired: seq<bool>, f: Fill)
    requires |bars| == |desired|
  {
    exists i: nat :: FillFollows(p, pending, bars, desired, f, i)
  }

  lemma {:induction false} RunFollows(p: Params, s: Sim, bars: seq<Bar>, desired: seq<bool>, i: nat)
    requires ValidParams(p) && AllTradable(bars) && i <= |bars| == |desired|
    ensures var trades := SimTo(p, s, bars, desired, i).books.trades;
            && |s.books.trades| <= |trades|
            && forall k :: |s.books.trades| <= k < |trades| ==> Followed(p, s.pending, bars, desired, trades[k])
  {
    if i > 0 {
      RunFollows(p, s, bars, desired, i - 1);
      var before := SimTo(p, s, bars, desired, i - 1);
      FlagsAt(p, s, bars, desired, i - 1);
      QuotePositive(p, bars[i - 1].open);
      if before.pending != before.position {
        TradeFills(p, before.books, bars[i - 1], before.pending);
        var f := SimTo(p, s, bars, desired, i).books.trades[|before.books.trades|];
        assert FillFollows(p, s.pending, bars, desired, f, i - 1);
      }
    }
  }

  /** Every new fill of a batch executes, at some bar's open, the target decided at the close before that bar. */
  lemma {:induction false} FillsFollowTargets(strategy: Strategy, p: Params, a: Acct, bars: seq<Bar>)
    requires ValidParams(p) && bars != [] && Batch(strategy, p, a, bars).Ok?
    ensures var trades := Batch(strategy, p, a, bars).value.account.books.trades;
            var desired := TargetsFrom(strategy, a.closes + ClosesOf(bars), |a.closes|);
            && |a.books.trades| <= |trades|
            && forall k :: |a.books.trades| <= k < |trades| ==> Followed(p, a.pending, bars, desired, trades[k])
  {
    BatchParts(strategy, p, a, bars);
    RunFollows(p, Begin(a), bars, TargetsFrom(strategy, a.closes + ClosesOf(bars), |a.closes|), |bars|);
  }
}
