/** Cutting one account's bars into batches changes nothing, exactly when the fee is not 100%. */
module BatchIndependence {
  import opened Wrappers
  import opened Bytes
  import opened Signals
  import opened Simulator
  import opened Accounts

  /** The account's own position flag agrees with its books, and its closes are positive. */
  ghost predicate Sound(a: Acct, position: bool) {
    AllPositive(a.closes) && OneSided(Sim(a.books, position, a.pending, []))
  }

  lemma ClosesAppend(a: seq<Bar>, b: seq<Bar>)
    ensures ClosesOf(a + b) == ClosesOf(a) + ClosesOf(b)
  {
  }

  lemma {:induction false} TargetsSplit(strategy: Strategy, history: Closes, a: Closes, b: Closes)
    ensures TargetsFrom(strategy, history + (a + b), |history|)
         == TargetsFrom(strategy, history + a, |history|) + TargetsFrom(strategy, history + a + b, |history| + |a|)
  {
    PlusAssociates(history, a, b);
    var whole := history + a + b;
    var first, second := TargetsFrom(strategy, history + a, |history|), TargetsFrom(strategy, whole, |history| + |a|);
    forall i | 0 <= i < |a|
      ensures TargetsFrom(strategy, whole, |history|)[i] == first[i]
    {
      TargetOfPrefix(strategy, history + a, b, |history| + i);
    }
    assert TargetsFrom(strategy, whole, |history|) == first + second;
  }

  lemma {:induction false} OrderSplits(lastTs: Option<i64>, a: seq<Bar>, b: seq<Bar>)
    requires a != [] && b != []
    ensures InOrder(lastTs, a + b) <==> InOrder(lastTs, a) && InOrder(Some(a[|a| - 1].ts), b)
  {
    var ab := a + b;
    assert forall i :: 0 <= i < |a| ==> ab[i] == a[i];
    assert forall i :: 0 <= i < |b| ==> ab[|a| + i] == b[i];
    if InOrder(lastTs, a) && InOrder(Some(a[|a| - 1].ts), b) {
      forall i, j | 0 <= i < j < |ab|
        ensures ab[i].ts < ab[j].ts
      {
        if i < |a| <= j {
          assert a[i].ts <= a[|a| - 1].ts < b[0].ts <= b[j - |a|].ts;
        }
      }
    }
  }

  lemma TradableSplits(a: seq<Bar>, b: seq<Bar>)
    ensures AllTradable(a + b) <==> AllTradable(a) && AllTradable(b)
  {
    if AllTradable(a + b) {
      assert forall i :: 0 <= i < |a| ==> (a + b)[i] == a[i];
      assert forall i :: 0 <= i < |b| ==> (a + b)[|a| + i] == b[i];
    }
  }

  /** If the whole stretch passes the overflow guards, so does each half. */
  lemma {:induction false} GuardsSplit(strategy: Strategy, history: Closes, a: Closes, b: Closes)
    requires AllPositive(history + a + b)
    requires !Raises(strategy, Last(history, 60) + (a + b))
    ensures !Raises(strategy, Last(history, 60) + a)
    ensures !Raises(strategy, Last(history + a, 60) + b)
  {
    var x, tail := Last(history, 60) + a, Last(history + a, 60);
    PlusAssociates(Last(history, 60), a, b);
    PlusAssociates(history, a, b);
    TailIsPositive(history, a + b);
    NextTail(history, a);
    assert x + b == Last(history, 60) + (a + b);
    GuardsOfParts(strategy, x, tail, b);
  }

  lemma {:induction false} GuardsOfParts(strategy: Strategy, x: Closes, tail: Closes, b: Closes)
    requires |tail| <= |x| && tail == x[|x| - |tail|..]
    requires AllPositive(x + b) && !Raises(strategy, x + b)
    ensures !Raises(strategy, x) && !Raises(strategy, tail + b)
  {
    var k := |x| - |tail|;
    assert x == (x + b)[0..|x|];
    GuardsAreMonotone(strategy, x + b, x, 0);
    assert tail + b == (x + b)[k..k + |tail + b|];
    GuardsAreMonotone(strategy, x + b, tail + b, k);
  }

  /** A batch that is accepted whole is accepted in two parts, and both ways end in the same account and curve. */
  lemma {:induction false} TwoBatchesAreOne(
      strategy: Strategy, p: Params, a: Acct, position: bool, first: seq<Bar>, second: seq<Bar>)
    requires ValidParams(p) && p.fee != 1.0 && Sound(a, position)
    requires first != [] && second != []
    requires Accepts(strategy, a, first + second)
    ensures Accepts(strategy, a, first)
    ensures var one := Batch(strategy, p, a, first).value;
            && Accepts(strategy, one.account, second)
            && var two := Batch(strategy, p, one.account, second).value;
               Batch(strategy, p, a, first + second) == Ok(Step(two.account, one.equity + two.equity))
  {
    AcceptanceSplits(strategy, p, a, first, second);
    SimulationSplits(strategy, p, a, position, first, second);
    ClosesAppend(first, second);
    PlusAssociates(a.closes, ClosesOf(first), ClosesOf(second));
  }

  lemma {:induction false} AcceptanceSplits(strategy: Strategy, p: Params, a: Acct, first: seq<Bar>, second: seq<Bar>)
    requires ValidParams(p) && AllPositive(a.closes)
    requires first != [] && second != []
    requires Accepts(strategy, a, first + second)
    ensures AllTradable(second) && Accepts(strategy, a, first)
    ensures Accepts(strategy, Batch(strategy, p, a, first).value.account, second)
  {
    OrderSplits(a.lastTs, first, second);
    TradableSplits(first, second);
    ClosesAppend(first, second);
    PositiveCloses(a.closes, first + second);
    PlusAssociates(a.closes, ClosesOf(first), ClosesOf(second));
    GuardsSplit(strategy, a.closes, ClosesOf(first), ClosesOf(second));
  }

  lemma {:induction false} SimulationSplits(
      strategy: Strategy, p: Params, a: Acct, position: bool, first: seq<Bar>, second: seq<Bar>)
    requires ValidParams(p) && p.fee != 1.0 && Sound(a, position)
    requires first != [] && second != [] && AllTradable(first) && AllTradable(second) && AllTradable(first + second)
    ensures var s := Simulated(strategy, p, a, first);
            var t := Simulated(strategy, p, Advanced(p, a, first, s), second);
            Simulated(strategy, p, a, first + second) == t.(equity := s.equity + t.equity)
  {
    var d1 := TargetsFrom(strategy, a.closes + ClosesOf(first), |a.closes|);
    var middle := a.closes + ClosesOf(first);
    var d2 := TargetsFrom(strategy, middle + ClosesOf(second), |middle|);
    ClosesAppend(first, second);
    TargetsSplit(strategy, a.closes, ClosesOf(first), ClosesOf(second));
    RunSplits(p, Begin(a), first, d1, second, d2);
    BoundaryIsSeamless(p, a, position, first, d1);
  }

  /** At a batch boundary the units held tell the position, so the next batch goes on where the run stood. */
  lemma {:induction false} BoundaryIsSeamless(p: Params, a: Acct, position: bool, first: seq<Bar>, d1: seq<bool>)
    requires ValidParams(p) && p.fee != 1.0 && Sound(a, position)
    requires first != [] && AllTradable(first) && |first| == |d1|
    ensures var s := SimTo(p, Begin(a), first, d1, |first|);
            Begin(Advanced(p, a, first, s)) == s.(equity := [])
  {
    SimKeepsOneSided(p, Begin(a), first, d1, |first|);
  }

  lemma {:induction false} RunSplits(p: Params, s: Sim, first: seq<Bar>, d1: seq<bool>, second: seq<Bar>, d2: seq<bool>)
    requires ValidParams(p) && |first| == |d1| && |second| == |d2|
    requires AllTradable(first) && AllTradable(second) && AllTradable(first + second)
    ensures var middle := SimTo(p, s, first, d1, |first|);
            var t := SimTo(p, middle.(equity := []), second, d2, |second|);
            SimTo(p, s, first + second, d1 + d2, |first + second|) == t.(equity := middle.equity + t.equity)
  {
    SimAppend(p, s, first, d1, second, d2, |second|);
    SimEquity(p, SimTo(p, s, first, d1, |first|), second, d2, |second|);
  }

  /** The invariant that makes the boundary test right survives every accepted batch. */
  lemma {:induction false} BatchKeepsSound(strategy: Strategy, p: Params, a: Acct, position: bool, bars: seq<Bar>)
    requires ValidParams(p) && p.fee != 1.0 && Sound(a, position)
    requires bars != [] && Accepts(strategy, a, bars)
    ensures Sound(Batch(strategy, p, a, bars).value.account, Simulated(strategy, p, a, bars).position)
  {
    PositiveCloses(a.closes, bars);
    SimKeepsOneSided(p, Begin(a), bars, TargetsFrom(strategy, a.closes + ClosesOf(bars), |a.closes|), |bars|);
  }

  // Any number of batches

  ghost function Batches(strategy: Strategy, p: Params, a: Acct, cuts: seq<seq<Bar>>): Result<Step>
    requires ValidParams(p)
    decreases |cuts|
  {
    if cuts == [] then Ok(Step(a, []))
    else
      var one :- Batch(strategy, p, a, cuts[0]);
      var rest :- Batches(strategy, p, one.account, cuts[1..]);
      Ok(Step(rest.account, one.equity + rest.equity))
  }

  /** For every cutting: if one single batch is accepted, the batches are, with the same account and curve. */
  lemma {:induction false} CuttingChangesNothing(
      strategy: Strategy, p: Params, a: Acct, position: bool, cuts: seq<seq<Bar>>)
    requires ValidParams(p) && p.fee != 1.0 && Sound(a, position)
    requires Batch(strategy, p, a, Concat(cuts)).Ok?
    ensures Batches(strategy, p, a, cuts) == Batch(strategy, p, a, Concat(cuts))
    decreases |cuts|
  {
    if cuts != [] {
      var first, rest := cuts[0], Concat(cuts[1..]);
      assert Concat(cuts) == first + rest;
      if first == [] {
        assert first + rest == rest;
        CuttingChangesNothing(strategy, p, a, position, cuts[1..]);
        EmptyFirst(strategy, p, a, cuts);
      } else if rest == [] {
        assert first + rest == first;
        var one := Batch(strategy, p, a, first).value;
        BatchKeepsSound(strategy, p, a, position, first);
        CuttingChangesNothing(strategy, p, one.account, Simulated(strategy, p, a, first).position, cuts[1..]);
        assert one.equity + [] == one.equity;
      } else {
        TwoBatchesAreOne(strategy, p, a, position, first, rest);
        BatchKeepsSound(strategy, p, a, position, first);
        var one := Batch(strategy, p, a, first).value;
        CuttingChangesNothing(strategy, p, one.account, Simulated(strategy, p, a, first).position, cuts[1..]);
      }
    }
  }

  lemma {:induction false} EmptyFirst(strategy: Strategy, p: Params, a: Acct, cuts: seq<seq<Bar>>)
    requires ValidParams(p) && cuts != [] && cuts[0] == []
    ensures Batches(strategy, p, a, cuts) == Batches(strategy, p, a, cuts[1..])
  {
    var rest := Batches(strategy, p, a, cuts[1..]);
    if rest.Ok? {
      assert [] + rest.value.equity == rest.value.equity;
    }
  }

  /** The overflow guards would pass on these bars as one batch. */
  ghost predicate GuardsPass(strategy: Strategy, a: Acct, bars: seq<Bar>) {
    bars != [] && AllTradable(bars) ==> !Raises(strategy, Last(a.closes, 60) + ClosesOf(bars))
  }

  /** A second batch inherits the guards of the whole, and with them two accepted batches are one accepted batch. */
  lemma {:induction false} AccountMerge(strategy: Strategy, p: Params, a: Acct, first: seq<Bar>, second: seq<Bar>)
    requires ValidParams(p) && AllPositive(a.closes) && Batch(strategy, p, a, first).Ok?
    requires GuardsPass(strategy, a, first + second)
    ensures var one := Batch(strategy, p, a, first).value.account;
            && GuardsPass(strategy, one, second)
            && (Batch(strategy, p, one, second).Ok? ==> Batch(strategy, p, a, first + second).Ok?)
  {
    if first == [] {
      assert first + second == second;
    } else if second == [] {
      assert first + second == first;
    } else {
      RestGuards(strategy, a, first, second);
      OrderSplits(a.lastTs, first, second);
      TradableSplits(first, second);
    }
  }

  /**
   * Acceptance, both ways and at every fee: one batch of everything is accepted exactly when the
   * cut run is accepted and the overflow guards pass on the whole.
   */
  lemma {:induction false} CutRunAcceptedWhole(strategy: Strategy, p: Params, a: Acct, cuts: seq<seq<Bar>>)
    requires ValidParams(p) && AllPositive(a.closes)
    ensures Batch(strategy, p, a, Concat(cuts)).Ok? <==>
              Batches(strategy, p, a, cuts).Ok? && GuardsPass(strategy, a, Concat(cuts))
  {
    if Batch(strategy, p, a, Concat(cuts)).Ok? {
      SplitAll(strategy, p, a, cuts);
    } else if Batches(strategy, p, a, cuts).Ok? && GuardsPass(strategy, a, Concat(cuts)) {
      MergeAll(strategy, p, a, cuts);
    }
  }

  /** An accepted batch is accepted in two parts, empty ones included, and the closes stay positive. */
  lemma {:induction false} AcceptedInParts(strategy: Strategy, p: Params, a: Acct, first: seq<Bar>, second: seq<Bar>)
    requires ValidParams(p) && AllPositive(a.closes) && Batch(strategy, p, a, first + second).Ok?
    ensures Batch(strategy, p, a, first).Ok?
    ensures var one := Batch(strategy, p, a, first).value.account;
            AllPositive(one.closes) && Batch(strategy, p, one, second).Ok?
  {
    if first == [] {
      assert first + second == second;
    } else if second == [] {
      assert first + second == first;
      PositiveCloses(a.closes, first);
    } else {
      AcceptanceSplits(strategy, p, a, first, second);
      PositiveCloses(a.closes, first);
    }
  }

  lemma {:induction false} SplitAll(strategy: Strategy, p: Params, a: Acct, cuts: seq<seq<Bar>>)
    requires ValidParams(p) && AllPositive(a.closes) && Batch(strategy, p, a, Concat(cuts)).Ok?
    ensures Batches(strategy, p, a, cuts).Ok?
    decreases |cuts|
  {
    if cuts != [] {
      AcceptedInParts(strategy, p, a, cuts[0], Concat(cuts[1..]));
      SplitAll(strategy, p, Batch(strategy, p, a, cuts[0]).value.account, cuts[1..]);
    }
  }

  lemma {:induction false} MergeAll(strategy: Strategy, p: Params, a: Acct, cuts: seq<seq<Bar>>)
    requires ValidParams(p) && AllPositive(a.closes)
    requires Batches(strategy, p, a, cuts).Ok? && GuardsPass(strategy, a, Concat(cuts))
    ensures Batch(strategy, p, a, Concat(cuts)).Ok?
    decreases |cuts|
  {
    if cuts != [] {
      var first, rest := cuts[0], Concat(cuts[1..]);
      var one := Batch(strategy, p, a, first).value.account;
      if first != [] {
        PositiveCloses(a.closes, first);
      }
      AccountMerge(strategy, p, a, first, rest);
      MergeAll(strategy, p, one, cuts[1..]);
    }
  }

  lemma {:induction false} RestGuards(strategy: Strategy, a: Acct, first: seq<Bar>, rest: seq<Bar>)
    requires AllPositive(a.closes) && AllTradable(first)
    requires AllTradable(first + rest) ==> !Raises(strategy, Last(a.closes, 60) + ClosesOf(first + rest))
    ensures AllTradable(rest) ==> !Raises(strategy, Last(a.closes + ClosesOf(first), 60) + ClosesOf(rest))
  {
    if AllTradable(rest) {
      TradableSplits(first, rest);
      ClosesAppend(first, rest);
      PositiveCloses(a.closes, first + rest);
      PlusAssociates(a.closes, ClosesOf(first), ClosesOf(rest));
      GuardsSplit(strategy, a.closes, ClosesOf(first), ClosesOf(rest));
    }
  }
}
