/** The batching law for whole portfolios, and the one fee it depends on. */
module PortfolioFees {
  import opened Wrappers
  import opened Signals
  import opened Simulator
  import opened Accounts
  import opened BatchIndependence
  import opened BatchCounterexamples
  import opened Portfolio

  /** Cuts that hand each of `k` symbols the same number of bars. */
  ghost predicate EvenCuts(cuts: seq<Frames>, k: nat) {
    forall i :: 0 <= i < |cuts| ==> |cuts[i]| == k && Even(cuts[i])
  }

  /** From the opening, the batches give what one batch of everything gives, if that is accepted. */
  ghost predicate FaithfulPortfolio(strategy: Strategy, ps: seq<Params>, capital: real, cuts: seq<Frames>)
    requires ValidSetup(ps) && capital > 0.0 && EvenCuts(cuts, |ps|)
  {
    var whole := PortBatch(strategy, ps, Opening(ps, capital), JoinAll(cuts, |ps|));
    whole.Ok? ==> Runs(strategy, ps, Opening(ps, capital), cuts) == whole
  }

  function Everyone(bars: seq<Bar>, k: nat): (f: Frames)
    ensures |f| == k && forall i :: 0 <= i < k ==> f[i] == bars
  {
    seq(k, i => bars)
  }

  lemma {:induction false} EveryoneAccepts(strategy: Strategy, ps: seq<Params>, capital: real, bars: seq<Bar>)
    requires ValidSetup(ps) && capital > 0.0 && bars != [] && Accepts(strategy, Fresh(0.0), bars)
    ensures PortBatch(strategy, ps, Opening(ps, capital), Everyone(bars, |ps|)).Ok?
  {
    var accounts := Opening(ps, capital).accounts;
    forall i | 0 <= i < |ps|
      ensures Batch(strategy, ps[i], accounts[i], Everyone(bars, |ps|)[i]).Ok?
    {
      CashDoesNotMatter(strategy, capital / |ps| as real, bars);
      assert accounts[i] == Fresh(capital / |ps| as real);
      BatchOf(strategy, ps[i], accounts[i], bars);
    }
  }

  lemma {:induction false} JoinTwo(f: Frames, g: Frames, k: nat)
    requires |f| == |g| == k
    ensures JoinAll([f, g], k) == Join(f, g)
  {
    assert [f, g][1..] == [g] && [g][1..] == [];
    var last := JoinAll([g], k);
    assert last == Join(g, JoinAll([], k));
    forall i | 0 <= i < k
      ensures last[i] == g[i]
    {
      assert last[i] == g[i] + Nothing(k)[i];
    }
    assert last == g;
  }

  /** One account of a portfolio after two batches is that account after its two batches. */
  lemma {:induction false} AccountOfRuns(strategy: Strategy, ps: seq<Params>, port: Port, f: Frames, g: Frames, i: nat)
    requires ValidSetup(ps) && |ps| == |port.accounts| == |f| == |g| && port.watch.peak > 0.0 && i < |ps|
    requires Runs(strategy, ps, port, [f, g]).Ok?
    ensures var cut := Batches(strategy, ps[i], port.accounts[i], [f[i], g[i]]);
            && cut.Ok? && i < |Runs(strategy, ps, port, [f, g]).value.accounts|
            && Runs(strategy, ps, port, [f, g]).value.accounts[i] == cut.value.account
  {
    assert [f, g][1..] == [g] && [g][1..] == [];
    var middle := PortBatch(strategy, ps, port, f).value;
    assert Runs(strategy, ps, middle, [g]) == PortBatch(strategy, ps, middle, g);
    TwoBatches(strategy, ps[i], port.accounts[i], f[i], g[i]);
  }

  /** Every symbol gets the same bars, whole and cut before the last one: both are accepted. */
  lemma {:induction false} CutForEveryone(strategy: Strategy, ps: seq<Params>, capital: real, bars: seq<Bar>, n: nat)
    requires ValidSetup(ps) && capital > 0.0 && |bars| == n + 1 && Accepts(strategy, Fresh(0.0), bars)
    ensures var cuts := [Everyone(bars[..n], |ps|), Everyone([bars[n]], |ps|)];
            && EvenCuts(cuts, |ps|) && JoinAll(cuts, |ps|) == Everyone(bars, |ps|)
            && PortBatch(strategy, ps, Opening(ps, capital), Everyone(bars, |ps|)).Ok?
            && Runs(strategy, ps, Opening(ps, capital), cuts).Ok?
  {
    JoinEveryone(bars, n, |ps|);
    EveryoneAccepts(strategy, ps, capital, bars);
    OpeningIsPositive(ps, capital);
    PortfolioAcceptedWhole(strategy, ps, Opening(ps, capital),
                           [Everyone(bars[..n], |ps|), Everyone([bars[n]], |ps|)]);
  }

  lemma {:induction false} JoinEveryone(bars: seq<Bar>, n: nat, k: nat)
    requires |bars| == n + 1
    ensures var cuts := [Everyone(bars[..n], k), Everyone([bars[n]], k)];
            EvenCuts(cuts, k) && JoinAll(cuts, k) == Everyone(bars, k)
  {
    var f, g := Everyone(bars[..n], k), Everyone([bars[n]], k);
    JoinTwo(f, g, k);
    assert bars[..n] + [bars[n]] == bars;
    assert Join(f, g) == Everyone(bars, k);
  }

  lemma OpeningIsPositive(ps: seq<Params>, capital: real)
    requires ValidSetup(ps) && capital > 0.0
    ensures PositiveAccounts(Opening(ps, capital).accounts) && Opening(ps, capital).watch.peak > 0.0
    ensures |Opening(ps, capital).accounts| == |ps|
  {
  }

  /** With one symbol at a 100% fee, whipsawing bars cut before the last one end in another portfolio. */
  lemma {:induction false} UnfaithfulPortfolio(strategy: Strategy, ps: seq<Params>, capital: real, k: nat)
    returns (cuts: seq<Frames>)
    requires ValidSetup(ps) && capital > 0.0 && k < |ps| && ps[k].fee == 1.0
    ensures EvenCuts(cuts, |ps|) && !FaithfulPortfolio(strategy, ps, capital, cuts)
  {
    var bars, t := AnyWhipsaw(strategy);
    var f, g := Everyone(bars[..t + 4], |ps|), Everyone([bars[t + 4]], |ps|);
    cuts := [f, g];
    var port := Opening(ps, capital);
    CutForEveryone(strategy, ps, capital, bars, t + 4);
    assert port.accounts[k] == Fresh(capital / |ps| as real);
    FullFeeBreaksBatching(strategy, ps[k], capital / |ps| as real, bars, t);
    AccountOfRuns(strategy, ps, port, f, g, k);
    assert PortBatch(strategy, ps, port, Everyone(bars, |ps|)).value.accounts[k] ==
           Batch(strategy, ps[k], port.accounts[k], bars).value.account;
  }

  /**
   * The law the harness asserts, exactly: from every opening capital and for every cutting the
   * batches give the same portfolio as one batch if and only if no symbol trades at a 100% fee.
   */
  lemma {:induction false} PortfolioFaithfulExactly(strategy: Strategy, ps: seq<Params>)
    requires ValidSetup(ps)
    ensures (forall i :: 0 <= i < |ps| ==> ps[i].fee != 1.0) <==>
            forall capital: real, cuts: seq<Frames> ::
              capital > 0.0 && EvenCuts(cuts, |ps|) ==> FaithfulPortfolio(strategy, ps, capital, cuts)
  {
    if forall i :: 0 <= i < |ps| ==> ps[i].fee != 1.0 {
      forall capital: real, cuts: seq<Frames> | capital > 0.0 && EvenCuts(cuts, |ps|)
        ensures FaithfulPortfolio(strategy, ps, capital, cuts)
      {
        OpeningIsSound(ps, capital);
        PortfolioBatchIndependence(strategy, ps, Opening(ps, capital), cuts);
      }
    } else {
      var k :| 0 <= k < |ps| && ps[k].fee == 1.0;
      var cuts := UnfaithfulPortfolio(strategy, ps, 1.0, k);
    }
  }
}
