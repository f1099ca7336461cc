/** The portfolio: aligned accounts, the summed equity curve, peak and drawdown. */
module Portfolio {
  import opened Wrappers
  import opened Bytes
  import opened Signals
  import opened Simulator
  import opened Accounts
  import opened BatchIndependence

  type Frames = seq<seq<Bar>>

  // Peak and drawdown

  datatype Watch = Watch(peak: real, drawdown: real)

  function MaxReal(a: real, b: real): real {
    if a < b then b else a
  }

  /** One equity point at a time. */
  function WatchTo(w: Watch, totals: seq<real>, i: nat): (r: Watch)
    requires w.peak > 0.0 && i <= |totals|
    ensures r.peak > 0.0
  {
    if i == 0 then w
    else
      var before := WatchTo(w, totals, i - 1);
      var peak := MaxReal(before.peak, totals[i - 1]);
      Watch(peak, MaxReal(before.drawdown, 1.0 - totals[i - 1] / peak))
  }

  lemma {:induction false} WatchAppend(w: Watch, a: seq<real>, b: seq<real>, i: nat)
    requires w.peak > 0.0 && i <= |b|
    ensures WatchTo(w, a + b, |a| + i) == WatchTo(WatchTo(w, a, |a|), b, i)
  {
    if i == 0 {
      WatchPrefix(w, a, b, |a|);
    } else {
      WatchAppend(w, a, b, i - 1);
    }
  }

  lemma {:induction false} WatchPrefix(w: Watch, a: seq<real>, b: seq<real>, i: nat)
    requires w.peak > 0.0 && i <= |a|
    ensures WatchTo(w, a + b, i) == WatchTo(w, a, i)
  {
    if i > 0 {
      WatchPrefix(w, a, b, i - 1);
    }
  }

  /** The peak is the largest of the starting peak and all points. */
  lemma {:induction false} PeakIsMaximum(w: Watch, totals: seq<real>, i: nat)
    requires w.peak > 0.0 && i <= |totals|
    ensures var peak := WatchTo(w, totals, i).peak;
            && peak >= w.peak && (forall k :: 0 <= k < i ==> peak >= totals[k])
            && (peak == w.peak || exists k :: 0 <= k < i && peak == totals[k])
  {
    if i > 0 {
      PeakIsMaximum(w, totals, i - 1);
    }
  }

  /** The fall from the peak so far at one point. */
  function FallAt(w: Watch, totals: seq<real>, k: nat): real
    requires w.peak > 0.0 && k < |totals|
  {
    1.0 - totals[k] / WatchTo(w, totals, k + 1).peak
  }

  lemma WatchStep(w: Watch, totals: seq<real>, k: nat)
    requires w.peak > 0.0 && k < |totals|
    ensures WatchTo(w, totals, k + 1).drawdown == MaxReal(WatchTo(w, totals, k).drawdown, FallAt(w, totals, k))
  {
  }

  /** The drawdown is the worst fall over all points, or the one it started with. */
  lemma {:induction false} DrawdownIsWorst(w: Watch, totals: seq<real>, i: nat)
    requires w.peak > 0.0 && i <= |totals|
    ensures var worst := WatchTo(w, totals, i).drawdown;
            && worst >= w.drawdown && (forall k :: 0 <= k < i ==> worst >= FallAt(w, totals, k))
            && (worst == w.drawdown || exists k :: 0 <= k < i && worst == FallAt(w, totals, k))
  {
    if i > 0 {
      DrawdownIsWorst(w, totals, i - 1);
      WatchStep(w, totals, i - 1);
    }
  }

  /** The vectorised update: running maxima of the whole batch first, then the worst ratio. */
  method UpdateWatch(peak: real, drawdown: real, totals: seq<real>) returns (newPeak: real, newDrawdown: real)
    requires peak > 0.0 && totals != []
    ensures Watch(newPeak, newDrawdown) == WatchTo(Watch(peak, drawdown), totals, |totals|)
  {
    ghost var w := Watch(peak, drawdown);
    var highs: seq<real> := [];
    var running := totals[0];
    for i := 0 to |totals|
      invariant |highs| == i
      invariant i > 0 ==> highs[i - 1] == MaxReal(running, peak)
      invariant i == 0 ==> running == totals[0]
      invariant forall k :: 0 <= k < i ==> highs[k] == WatchTo(w, totals, k + 1).peak
    {
      running := MaxReal(running, totals[i]);
      highs := highs + [MaxReal(running, peak)];
    }
    var worst := 1.0 - totals[0] / highs[0];
    for i := 1 to |totals|
      invariant MaxReal(drawdown, worst) == WatchTo(w, totals, i).drawdown
    {
      var drop := 1.0 - totals[i] / highs[i];
      worst := MaxReal(worst, drop);
    }
    newPeak, newDrawdown := highs[|totals| - 1], MaxReal(drawdown, worst);
  }

  // Specification of one portfolio batch

  datatype Port = Port(accounts: seq<Acct>, watch: Watch, rows: nat, curve: seq<real>)

  ghost predicate Aligned(frames: Frames) {
    forall i, j :: 0 <= i < |frames| && 0 <= j < |frames| ==>
      |frames[i]| == |frames[j]| && forall t :: 0 <= t < |frames[i]| ==> frames[i][t].ts == frames[j][t].ts
  }

  ghost predicate ValidSetup(ps: seq<Params>) {
    ps != [] && forall i :: 0 <= i < |ps| ==> ValidParams(ps[i])
  }

  ghost predicate AllAccept(strategy: Strategy, ps: seq<Params>, accounts: seq<Acct>, frames: Frames)
    requires ValidSetup(ps) && |ps| == |accounts| == |frames|
  {
    forall i :: 0 <= i < |ps| ==> Batch(strategy, ps[i], accounts[i], frames[i]).Ok?
  }

  ghost function StepAt(strategy: Strategy, ps: seq<Params>, accounts: seq<Acct>, frames: Frames, i: nat): Step
    requires ValidSetup(ps) && |ps| == |accounts| == |frames| && AllAccept(strategy, ps, accounts, frames)
    requires i < |ps|
  {
    Batch(strategy, ps[i], accounts[i], frames[i]).value
  }

  ghost function NextAccounts(
      strategy: Strategy, ps: seq<Params>, accounts: seq<Acct>, frames: Frames): (next: seq<Acct>)
    requires ValidSetup(ps) && |ps| == |accounts| == |frames| && AllAccept(strategy, ps, accounts, frames)
    ensures |next| == |ps|
    ensures forall i {:trigger next[i]} :: 0 <= i < |ps| ==>
              next[i] == StepAt(strategy, ps, accounts, frames, i).account
  {
    seq(|ps|, i requires 0 <= i < |ps| => StepAt(strategy, ps, accounts, frames, i).account)
  }

  ghost function Curves(
      strategy: Strategy, ps: seq<Params>, accounts: seq<Acct>, frames: Frames): (curves: seq<seq<real>>)
    requires ValidSetup(ps) && |ps| == |accounts| == |frames| && AllAccept(strategy, ps, accounts, frames)
    ensures |curves| == |ps|
    ensures forall i {:trigger curves[i]} :: 0 <= i < |ps| ==>
              curves[i] == StepAt(strategy, ps, accounts, frames, i).equity
  {
    seq(|ps|, i requires 0 <= i < |ps| => StepAt(strategy, ps, accounts, frames, i).equity)
  }

  ghost predicate Rectangular(curves: seq<seq<real>>, n: nat) {
    forall i :: 0 <= i < |curves| ==> |curves[i]| == n
  }

  /** The first `k` accounts added up at point `t`, in symbol order. */
  ghost function SumAt(curves: seq<seq<real>>, n: nat, t: nat, k: nat): real
    requires Rectangular(curves, n) && t < n && k <= |curves|
  {
    if k == 0 then 0.0 else SumAt(curves, n, t, k - 1) + curves[k - 1][t]
  }

  ghost function Totals(curves: seq<seq<real>>, n: nat): (totals: seq<real>)
    requires Rectangular(curves, n)
    ensures |totals| == n
    ensures forall t {:trigger totals[t]} :: 0 <= t < n ==> totals[t] == SumAt(curves, n, t, |curves|)
  {
    seq(n, t requires 0 <= t < n => SumAt(curves, n, t, |curves|))
  }

  lemma {:induction false} EquityLength(strategy: Strategy, p: Params, a: Acct, bars: seq<Bar>)
    requires ValidParams(p) && Batch(strategy, p, a, bars).Ok?
    ensures |Batch(strategy, p, a, bars).value.equity| == |bars|
  {
  }

  lemma {:induction false} CurvesRectangular(strategy: Strategy, ps: seq<Params>, accounts: seq<Acct>, frames: Frames)
    requires ValidSetup(ps) && |ps| == |accounts| == |frames| && AllAccept(strategy, ps, accounts, frames)
    requires Aligned(frames)
    ensures Rectangular(Curves(strategy, ps, accounts, frames), |frames[0]|)
  {
    forall i | 0 <= i < |ps|
      ensures |Curves(strategy, ps, accounts, frames)[i]| == |frames[0]|
    {
      EquityLength(strategy, ps[i], accounts[i], frames[i]);
    }
  }

  ghost function TotalsOf(strategy: Strategy, ps: seq<Params>, accounts: seq<Acct>, frames: Frames): seq<real>
    requires ValidSetup(ps) && |ps| == |accounts| == |frames| && AllAccept(strategy, ps, accounts, frames)
    requires Aligned(frames)
  {
    CurvesRectangular(strategy, ps, accounts, frames);
    Totals(Curves(strategy, ps, accounts, frames), |frames[0]|)
  }

  function Product(a: nat, b: nat): nat {
    a * b
  }

  /** Accounts replaced, and the totals entered into peak, drawdown, row count and curve. */
  function Recorded(port: Port, accounts: seq<Acct>, totals: seq<real>): Port
    requires port.watch.peak > 0.0
  {
    Port(accounts, WatchTo(port.watch, totals, |totals|),
         port.rows + Product(|totals|, |accounts|), port.curve + totals)
  }

  lemma {:induction false} RecordedTwice(port: Port, middle: seq<Acct>, a: seq<real>, accounts: seq<Acct>, b: seq<real>)
    requires port.watch.peak > 0.0 && |middle| == |accounts|
    ensures Recorded(Recorded(port, middle, a), accounts, b) == Recorded(port, accounts, a + b)
  {
    WatchAppend(port.watch, a, b, |b|);
    PlusAssociates(port.curve, a, b);
    ProductAdds(|a|, |b|, |accounts|);
  }

  lemma ProductAdds(a: nat, b: nat, k: nat)
    ensures Product(a, k) + Product(b, k) == Product(a + b, k)
  {
  }

  /** What one call of `Backtest.consume` does. */
  ghost function PortBatch(strategy: Strategy, ps: seq<Params>, port: Port, frames: Frames): Result<Port>
    requires ValidSetup(ps) && |ps| == |port.accounts| == |frames| && port.watch.peak > 0.0
  {
    if !Aligned(frames) || !AllAccept(strategy, ps, port.accounts, frames) then Err(InvalidInput)
    else
      var totals := TotalsOf(strategy, ps, port.accounts, frames);
      Ok(Recorded(port, NextAccounts(strategy, ps, port.accounts, frames), totals))
  }

  /** Cash and units at the last close. */
  function WorthOf(a: Acct): real {
    a.books.cash + a.books.units * if a.lastClose.Some? then a.lastClose.value else 0.0
  }

  /** What the first `k` accounts are worth. */
  function Worth(accounts: seq<Acct>, k: nat): real
    requires k <= |accounts|
  {
    if k == 0 then 0.0 else Worth(accounts, k - 1) + WorthOf(accounts[k - 1])
  }

  lemma {:induction false} LastPointOf(strategy: Strategy, p: Params, a: Acct, bars: seq<Bar>)
    requires ValidParams(p) && bars != [] && Batch(strategy, p, a, bars).Ok?
    ensures var step := Batch(strategy, p, a, bars).value;
            |step.equity| == |bars| && step.equity[|bars| - 1] == WorthOf(step.account)
  {
    BatchEnds(strategy, p, a, bars);
    MarkIsWorth(Batch(strategy, p, a, bars).value.account, Quote(p, bars[|bars| - 1].close));
  }

  lemma MarkIsWorth(a: Acct, close: real)
    requires a.lastClose == Some(close)
    ensures Mark(a.books, close) == WorthOf(a)
  {
  }

  lemma {:induction false} SumOfLast(curves: seq<seq<real>>, accounts: seq<Acct>, n: nat, k: nat)
    requires Rectangular(curves, n) && n > 0 && |curves| == |accounts| && k <= |accounts|
    requires forall i :: 0 <= i < |accounts| ==> curves[i][n - 1] == WorthOf(accounts[i])
    ensures SumAt(curves, n, n - 1, k) == Worth(accounts, k)
  {
    if k > 0 {
      SumOfLast(curves, accounts, n, k - 1);
    }
  }

  lemma {:induction false} LastPointAt(
      strategy: Strategy, ps: seq<Params>, accounts: seq<Acct>, f: Frames, n: nat, i: nat)
    requires ValidSetup(ps) && |ps| == |accounts| == |f| && AllAccept(strategy, ps, accounts, f)
    requires i < |ps| && |f[i]| == n > 0
    ensures |Curves(strategy, ps, accounts, f)[i]| == n
    ensures Curves(strategy, ps, accounts, f)[i][n - 1] == WorthOf(NextAccounts(strategy, ps, accounts, f)[i])
  {
    LastPointOf(strategy, ps[i], accounts[i], f[i]);
    assert StepAt(strategy, ps, accounts, f, i) == Batch(strategy, ps[i], accounts[i], f[i]).value;
  }

  /** Every curve ends in what its account is worth. */
  ghost predicate EndsInWorth(curves: seq<seq<real>>, accounts: seq<Acct>, n: nat) {
    && |curves| == |accounts| && n > 0 && Rectangular(curves, n)
    && forall i :: 0 <= i < |accounts| ==> curves[i][n - 1] == WorthOf(accounts[i])
  }

  lemma {:induction false} CurvesEndInWorth(
      strategy: Strategy, ps: seq<Params>, accounts: seq<Acct>, f: Frames, n: nat)
    requires ValidSetup(ps) && |ps| == |accounts| == |f| && AllAccept(strategy, ps, accounts, f)
    requires n > 0 && forall i :: 0 <= i < |f| ==> |f[i]| == n
    ensures EndsInWorth(Curves(strategy, ps, accounts, f), NextAccounts(strategy, ps, accounts, f), n)
  {
    var curves, next := Curves(strategy, ps, accounts, f), NextAccounts(strategy, ps, accounts, f);
    forall i | 0 <= i < |ps|
      ensures |curves[i]| == n && curves[i][n - 1] == WorthOf(next[i])
    {
      LastPointAt(strategy, ps, accounts, f, n, i);
    }
  }

  lemma {:induction false} TotalsEndInWorth(curves: seq<seq<real>>, accounts: seq<Acct>, n: nat)
    requires EndsInWorth(curves, accounts, n)
    ensures Totals(curves, n)[n - 1] == Worth(accounts, |accounts|)
  {
    SumOfLast(curves, accounts, n, |accounts|);
  }

  lemma {:induction false} LastPointAdds(
      strategy: Strategy, ps: seq<Params>, accounts: seq<Acct>, f: Frames)
    requires ValidSetup(ps) && |ps| == |accounts| == |f| && AllAccept(strategy, ps, accounts, f)
    requires Aligned(f) && f[0] != []
    ensures var totals := TotalsOf(strategy, ps, accounts, f);
            |totals| == |f[0]| && totals[|f[0]| - 1] == Worth(NextAccounts(strategy, ps, accounts, f), |ps|)
  {
    CurvesEndInWorth(strategy, ps, accounts, f, |f[0]|);
    TotalsEndInWorth(Curves(strategy, ps, accounts, f), NextAccounts(strategy, ps, accounts, f), |f[0]|);
  }

  /**
   * After an accepted batch that is not empty: one more curve point a timestamp, every symbol's bars
   * counted, and the last curve point is what all accounts are worth at their last closes.
   */
  lemma {:induction false} LastPointIsWorth(strategy: Strategy, ps: seq<Params>, port: Port, f: Frames)
    requires ValidSetup(ps) && |ps| == |port.accounts| == |f| && port.watch.peak > 0.0
    requires PortBatch(strategy, ps, port, f).Ok? && f[0] != []
    ensures var after := PortBatch(strategy, ps, port, f).value;
            && |after.curve| == |port.curve| + |f[0]| && port.curve <= after.curve
            && after.rows == port.rows + |f[0]| * |ps| && |after.accounts| == |ps|
            && after.curve[|after.curve| - 1] == Worth(after.accounts, |ps|)
  {
    LastPointAdds(strategy, ps, port.accounts, f);
  }

  // Cutting the frames of a portfolio

  function Join(f: Frames, g: Frames): (h: Frames)
    requires |f| == |g|
    ensures |h| == |f|
    ensures forall i {:trigger h[i]} :: 0 <= i < |h| ==> h[i] == f[i] + g[i]
  {
    seq(|f|, i requires 0 <= i < |f| => f[i] + g[i])
  }

  /** A cut hands every symbol the same number of bars. */
  ghost predicate Even(f: Frames) {
    forall i, j :: 0 <= i < |f| && 0 <= j < |f| ==> |f[i]| == |f[j]|
  }

  ghost predicate SoundAccount(p: Params, a: Acct) {
    p.fee != 1.0 && Sound(a, a.books.units != 0.0)
  }

  ghost predicate SoundPort(ps: seq<Params>, accounts: seq<Acct>) {
    |ps| == |accounts| && forall i :: 0 <= i < |ps| ==> SoundAccount(ps[i], accounts[i])
  }

  /** Two batches of one account are one, empty batches included. */
  lemma {:induction false} AccountSplit(strategy: Strategy, p: Params, a: Acct, first: seq<Bar>, second: seq<Bar>)
    requires ValidParams(p) && SoundAccount(p, a) && Batch(strategy, p, a, first + second).Ok?
    ensures Batch(strategy, p, a, first).Ok?
    ensures var one := Batch(strategy, p, a, first).value;
            && SoundAccount(p, one.account)
            && Batch(strategy, p, one.account, second).Ok?
            && var two := Batch(strategy, p, one.account, second).value;
               Batch(strategy, p, a, first + second).value == Step(two.account, one.equity + two.equity)
  {
    var position := a.books.units != 0.0;
    if first == [] {
      assert first + second == second;
      var two := Batch(strategy, p, a, second).value;
      assert [] + two.equity == two.equity;
    } else if second == [] {
      assert first + second == first;
      BatchKeepsSound(strategy, p, a, position, first);
      var one := Batch(strategy, p, a, first).value;
      assert one.equity + [] == one.equity;
    } else {
      TwoBatchesAreOne(strategy, p, a, position, first, second);
      BatchKeepsSound(strategy, p, a, position, first);
    }
  }

  lemma {:induction false} SumSplit(
      c: seq<seq<real>>, m: nat, d: seq<seq<real>>, n: nat, e: seq<seq<real>>, t: nat, k: nat)
    requires Rectangular(c, m) && Rectangular(d, n) && Rectangular(e, m + n) && |c| == |d| == |e|
    requires forall i :: 0 <= i < |c| ==> e[i] == c[i] + d[i]
    requires t < m + n && k <= |c|
    ensures SumAt(e, m + n, t, k) == if t < m then SumAt(c, m, t, k) else SumAt(d, n, t - m, k)
  {
    if k > 0 {
      SumSplit(c, m, d, n, e, t, k - 1);
    }
  }

  lemma {:induction false} TotalsSplit(c: seq<seq<real>>, m: nat, d: seq<seq<real>>, n: nat, e: seq<seq<real>>)
    requires Rectangular(c, m) && Rectangular(d, n) && Rectangular(e, m + n) && |c| == |d| == |e|
    requires forall i :: 0 <= i < |c| ==> e[i] == c[i] + d[i]
    ensures Totals(e, m + n) == Totals(c, m) + Totals(d, n)
  {
    forall t | 0 <= t < m + n
      ensures Totals(e, m + n)[t] == (Totals(c, m) + Totals(d, n))[t]
    {
      SumSplit(c, m, d, n, e, t, |c|);
    }
  }

  lemma {:induction false} AlignedSplit(f: Frames, g: Frames)
    requires |f| == |g| && Even(f) && Aligned(Join(f, g))
    ensures Aligned(f) && Aligned(g)
  {
    var h := Join(f, g);
    forall i, j | 0 <= i < |f| && 0 <= j < |f|
      ensures |f[i]| == |f[j]| && forall t :: 0 <= t < |f[i]| ==> f[i][t].ts == f[j][t].ts
      ensures |g[i]| == |g[j]| && forall t :: 0 <= t < |g[i]| ==> g[i][t].ts == g[j][t].ts
    {
      assert h[i] == f[i] + g[i] && h[j] == f[j] + g[j];
      forall t | 0 <= t < |f[i]|
        ensures f[i][t].ts == f[j][t].ts
      {
        assert h[i][t].ts == h[j][t].ts;
      }
      forall t | 0 <= t < |g[i]|
        ensures g[i][t].ts == g[j][t].ts
      {
        assert h[i][|f[i]| + t].ts == h[j][|f[i]| + t].ts;
      }
    }
  }

  /** The accounts' half of the portfolio split. */
  lemma {:induction false} AccountsSplit(strategy: Strategy, ps: seq<Params>, accounts: seq<Acct>, f: Frames, g: Frames)
    requires ValidSetup(ps) && SoundPort(ps, accounts) && |ps| == |f| == |g|
    requires AllAccept(strategy, ps, accounts, Join(f, g))
    ensures AllAccept(strategy, ps, accounts, f)
    ensures var middle := NextAccounts(strategy, ps, accounts, f);
            && SoundPort(ps, middle) && AllAccept(strategy, ps, middle, g)
            && NextAccounts(strategy, ps, middle, g) == NextAccounts(strategy, ps, accounts, Join(f, g))
    ensures var c := Curves(strategy, ps, accounts, f);
            var d := Curves(strategy, ps, NextAccounts(strategy, ps, accounts, f), g);
            forall i :: 0 <= i < |ps| ==> Curves(strategy, ps, accounts, Join(f, g))[i] == c[i] + d[i]
  {
    var h := Join(f, g);
    forall i | 0 <= i < |ps|
      ensures Batch(strategy, ps[i], accounts[i], f[i]).Ok?
    {
      assert h[i] == f[i] + g[i];
      AccountSplit(strategy, ps[i], accounts[i], f[i], g[i]);
    }
    var middle := NextAccounts(strategy, ps, accounts, f);
    forall i | 0 <= i < |ps|
      ensures SoundAccount(ps[i], middle[i])
      ensures Batch(strategy, ps[i], middle[i], g[i]).Ok?
      ensures Batch(strategy, ps[i], accounts[i], h[i]).value
           == Step(Batch(strategy, ps[i], middle[i], g[i]).value.account,
                   Batch(strategy, ps[i], accounts[i], f[i]).value.equity +
                   Batch(strategy, ps[i], middle[i], g[i]).value.equity)
    {
      assert h[i] == f[i] + g[i];
      assert middle[i] == Batch(strategy, ps[i], accounts[i], f[i]).value.account;
      AccountSplit(strategy, ps[i], accounts[i], f[i], g[i]);
    }
  }

  /** Two even cuts of a portfolio batch are accepted when the whole is, and leave the same portfolio. */
  lemma {:induction false} PortfolioSplit(strategy: Strategy, ps: seq<Params>, port: Port, f: Frames, g: Frames)
    requires ValidSetup(ps) && SoundPort(ps, port.accounts) && |ps| == |f| == |g| && port.watch.peak > 0.0
    requires Even(f) && PortBatch(strategy, ps, port, Join(f, g)).Ok?
    ensures PortBatch(strategy, ps, port, f).Ok?
    ensures var middle := PortBatch(strategy, ps, port, f).value;
            && SoundPort(ps, middle.accounts) && middle.watch.peak > 0.0
            && PortBatch(strategy, ps, middle, g) == PortBatch(strategy, ps, port, Join(f, g))
  {
    var h := Join(f, g);
    AlignedSplit(f, g);
    AccountsSplit(strategy, ps, port.accounts, f, g);
    var middle := NextAccounts(strategy, ps, port.accounts, f);
    TotalsOfSplit(strategy, ps, port.accounts, f, g);
    RecordedTwice(port, middle, TotalsOf(strategy, ps, port.accounts, f),
                  NextAccounts(strategy, ps, middle, g), TotalsOf(strategy, ps, middle, g));
  }

  lemma {:induction false} TotalsOfSplit(strategy: Strategy, ps: seq<Params>, accounts: seq<Acct>, f: Frames, g: Frames)
    requires ValidSetup(ps) && SoundPort(ps, accounts) && |ps| == |f| == |g|
    requires Aligned(f) && Aligned(g) && Aligned(Join(f, g)) && AllAccept(strategy, ps, accounts, Join(f, g))
    ensures AllAccept(strategy, ps, accounts, f) && AllAccept(strategy, ps, NextAccounts(strategy, ps, accounts, f), g)
    ensures TotalsOf(strategy, ps, accounts, Join(f, g))
         == TotalsOf(strategy, ps, accounts, f) + TotalsOf(strategy, ps, NextAccounts(strategy, ps, accounts, f), g)
  {
    AccountsSplit(strategy, ps, accounts, f, g);
    var h, middle := Join(f, g), NextAccounts(strategy, ps, accounts, f);
    assert h[0] == f[0] + g[0];
    CurvesRectangular(strategy, ps, accounts, f);
    CurvesRectangular(strategy, ps, middle, g);
    CurvesRectangular(strategy, ps, accounts, h);
    CurvesAddUp(Curves(strategy, ps, accounts, f), f, Curves(strategy, ps, middle, g), g,
                Curves(strategy, ps, accounts, h), h);
  }

  lemma {:induction false} CurvesAddUp(
      c: seq<seq<real>>, f: Frames, d: seq<seq<real>>, g: Frames, e: seq<seq<real>>, h: Frames)
    requires f != [] && g != [] && h != [] && h[0] == f[0] + g[0]
    requires Rectangular(c, |f[0]|) && Rectangular(d, |g[0]|) && Rectangular(e, |h[0]|) && |c| == |d| == |e|
    requires forall i :: 0 <= i < |c| ==> e[i] == c[i] + d[i]
    ensures Totals(e, |h[0]|) == Totals(c, |f[0]|) + Totals(d, |g[0]|)
  {
    TotalsSplit(c, |f[0]|, d, |g[0]|, e);
  }

  // Any number of batches

  ghost function Runs(strategy: Strategy, ps: seq<Params>, port: Port, cuts: seq<Frames>): Result<Port>
    requires ValidSetup(ps) && |ps| == |port.accounts| && port.watch.peak > 0.0
    requires forall i :: 0 <= i < |cuts| ==> |cuts[i]| == |ps|
    decreases |cuts|
  {
    if cuts == [] then Ok(port)
    else
      var next :- PortBatch(strategy, ps, port, cuts[0]);
      Runs(strategy, ps, next, cuts[1..])
  }

  function Nothing(k: nat): (f: Frames)
    ensures |f| == k && forall i :: 0 <= i < k ==> f[i] == []
  {
    seq(k, i => [])
  }

  ghost function JoinAll(cuts: seq<Frames>, k: nat): (f: Frames)
    requires forall i :: 0 <= i < |cuts| ==> |cuts[i]| == k
    ensures |f| == k
  {
    if cuts == [] then Nothing(k) else Join(cuts[0], JoinAll(cuts[1..], k))
  }

  lemma {:induction false} NothingChanges(strategy: Strategy, ps: seq<Params>, port: Port)
    requires ValidSetup(ps) && |ps| == |port.accounts| && port.watch.peak > 0.0
    ensures PortBatch(strategy, ps, port, Nothing(|ps|)) == Ok(port)
  {
    var f := Nothing(|ps|);
    assert AllAccept(strategy, ps, port.accounts, f);
    assert NextAccounts(strategy, ps, port.accounts, f) == port.accounts;
    assert TotalsOf(strategy, ps, port.accounts, f) == [];
    assert port.curve + [] == port.curve;
  }

  /**
   * Batch independence of the whole portfolio: however aligned bars are cut into batches, if one
   * batch of everything is accepted, the batches are, and trades, holdings, pending targets,
   * equity curve, row count, peak and drawdown are the same.
   */
  lemma {:induction false} PortfolioBatchIndependence(
      strategy: Strategy, ps: seq<Params>, port: Port, cuts: seq<Frames>)
    requires ValidSetup(ps) && SoundPort(ps, port.accounts) && port.watch.peak > 0.0
    requires forall i :: 0 <= i < |cuts| ==> |cuts[i]| == |ps| && Even(cuts[i])
    ensures var whole := PortBatch(strategy, ps, port, JoinAll(cuts, |ps|));
            whole.Ok? ==> Runs(strategy, ps, port, cuts) == whole
    decreases |cuts|
  {
    if cuts == [] {
      NothingChanges(strategy, ps, port);
    } else if PortBatch(strategy, ps, port, JoinAll(cuts, |ps|)).Ok? {
      var f, g := cuts[0], JoinAll(cuts[1..], |ps|);
      PortfolioSplit(strategy, ps, port, f, g);
      PortfolioBatchIndependence(strategy, ps, PortBatch(strategy, ps, port, f).value, cuts[1..]);
    }
  }

  // Acceptance, at every fee

  /** Every close an account has seen is positive. */
  ghost predicate PositiveAccounts(accounts: seq<Acct>) {
    forall i :: 0 <= i < |accounts| ==> AllPositive(accounts[i].closes)
  }

  /** The overflow guards would pass on every symbol's bars as one batch. */
  ghost predicate AllGuardsPass(strategy: Strategy, accounts: seq<Acct>, f: Frames)
    requires |accounts| == |f|
  {
    forall i :: 0 <= i < |f| ==> GuardsPass(strategy, accounts[i], f[i])
  }

  lemma {:induction false} AlignedJoin(f: Frames, g: Frames)
    requires |f| == |g| && Aligned(f) && Aligned(g)
    ensures Aligned(Join(f, g))
  {
    var h: Frames := Join(f, g);
    forall i, j | 0 <= i < |h| && 0 <= j < |h|
      ensures |h[i]| == |h[j]| && forall t :: 0 <= t < |h[i]| ==> h[i][t].ts == h[j][t].ts
    {
      assert h[i] == f[i] + g[i] && h[j] == f[j] + g[j];
      assert |f[i]| == |f[j]| && |g[i]| == |g[j]|;
    }
  }

  /** After an accepted first batch, both together are accepted exactly if the second is and the guards pass. */
  lemma {:induction false} AccountsAccept(
      strategy: Strategy, ps: seq<Params>, accounts: seq<Acct>, f: Frames, g: Frames)
    requires ValidSetup(ps) && |ps| == |accounts| == |f| == |g| && PositiveAccounts(accounts)
    ensures AllAccept(strategy, ps, accounts, Join(f, g)) ==>
              AllAccept(strategy, ps, accounts, f) && AllGuardsPass(strategy, accounts, Join(f, g))
    ensures AllAccept(strategy, ps, accounts, f) ==>
              var middle := NextAccounts(strategy, ps, accounts, f);
              && PositiveAccounts(middle)
              && (AllGuardsPass(strategy, accounts, Join(f, g)) ==> AllGuardsPass(strategy, middle, g))
              && (AllAccept(strategy, ps, accounts, Join(f, g)) <==>
                    AllAccept(strategy, ps, middle, g) && AllGuardsPass(strategy, accounts, Join(f, g)))
  {
    var h := Join(f, g);
    forall i | 0 <= i < |ps|
      ensures Batch(strategy, ps[i], accounts[i], h[i]).Ok? ==>
                Batch(strategy, ps[i], accounts[i], f[i]).Ok? && GuardsPass(strategy, accounts[i], h[i])
      ensures Batch(strategy, ps[i], accounts[i], f[i]).Ok? ==>
                AcceptsOneByOne(strategy, ps[i], accounts[i], f[i], g[i])
    {
      assert h[i] == f[i] + g[i] && AllPositive(accounts[i].closes);
      AccountAccepts(strategy, ps[i], accounts[i], f[i], g[i]);
    }
    if AllAccept(strategy, ps, accounts, f) {
      var middle := NextAccounts(strategy, ps, accounts, f);
      forall i | 0 <= i < |ps|
        ensures AcceptsOneByOne(strategy, ps[i], accounts[i], f[i], g[i])
        ensures middle[i] == Batch(strategy, ps[i], accounts[i], f[i]).value.account && h[i] == f[i] + g[i]
      {
      }
    }
  }

  /** After an accepted first batch, everything is accepted exactly when the second is and the guards pass. */
  ghost predicate AcceptsOneByOne(strategy: Strategy, p: Params, a: Acct, first: seq<Bar>, second: seq<Bar>)
    requires ValidParams(p) && Batch(strategy, p, a, first).Ok?
  {
    var one := Batch(strategy, p, a, first).value.account;
    && AllPositive(one.closes)
    && (GuardsPass(strategy, a, first + second) ==> GuardsPass(strategy, one, second))
    && (Batch(strategy, p, a, first + second).Ok? <==>
          Batch(strategy, p, one, second).Ok? && GuardsPass(strategy, a, first + second))
  }

  lemma {:induction false} AccountAccepts(
      strategy: Strategy, p: Params, a: Acct, first: seq<Bar>, second: seq<Bar>)
    requires ValidParams(p) && AllPositive(a.closes)
    ensures Batch(strategy, p, a, first + second).Ok? ==>
              Batch(strategy, p, a, first).Ok? && GuardsPass(strategy, a, first + second)
    ensures Batch(strategy, p, a, first).Ok? ==> AcceptsOneByOne(strategy, p, a, first, second)
  {
    if Batch(strategy, p, a, first + second).Ok? {
      AcceptedInParts(strategy, p, a, first, second);
    }
    if Batch(strategy, p, a, first).Ok? {
      assert first + [] == first;
      AcceptedInParts(strategy, p, a, first, []);
      if GuardsPass(strategy, a, first + second) {
        AccountMerge(strategy, p, a, first, second);
      }
    }
  }

  /** One of two even portfolio batches after the other, against both together. */
  lemma {:induction false} PortfolioAccepts(strategy: Strategy, ps: seq<Params>, port: Port, f: Frames, g: Frames)
    requires ValidSetup(ps) && |ps| == |port.accounts| == |f| == |g| && port.watch.peak > 0.0 && Even(f)
    requires PositiveAccounts(port.accounts)
    ensures PortBatch(strategy, ps, port, Join(f, g)).Ok? ==>
              PortBatch(strategy, ps, port, f).Ok? && AllGuardsPass(strategy, port.accounts, Join(f, g))
    ensures PortBatch(strategy, ps, port, f).Ok? ==>
              var middle := PortBatch(strategy, ps, port, f).value;
              && PositiveAccounts(middle.accounts) && middle.watch.peak > 0.0
              && (AllGuardsPass(strategy, port.accounts, Join(f, g)) ==> AllGuardsPass(strategy, middle.accounts, g))
              && (PortBatch(strategy, ps, port, Join(f, g)).Ok? <==>
                    PortBatch(strategy, ps, middle, g).Ok? && AllGuardsPass(strategy, port.accounts, Join(f, g)))
  {
    AccountsAccept(strategy, ps, port.accounts, f, g);
    if Aligned(Join(f, g)) {
      AlignedSplit(f, g);
    }
    if Aligned(f) && Aligned(g) {
      AlignedJoin(f, g);
    }
  }

  /** At every fee: one batch of everything is accepted exactly when the cut run is and the guards pass on the whole. */
  lemma {:induction false} PortfolioAcceptedWhole(strategy: Strategy, ps: seq<Params>, port: Port, cuts: seq<Frames>)
    requires ValidSetup(ps) && |ps| == |port.accounts| && port.watch.peak > 0.0 && PositiveAccounts(port.accounts)
    requires forall i :: 0 <= i < |cuts| ==> |cuts[i]| == |ps| && Even(cuts[i])
    ensures PortBatch(strategy, ps, port, JoinAll(cuts, |ps|)).Ok? <==>
              Runs(strategy, ps, port, cuts).Ok? && AllGuardsPass(strategy, port.accounts, JoinAll(cuts, |ps|))
    decreases |cuts|
  {
    if cuts == [] {
      NothingChanges(strategy, ps, port);
    } else {
      var f, g := cuts[0], JoinAll(cuts[1..], |ps|);
      PortfolioAccepts(strategy, ps, port, f, g);
      if PortBatch(strategy, ps, port, f).Ok? {
        PortfolioAcceptedWhole(strategy, ps, PortBatch(strategy, ps, port, f).value, cuts[1..]);
      }
    }
  }

  function Opening(ps: seq<Params>, capital: real): Port
    requires ps != []
  {
    Port(seq(|ps|, i => Acct(Books(capital / |ps| as real, 0.0, []), false, None, None, [])),
         Watch(capital, 0.0), 0, [])
  }

  function TotalCash(accounts: seq<Acct>, k: nat): real
    requires k <= |accounts|
  {
    if k == 0 then 0.0 else TotalCash(accounts, k - 1) + accounts[k - 1].books.cash
  }

  /** Nothing bought, ordered or seen yet. */
  predicate Unused(a: Acct) {
    && a.books.units == 0.0 && a.books.trades == [] && !a.pending
    && a.lastTs == None && a.lastClose == None && a.closes == []
  }

  lemma {:induction false} EqualShares(accounts: seq<Acct>, share: real, k: nat)
    requires k <= |accounts| && forall i :: 0 <= i < |accounts| ==> accounts[i].books.cash == share
    ensures TotalCash(accounts, k) == share * k as real
  {
    if k > 0 {
      EqualShares(accounts, share, k - 1);
    }
  }

  /** The capital is shared out equally and completely to unused accounts, and is the peak to start from. */
  lemma {:induction false} OpeningSharesCapital(ps: seq<Params>, capital: real)
    requires ps != []
    ensures var port := Opening(ps, capital);
            && |port.accounts| == |ps|
            && TotalCash(port.accounts, |ps|) == capital
            && (forall i, j :: 0 <= i < |ps| && 0 <= j < |ps| ==>
                  port.accounts[i].books.cash == port.accounts[j].books.cash)
            && (forall i :: 0 <= i < |ps| ==> Unused(port.accounts[i]))
            && port.watch.peak == capital && port.watch.drawdown == 0.0 && port.rows == 0 && port.curve == []
  {
    var n := |ps| as real;
    EqualShares(Opening(ps, capital).accounts, capital / n, |ps|);
    assert capital / n * n == capital;
  }

  /** Every new portfolio whose fee is not exactly 100% is in the state the theorem asks for. */
  lemma {:induction false} OpeningIsSound(ps: seq<Params>, capital: real)
    requires ValidSetup(ps) && capital > 0.0 && forall i :: 0 <= i < |ps| ==> ps[i].fee != 1.0
    ensures SoundPort(ps, Opening(ps, capital).accounts) && Opening(ps, capital).watch.peak > 0.0
  {
    NonzeroQuotient(capital, |ps| as real);
  }
}
