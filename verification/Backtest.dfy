/** The portfolio object that consumes batches of frames. */
module Backtest {
  import opened Wrappers
  import opened Signals
  import opened Simulator
  import opened Accounts
  import opened Portfolio

  function Selected(symbols: seq<string>, frames: map<string, seq<Bar>>): (f: Frames)
    requires forall i :: 0 <= i < |symbols| ==> symbols[i] in frames
    ensures |f| == |symbols|
    ensures forall i {:trigger f[i]} :: 0 <= i < |f| ==> f[i] == frames[symbols[i]]
  {
    seq(|symbols|, i requires 0 <= i < |symbols| => frames[symbols[i]])
  }

  predicate SameTimes(a: seq<Bar>, b: seq<Bar>) {
    |a| == |b| && forall t :: 0 <= t < |a| ==> a[t].ts == b[t].ts
  }

  function Added(total: seq<real>, equity: seq<real>): (sum: seq<real>)
    requires |total| == |equity|
    ensures |sum| == |total|
    ensures forall t {:trigger sum[t]} :: 0 <= t < |sum| ==> sum[t] == total[t] + equity[t]
  {
    seq(|total|, t requires 0 <= t < |total| => total[t] + equity[t])
  }

  /** Accounts of a portfolio never share state. */
  ghost predicate Separate(accounts: seq<Account>) {
    forall i, j :: 0 <= i < j < |accounts| ==> accounts[i] != accounts[j] && accounts[i].signal != accounts[j].signal
  }

  ghost function ReprOf(accounts: seq<Account>): set<object> {
    (set i | 0 <= i < |accounts| ::
       accounts[i] as object) +
    (set i | 0 <= i < |accounts| :: accounts[i].signal as object)
  }

  ghost function StatesOf(accounts: seq<Account>): (states: seq<Acct>)
    reads ReprOf(accounts)
    ensures |states| == |accounts|
    ensures forall i {:trigger states[i]} :: 0 <= i < |accounts| ==> states[i] == accounts[i].State()
  {
    seq(|accounts|, i requires 0 <= i < |accounts| reads ReprOf(accounts) => accounts[i].State())
  }

  ghost function ParamsOf(accounts: seq<Account>): (ps: seq<Params>)
    ensures |ps| == |accounts|
    ensures forall i {:trigger ps[i]} :: 0 <= i < |accounts| ==> ps[i] == accounts[i].params
  {
    seq(|accounts|, i requires 0 <= i < |accounts| => accounts[i].params)
  }

  ghost predicate AllValid(strategy: Strategy, accounts: seq<Account>)
    reads ReprOf(accounts)
  {
    forall i :: 0 <= i < |accounts| ==> accounts[i].Valid() && accounts[i].signal.strategy == strategy
  }

  class BacktestRun {
    const strategy: Strategy
    const symbols: seq<string>
    const accounts: seq<Account>
    var peak: real
    var drawdown: real
    var rows: nat
    var curve: seq<real>

    ghost predicate Valid()
      reads this, ReprOf(accounts)
    {
      && |symbols| == |accounts| && accounts != []
      && Separate(accounts) && AllValid(strategy, accounts)
      && peak > 0.0
    }

    ghost function State(): Port
      reads this, ReprOf(accounts)
    {
      Port(StatesOf(accounts), Watch(peak, drawdown), rows, curve)
    }

    constructor (strategy: Strategy, symbols: seq<string>, accounts: seq<Account>, capital: real)
      requires |symbols| == |accounts| && accounts != [] && capital > 0.0
      requires Separate(accounts) && AllValid(strategy, accounts)
      ensures Valid() && this.accounts == accounts && this.symbols == symbols && this.strategy == strategy
      ensures State() == Port(StatesOf(accounts), Watch(capital, 0.0), 0, [])
    {
      this.strategy, this.symbols, this.accounts := strategy, symbols, accounts;
      peak, drawdown, rows, curve := capital, 0.0, 0, [];
    }

    /** One account's turn; the others stay as they are. */
    method ConsumeOne(i: nat, bars: seq<Bar>, ghost was: seq<Acct>) returns (r: Result<seq<real>>)
      requires i < |accounts| && Separate(accounts) && AllValid(strategy, accounts) && StatesOf(accounts) == was
      modifies accounts[i], accounts[i].signal
      ensures AllValid(strategy, accounts)
      ensures var step := Batch(strategy, accounts[i].params, was[i], bars);
              && r.Ok? == step.Ok?
              && (r.Ok? ==> r.value == step.value.equity && StatesOf(accounts) == was[i := step.value.account])
      ensures r.Err? ==> StatesOf(accounts) == was
    {
      r := accounts[i].Consume(bars);
      forall j | 0 <= j < |accounts| && j != i
        ensures accounts[j].Valid() && accounts[j].State() == was[j]
      {
        assert was[j] == old(accounts[j].State());
      }
    }

    /** Feeds each account its frame and adds up the curves; stops at the first refusal. */
    method ConsumeAccounts(f: Frames) returns (r: Result<seq<real>>)
      requires |f| == |accounts| && accounts != [] && Separate(accounts) && AllValid(strategy, accounts)
      modifies ReprOf(accounts)
      ensures AllValid(strategy, accounts) && ValidSetup(ParamsOf(accounts))
      ensures r.Ok? <==> Aligned(f) && AllAccept(strategy, ParamsOf(accounts), old(StatesOf(accounts)), f)
      ensures r.Ok? ==> StatesOf(accounts) == NextAccounts(strategy, ParamsOf(accounts), old(StatesOf(accounts)), f)
      ensures r.Ok? ==> r.value == TotalsOf(strategy, ParamsOf(accounts), old(StatesOf(accounts)), f)
      ensures r.Err? ==> exists k: nat ::
                StoppedAt(strategy, ParamsOf(accounts), old(StatesOf(accounts)), f, k, StatesOf(accounts))
    {
      ghost var ps, was := ParamsOf(accounts), StatesOf(accounts);
      assert ValidSetup(ps);
      var total := seq(|f[0]|, i => 0.0);
      ghost var curves: seq<seq<real>> := [];
      for i := 0 to |accounts|
        invariant AllValid(strategy, accounts)
        invariant Progress(strategy, ps, was, f, i, StatesOf(accounts), curves)
        invariant AddsUp(total, curves, |f[0]|)
      {
        Refusal(strategy, ps, was, f, i);
        ghost var now := StatesOf(accounts);
        if !SameTimes(f[0], f[i]) {
          assert StoppedAt(strategy, ps, was, f, i, now);
          return Err(InvalidInput);
        }
        assert accounts[i].params == ps[i] && now[i] == was[i];
        var equity := ConsumeOne(i, f[i], now);
        if equity.Err? {
          assert StoppedAt(strategy, ps, was, f, i, StatesOf(accounts));
          return Err(InvalidInput);
        }
        NextProgress(strategy, ps, was, f, i, now, curves, total);
        curves := curves + [equity.value];
        total := Added(total, equity.value);
      }
      Finished(strategy, ps, was, f, StatesOf(accounts), curves, total);
      return Ok(total);
    }

    /** One batch for the whole portfolio, as specified. */
    method Consume(frames: map<string, seq<Bar>>) returns (r: Result<()>)
      requires Valid()
      modifies this, ReprOf(accounts)
      ensures Valid() && ValidSetup(ParamsOf(accounts))
      ensures frames.Keys != (set s | s in symbols) ==> r.Err? && State() == old(State())
      ensures frames.Keys == (set s | s in symbols) ==>
                && (forall i :: 0 <= i < |symbols| ==> symbols[i] in frames)
                && var after := PortBatch(strategy, ParamsOf(accounts), old(State()), Selected(symbols, frames));
                   && r.Ok? == after.Ok? && (r.Ok? ==> State() == after.value)
                   && (r.Err? ==> exists k: nat ::
                         LeavesPartly(strategy, ParamsOf(accounts), old(State()),
                                      Selected(symbols, frames), k, State()))
    {
      SetupIsValid(strategy, accounts);
      if frames.Keys != (set s | s in symbols) {
        return Err(InvalidInput);
      }
      EverySymbolPresent(symbols, frames);
      ghost var port := State();
      var consumed := ConsumeAccounts(Selected(symbols, frames));
      if consumed.Err? {
        ghost var f, ps := Selected(symbols, frames), ParamsOf(accounts);
        ghost var k: nat :| StoppedAt(strategy, ps, port.accounts, f, k, StatesOf(accounts));
        assert LeavesPartly(strategy, ps, port, f, k, State());
        return Err(consumed.error);
      }
      var totals := consumed.value;
      Record(totals, port);
      return Ok(());
    }

    /** Enters a batch of totals; an empty batch leaves everything as it was. */
    method Record(totals: seq<real>, ghost port: Port)
      requires peak > 0.0 && |symbols| == |accounts|
      requires port.watch == Watch(peak, drawdown) && port.rows == rows && port.curve == curve
      modifies this
      ensures peak > 0.0
      ensures State() == Recorded(port, old(StatesOf(accounts)), totals)
    {
      if totals != [] {
        peak, drawdown := UpdateWatch(peak, drawdown, totals);
        curve := curve + totals;
        rows := rows + Product(|totals|, |symbols|);
      } else {
        assert curve + totals == curve;
      }
    }
  }

  ghost predicate Distinct(symbols: seq<string>) {
    forall i, j :: 0 <= i < j < |symbols| ==> symbols[i] != symbols[j]
  }

  /** A symbol's trading parameters from the portfolio's settings in basis points. */
  function Settings(symbol: string, scale: real, feeBps: real, slippageBps: real): Params {
    Params(symbol, scale, feeBps / 10000.0, slippageBps / 10000.0)
  }

  /** Ten thousand basis points are the whole: 10 of them are a fee of 0.001. */
  lemma SettingsScale(symbol: string, scale: real, feeBps: real, slippageBps: real)
    ensures var p := Settings(symbol, scale, feeBps, slippageBps);
            && p.symbol == symbol && p.scale == scale
            && p.fee * 10000.0 == feeBps && p.slippage * 10000.0 == slippageBps
    ensures Settings(symbol, scale, 10.0, slippageBps).fee == 0.001
  {
  }

  ghost predicate Opened(
      strategy: Strategy, symbols: seq<string>, scale: real, feeBps: real, slippageBps: real, share: real,
      accounts: seq<Account>)
    reads ReprOf(accounts)
  {
    && |accounts| <= |symbols| && Separate(accounts) && AllValid(strategy, accounts)
    && forall i :: 0 <= i < |accounts| ==>
         && accounts[i].params == Settings(symbols[i], scale, feeBps, slippageBps)
         && accounts[i].State() == Acct(Books(share, 0.0, []), false, None, None, [])
  }

  /** Opens one account per symbol with an equal share of the capital, or refuses the parameters. */
  method Open(
      strategy: Strategy, symbols: seq<string>, scale: real, capital: real, feeBps: real, slippageBps: real)
    returns (r: Result<BacktestRun>)
    ensures r.Ok? <==>
              && symbols != [] && Distinct(symbols)
              && scale > 0.0 && capital > 0.0 && feeBps >= 0.0 && 0.0 <= slippageBps < 10000.0
    ensures r.Ok? ==> r.value.Valid() && r.value.strategy == strategy && r.value.symbols == symbols
    ensures r.Ok? ==> forall i :: 0 <= i < |symbols| ==>
              r.value.accounts[i].params == Settings(symbols[i], scale, feeBps, slippageBps)
    ensures r.Ok? ==> r.value.State() == Opening(ParamsOf(r.value.accounts), capital)
    ensures r.Ok? ==> forall i :: 0 <= i < |symbols| ==>
              && r.value.accounts[i].cash * |symbols| as real == capital && r.value.accounts[i].units == 0.0
              && r.value.accounts[i].trades == [] && !r.value.accounts[i].pending
              && r.value.accounts[i].params.symbol == symbols[i] && r.value.accounts[i].params.scale == scale
              && r.value.accounts[i].params.fee * 10000.0 == feeBps
              && r.value.accounts[i].params.slippage * 10000.0 == slippageBps
    ensures r.Ok? ==> r.value.peak == capital && r.value.drawdown == 0.0 && r.value.rows == 0 && r.value.curve == []
  {
    if symbols == [] || scale <= 0.0 || capital <= 0.0 || feeBps < 0.0 || !(0.0 <= slippageBps < 10000.0) {
      return Err(InvalidInput);
    }
    if !(forall i, j :: 0 <= i < j < |symbols| ==> symbols[i] != symbols[j]) {
      return Err(InvalidInput);
    }
    var share := capital / |symbols| as real;
    ShareIsWhole(capital, |symbols| as real);
    var accounts := OpenAccounts(strategy, symbols, scale, feeBps, slippageBps, share);
    var run := new BacktestRun(strategy, symbols, accounts, capital);
    assert run.State().accounts == Opening(ParamsOf(accounts), capital).accounts;
    return Ok(run);
  }

  lemma ShareIsWhole(capital: real, n: real)
    requires n != 0.0
    ensures capital / n * n == capital
  {
  }

  method OpenAccounts(
      strategy: Strategy, symbols: seq<string>, scale: real, feeBps: real, slippageBps: real, share: real)
    returns (accounts: seq<Account>)
    requires scale > 0.0 && feeBps >= 0.0 && 0.0 <= slippageBps < 10000.0
    ensures |accounts| == |symbols| && Opened(strategy, symbols, scale, feeBps, slippageBps, share, accounts)
  {
    accounts := [];
    for i := 0 to |symbols|
      invariant |accounts| == i
      invariant Opened(strategy, symbols, scale, feeBps, slippageBps, share, accounts)
    {
      accounts := OpenNext(strategy, symbols, scale, feeBps, slippageBps, share, accounts);
    }
  }

  /** A new account shares nothing with the existing ones. */
  method OpenNext(
      strategy: Strategy, symbols: seq<string>, scale: real, feeBps: real, slippageBps: real, share: real,
      accounts: seq<Account>)
    returns (more: seq<Account>)
    requires scale > 0.0 && feeBps >= 0.0 && 0.0 <= slippageBps < 10000.0 && |accounts| < |symbols|
    requires Opened(strategy, symbols, scale, feeBps, slippageBps, share, accounts)
    ensures |more| == |accounts| + 1
    ensures Opened(strategy, symbols, scale, feeBps, slippageBps, share, more)
  {
    var account := new Account(strategy, share, Settings(symbols[|accounts|], scale, feeBps, slippageBps));
    more := accounts + [account];
  }

  lemma SetupIsValid(strategy: Strategy, accounts: seq<Account>)
    requires accounts != [] && AllValid(strategy, accounts)
    ensures ValidSetup(ParamsOf(accounts))
  {
  }

  lemma EverySymbolPresent(symbols: seq<string>, frames: map<string, seq<Bar>>)
    requires frames.Keys == (set s | s in symbols)
    ensures forall i :: 0 <= i < |symbols| ==> symbols[i] in frames
  {
    assert forall i :: 0 <= i < |symbols| ==> symbols[i] in symbols;
  }

  /** After `i` accounts: they have taken their step, the others have not moved. */
  ghost predicate Progress(
      strategy: Strategy, ps: seq<Params>, was: seq<Acct>, f: Frames, i: nat, now: seq<Acct>,
      curves: seq<seq<real>>)
    requires ValidSetup(ps) && |ps| == |was| == |f| == |now| && i <= |ps|
  {
    && |curves| == i
    && (forall j :: 0 <= j < i ==> SameTimes(f[0], f[j]) && |curves[j]| == |f[0]|)
    && (forall j :: 0 <= j < i ==> Batch(strategy, ps[j], was[j], f[j]) == Ok(Step(now[j], curves[j])))
    && (forall j :: i <= j < |ps| ==> now[j] == was[j])
  }

  /** Account `k` refused: those before it have taken their step, it and those behind it have not moved. */
  ghost predicate StoppedAt(
      strategy: Strategy, ps: seq<Params>, was: seq<Acct>, f: Frames, k: nat, now: seq<Acct>)
    requires ValidSetup(ps) && |ps| == |was| == |f|
  {
    && k < |ps| == |now|
    && (!SameTimes(f[0], f[k]) || Batch(strategy, ps[k], was[k], f[k]).Err?)
    && (forall j :: 0 <= j < k ==> SameTimes(f[0], f[j]) && Batch(strategy, ps[j], was[j], f[j]).Ok?)
    && (forall j :: 0 <= j < k ==> now[j] == Batch(strategy, ps[j], was[j], f[j]).value.account)
    && (forall j :: k <= j < |ps| ==> now[j] == was[j])
  }

  /** What a refused batch leaves: some accounts moved, but no curve point, row, peak or drawdown. */
  ghost predicate LeavesPartly(strategy: Strategy, ps: seq<Params>, was: Port, f: Frames, k: nat, now: Port)
    requires ValidSetup(ps) && |ps| == |was.accounts| == |f|
  {
    StoppedAt(strategy, ps, was.accounts, f, k, now.accounts) && now == was.(accounts := now.accounts)
  }

  ghost predicate AddsUp(total: seq<real>, curves: seq<seq<real>>, n: nat) {
    |total| == n && Rectangular(curves, n) && forall t :: 0 <= t < n ==> total[t] == SumAt(curves, n, t, |curves|)
  }

  lemma Refusal(strategy: Strategy, ps: seq<Params>, was: seq<Acct>, f: Frames, i: nat)
    requires ValidSetup(ps) && |ps| == |was| == |f| && i < |ps|
    ensures !SameTimes(f[0], f[i]) ==> !Aligned(f)
    ensures Batch(strategy, ps[i], was[i], f[i]).Err? ==> !AllAccept(strategy, ps, was, f)
  {
  }

  lemma {:induction false} NextProgress(
      strategy: Strategy, ps: seq<Params>, was: seq<Acct>, f: Frames, i: nat, now: seq<Acct>,
      curves: seq<seq<real>>, total: seq<real>)
    requires ValidSetup(ps) && |ps| == |was| == |f| == |now| && i < |ps|
    requires Progress(strategy, ps, was, f, i, now, curves) && AddsUp(total, curves, |f[0]|)
    requires SameTimes(f[0], f[i]) && Batch(strategy, ps[i], was[i], f[i]).Ok?
    ensures var step := Batch(strategy, ps[i], was[i], f[i]).value;
            && |step.equity| == |f[0]|
            && Progress(strategy, ps, was, f, i + 1, now[i := step.account], curves + [step.equity])
            && AddsUp(Added(total, step.equity), curves + [step.equity], |f[0]|)
  {
    EquityLength(strategy, ps[i], was[i], f[i]);
    NextSum(total, curves, |f[0]|, Batch(strategy, ps[i], was[i], f[i]).value.equity);
  }

  lemma {:induction false} NextSum(total: seq<real>, curves: seq<seq<real>>, n: nat, equity: seq<real>)
    requires AddsUp(total, curves, n) && |equity| == n
    ensures AddsUp(Added(total, equity), curves + [equity], n)
  {
    SumGrows(curves, n, equity);
  }

  lemma {:induction false} Finished(
      strategy: Strategy, ps: seq<Params>, was: seq<Acct>, f: Frames, now: seq<Acct>, curves: seq<seq<real>>,
      total: seq<real>)
    requires ValidSetup(ps) && |ps| == |was| == |f| == |now|
    requires Progress(strategy, ps, was, f, |ps|, now, curves) && AddsUp(total, curves, |f[0]|)
    ensures Aligned(f) && AllAccept(strategy, ps, was, f)
    ensures now == NextAccounts(strategy, ps, was, f) && total == TotalsOf(strategy, ps, was, f)
  {
    forall i, j | 0 <= i < |f| && 0 <= j < |f|
      ensures |f[i]| == |f[j]| && forall t :: 0 <= t < |f[i]| ==> f[i][t].ts == f[j][t].ts
    {
      assert SameTimes(f[0], f[i]) && SameTimes(f[0], f[j]);
    }
    assert curves == Curves(strategy, ps, was, f);
    CurvesRectangular(strategy, ps, was, f);
  }

  lemma {:induction false} SumGrows(curves: seq<seq<real>>, n: nat, equity: seq<real>)
    requires Rectangular(curves, n) && |equity| == n
    ensures Rectangular(curves + [equity], n)
    ensures forall t :: 0 <= t < n ==>
              SumAt(curves + [equity], n, t, |curves| + 1) == SumAt(curves, n, t, |curves|) + equity[t]
  {
    forall t | 0 <= t < n
      ensures SumAt(curves + [equity], n, t, |curves|) == SumAt(curves, n, t, |curves|)
    {
      SumPrefix(curves, n, equity, t, |curves|);
    }
  }

  lemma {:induction false} SumPrefix(curves: seq<seq<real>>, n: nat, equity: seq<real>, t: nat, k: nat)
    requires Rectangular(curves, n) && |equity| == n && t < n && k <= |curves|
    ensures Rectangular(curves + [equity], n)
    ensures SumAt(curves + [equity], n, t, k) == SumAt(curves, n, t, k)
  {
    if k > 0 {
      SumPrefix(curves, n, equity, t, k - 1);
    }
  }
}
