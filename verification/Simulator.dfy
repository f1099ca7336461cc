/** The reference: one account, one bar at a time. */
module Simulator {
  import opened Bytes

  datatype Bar = Bar(ts: i64, open: i64, close: i64)

  datatype Params = Params(symbol: string, scale: real, fee: real, slippage: real)

  /** What the portfolio constructor accepts; note that the fee is not bounded above. */
  predicate ValidParams(p: Params) {
    p.scale > 0.0 && p.fee >= 0.0 && 0.0 <= p.slippage < 1.0
  }

  datatype Fill = Fill(
    symbol: string, ts: i64, buy: bool, price: real, quantity: real, quantityAfter: real, fee: real, cashAfter: real)

  datatype Books = Books(cash: real, units: real, trades: seq<Fill>)

  /** Slippage is adverse: a buyer pays more than the quote, a seller gets less. */
  function ExecutionPrice(p: Params, quoted: real, buy: bool): real {
    quoted * (if buy then 1.0 + p.slippage else 1.0 - p.slippage)
  }

  /** What one unit costs at this price, with the fee on top. */
  function UnitCost(p: Params, price: real): real {
    price * (1.0 + p.fee)
  }

  function FeeOn(p: Params, units: real, price: real): real {
    units * price * p.fee
  }

  lemma CostIsPositive(p: Params, quoted: real)
    requires ValidParams(p) && quoted > 0.0
    ensures UnitCost(p, ExecutionPrice(p, quoted, true)) > 0.0
  {
    PositiveProduct(quoted, 1.0 + p.slippage);
    PositiveProduct(quoted * (1.0 + p.slippage), 1.0 + p.fee);
  }

  /** All cash into units, or all units into cash, with adverse slippage and a proportional fee. */
  function Trade(p: Params, b: Books, ts: i64, quoted: real, buy: bool): Books
    requires ValidParams(p) && quoted > 0.0
  {
    var price := ExecutionPrice(p, quoted, buy);
    if buy then
      CostIsPositive(p, quoted);
      var units := b.cash / UnitCost(p, price);
      Books(0.0, units, b.trades + [Fill(p.symbol, ts, true, price, units, units, FeeOn(p, units, price), 0.0)])
    else
      var fee := FeeOn(p, b.units, price);
      var cash := b.units * price - fee;
      Books(cash, 0.0, b.trades + [Fill(p.symbol, ts, false, price, b.units, 0.0, fee, cash)])
  }

  lemma PositiveProduct(a: real, b: real)
    requires a > 0.0 && b > 0.0
    ensures a * b > 0.0
  {
  }

  function Quote(p: Params, price: i64): real
    requires ValidParams(p)
  {
    price as real / p.scale
  }

  /** Prices are integers in units of one over the scale. */
  lemma QuoteScales(p: Params, price: i64)
    requires ValidParams(p)
    ensures Quote(p, price) * p.scale == price as real
  {
  }

  function Mark(b: Books, close: real): real {
    b.cash + b.units * close
  }

  /** `position` is the target executed last; `pending` is the one decided at the last close. */
  datatype Sim = Sim(books: Books, position: bool, pending: bool, equity: seq<real>)

  predicate Tradable(bar: Bar) {
    bar.open > 0 && bar.close > 0
  }

  /** Execute the previous bar's target at this open if it changes the position, then mark at this close. */
  function SimBar(p: Params, s: Sim, bar: Bar, desired: bool): Sim
    requires ValidParams(p) && Tradable(bar)
  {
    var books := if s.pending != s.position then Trade(p, s.books, bar.ts, Quote(p, bar.open), s.pending) else s.books;
    Sim(books, s.pending, desired, s.equity + [Mark(books, Quote(p, bar.close))])
  }

  function SimTo(p: Params, s: Sim, bars: seq<Bar>, desired: seq<bool>, i: nat): (r: Sim)
    requires ValidParams(p) && i <= |bars| == |desired|
    requires forall k :: 0 <= k < |bars| ==> Tradable(bars[k])
    ensures |r.equity| == |s.equity| + i
  {
    if i == 0 then s else SimBar(p, SimTo(p, s, bars, desired, i - 1), bars[i - 1], desired[i - 1])
  }

  lemma {:induction false} SimPrefix(
      p: Params, s: Sim, bars: seq<Bar>, desired: seq<bool>, bars': seq<Bar>, desired': seq<bool>, i: nat)
    requires ValidParams(p) && |bars| == |desired| && |bars'| == |desired'| && i <= |bars|
    requires forall k :: 0 <= k < |bars + bars'| ==> Tradable((bars + bars')[k])
    requires forall k :: 0 <= k < |bars| ==> Tradable(bars[k])
    ensures SimTo(p, s, bars + bars', desired + desired', i) == SimTo(p, s, bars, desired, i)
  {
    if i > 0 {
      SimPrefix(p, s, bars, desired, bars', desired', i - 1);
    }
  }

  /** Simulating on from where a first stretch ended is simulating the whole. */
  lemma {:induction false} SimAppend(
      p: Params, s: Sim, bars: seq<Bar>, desired: seq<bool>, bars': seq<Bar>, desired': seq<bool>, i: nat)
    requires ValidParams(p) && |bars| == |desired| && |bars'| == |desired'| && i <= |bars'|
    requires forall k :: 0 <= k < |bars + bars'| ==> Tradable((bars + bars')[k])
    requires forall k :: 0 <= k < |bars| ==> Tradable(bars[k])
    requires forall k :: 0 <= k < |bars'| ==> Tradable(bars'[k])
    ensures SimTo(p, s, bars + bars', desired + desired', |bars| + i)
         == SimTo(p, SimTo(p, s, bars, desired, |bars|), bars', desired', i)
  {
    if i == 0 {
      SimPrefix(p, s, bars, desired, bars', desired', |bars|);
    } else {
      SimAppend(p, s, bars, desired, bars', desired', i - 1);
    }
  }

  /** The equity curve only grows, and its starting content does not matter. */
  lemma {:induction false} SimEquity(p: Params, s: Sim, bars: seq<Bar>, desired: seq<bool>, i: nat)
    requires ValidParams(p) && i <= |bars| == |desired|
    requires forall k :: 0 <= k < |bars| ==> Tradable(bars[k])
    ensures var blank := SimTo(p, s.(equity := []), bars, desired, i);
            SimTo(p, s, bars, desired, i) == blank.(equity := s.equity + blank.equity)
  {
    if i > 0 {
      SimEquity(p, s, bars, desired, i - 1);
      var before := SimTo(p, s.(equity := []), bars, desired, i - 1);
      var books := SimTo(p, s, bars, desired, i).books;
      PlusAssociates(s.equity, before.equity, [Mark(books, Quote(p, bars[i - 1].close))]);
    } else {
      assert s.equity + [] == s.equity;
    }
  }

  // What a trade is worth

  /** Nothing appears or vanishes but the fee: money spent or received is quantity times price, fee aside. */
  lemma {:induction false} TradeConserves(p: Params, b: Books, ts: i64, quoted: real, buy: bool)
    requires ValidParams(p) && quoted > 0.0
    ensures var after := Trade(p, b, ts, quoted, buy);
            && |after.trades| == |b.trades| + 1 && after.trades[..|b.trades|] == b.trades
            && var f := after.trades[|b.trades|];
               && f.buy == buy && f.ts == ts && f.symbol == p.symbol
               && f.quantityAfter == after.units && f.cashAfter == after.cash
               && f.price == quoted * (if buy then 1.0 + p.slippage else 1.0 - p.slippage)
               && f.fee == f.quantity * f.price * p.fee
               && (buy ==> after.cash == 0.0 && f.quantity == after.units && b.cash == f.quantity * f.price + f.fee)
               && (!buy ==> after.units == 0.0 && f.quantity == b.units && f.quantity * f.price == after.cash + f.fee)
  {
    if buy {
      var price := quoted * (1.0 + p.slippage);
      PositiveProduct(quoted, 1.0 + p.slippage);
      PositiveProduct(price, 1.0 + p.fee);
      AllCashSpent(b.cash, price, p.fee);
    }
  }

  lemma AllCashSpent(cash: real, price: real, fee: real)
    requires price * (1.0 + fee) != 0.0
    ensures var units := cash / (price * (1.0 + fee));
            cash == units * price + units * price * fee
  {
    var cost := price * (1.0 + fee);
    var units := cash / cost;
    assert units * cost == cash;
    assert units * cost == units * price + units * price * fee;
  }

  /** Slippage and fee only ever cost: at the quoted price a trade never gains. */
  lemma {:induction false} TradeNeverGains(p: Params, b: Books, ts: i64, quoted: real, buy: bool)
    requires ValidParams(p) && quoted > 0.0 && b.cash >= 0.0 && b.units >= 0.0
    requires if buy then b.units == 0.0 else b.cash == 0.0
    ensures Mark(Trade(p, b, ts, quoted, buy), quoted) <= Mark(b, quoted)
  {
    var price := ExecutionPrice(p, quoted, buy);
    SlippageIsAdverse(p, quoted);
    TradeConserves(p, b, ts, quoted, buy);
    if buy {
      BuyerPays(Trade(p, b, ts, quoted, true).units, price, quoted, p.fee, b.cash);
    } else {
      SellerGets(b.units, price, quoted, p.fee);
    }
  }

  lemma SlippageIsAdverse(p: Params, quoted: real)
    requires ValidParams(p) && quoted > 0.0
    ensures ExecutionPrice(p, quoted, true) >= quoted >= ExecutionPrice(p, quoted, false) > 0.0
  {
    var kept := 1.0 - p.slippage;
    NonnegativeProduct(quoted, p.slippage);
    PositiveProduct(quoted, kept);
    assert ExecutionPrice(p, quoted, true) == quoted + quoted * p.slippage;
    assert ExecutionPrice(p, quoted, false) == quoted * kept;
    assert quoted * kept == quoted - quoted * p.slippage;
  }

  lemma BuyerPays(units: real, price: real, quoted: real, fee: real, cash: real)
    requires price >= quoted > 0.0 && fee >= 0.0 && cash >= 0.0
    requires cash == units * price + units * price * fee
    ensures units * quoted <= cash
  {
    var gross := units * price;
    assert cash == gross * (1.0 + fee);
    if gross < 0.0 {
      NegativeProduct(gross, 1.0 + fee);
    }
    NonnegativeProduct(gross, fee);
    if units < 0.0 {
      NegativeProduct(units, price);
    }
    NonnegativeProduct(units, price - quoted);
    assert units * (price - quoted) == gross - units * quoted;
  }

  lemma SellerGets(units: real, price: real, quoted: real, fee: real)
    requires units >= 0.0 && 0.0 < price <= quoted && fee >= 0.0
    ensures units * price - units * price * fee <= units * quoted
  {
    NonnegativeProduct(units, price);
    NonnegativeProduct(units * price, fee);
    NonnegativeProduct(units, quoted - price);
    assert units * (quoted - price) == units * quoted - units * price;
  }

  lemma NonnegativeProduct(a: real, b: real)
    requires a >= 0.0 && b >= 0.0
    ensures a * b >= 0.0
  {
  }

  lemma NegativeProduct(a: real, b: real)
    requires a < 0.0 && b > 0.0
    ensures a * b < 0.0
  {
  }

  // Exactly one side of the account is in use

  ghost predicate OneSided(s: Sim) {
    && (s.position <==> s.books.units != 0.0)
    && (s.position <==> s.books.cash == 0.0)
  }

  lemma NonzeroProduct(a: real, b: real)
    requires a != 0.0 && b != 0.0
    ensures a * b != 0.0
  {
  }

  lemma NonzeroQuotient(a: real, b: real)
    requires a != 0.0 && b != 0.0
    ensures a / b != 0.0
  {
    assert (a / b) * b == a;
  }

  /** A full sale returns `units * price * (1 - fee)`, which vanishes exactly at a 100% fee. */
  lemma SaleProceeds(units: real, price: real, fee: real)
    requires units != 0.0 && price != 0.0
    ensures units * price - units * price * fee == 0.0 <==> fee == 1.0
  {
    var gross := units * price;
    NonzeroProduct(units, price);
    assert gross - gross * fee == gross * (1.0 - fee);
    if fee != 1.0 {
      NonzeroProduct(gross, 1.0 - fee);
    }
  }

  lemma {:induction false} BarKeepsOneSided(p: Params, s: Sim, bar: Bar, desired: bool)
    requires ValidParams(p) && p.fee != 1.0 && Tradable(bar) && OneSided(s)
    ensures OneSided(SimBar(p, s, bar, desired))
  {
    if s.pending != s.position {
      var quoted := Quote(p, bar.open);
      var price := ExecutionPrice(p, quoted, s.pending);
      SlippageIsAdverse(p, quoted);
      if s.pending {
        CostIsPositive(p, quoted);
        NonzeroQuotient(s.books.cash, UnitCost(p, price));
      } else {
        SaleProceeds(s.books.units, price, p.fee);
      }
    }
  }

  lemma {:induction false} SimKeepsOneSided(p: Params, s: Sim, bars: seq<Bar>, desired: seq<bool>, i: nat)
    requires ValidParams(p) && p.fee != 1.0 && OneSided(s) && i <= |bars| == |desired|
    requires forall k :: 0 <= k < |bars| ==> Tradable(bars[k])
    ensures OneSided(SimTo(p, s, bars, desired, i))
  {
    if i > 0 {
      SimKeepsOneSided(p, s, bars, desired, i - 1);
      BarKeepsOneSided(p, SimTo(p, s, bars, desired, i - 1), bars[i - 1], desired[i - 1]);
    }
  }
}
