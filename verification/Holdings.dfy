/**
 What every sequence of committed transactions keeps true of portfolio holdings:
 trades move assets without making or losing any, and an average buy price never
 leaves the range of the prices that were paid.
 */
module Holdings {
  import opened Money
  import opened Arithmetic
  import opened Sums
  import opened Tables
  import opened Orders

  function Quantities(h: map<(int, int), Holding>, asset: int): map<(int, int), int> {
    map k | k in h :: if k.1 == asset then h[k].quantity else 0
  }

  /** The sum of one asset over all users. */
  ghost function Held(h: map<(int, int), Holding>, asset: int): int {
    Sum(Quantities(h, asset))
  }

  /** Without a row for the seller, a trade would make assets out of nothing. */
  predicate SellersHaveRows(t: Tables) {
    forall i :: 0 <= i < |t.orders| && t.orders[i].side == Sell ==> (t.orders[i].user, t.orders[i].asset) in t.holdings
  }

  predicate HoldingsInv(t: Tables) {
    HoldingsOk(t.holdings) && SellersHaveRows(t)
  }

  lemma HeldPut(h: map<(int, int), Holding>, k: (int, int), v: Holding, asset: int)
    ensures Held(h[k := v], asset)
         == Held(h, asset) + if k.1 == asset then v.quantity - (if k in h then h[k].quantity else 0) else 0
  {
    SumPut(Quantities(h, asset), k, if k.1 == asset then v.quantity else 0);
    assert Quantities(h[k := v], asset) == Quantities(h, asset)[k := if k.1 == asset then v.quantity else 0];
  }

  lemma TransferConserves(h: map<(int, int), Holding>, tr: Trade, scale: Scale, asset: int)
    requires HoldingsOk(h) && 0 < tr.quantity && 0 <= tr.price && tr.buyer != tr.seller
    requires (tr.seller, tr.asset) in h
    ensures var bought := Upsert(h, (tr.buyer, tr.asset), tr.quantity, tr.price, scale);
      Held(Reduce(bought, (tr.seller, tr.asset), tr.quantity), asset) == Held(h, asset)
  {
    var bk, sk := (tr.buyer, tr.asset), (tr.seller, tr.asset);
    var bought := Upsert(h, bk, tr.quantity, tr.price, scale);
    HeldPut(h, bk, bought[bk], asset);
    HeldPut(bought, sk, bought[sk].(quantity := bought[sk].quantity - tr.quantity), asset);
  }

  // ----- Weighted averages -----

  lemma ProductNonNegative(a: int, b: int)
    requires 0 <= a && 0 <= b
    ensures 0 <= a * b
  {
  }

  lemma MultiplesApart(q: int, m: int, b: int)
    requires 0 < b
    ensures q < m ==> q * b + b <= m * b
  {
    var k := m - q - 1;
    if 0 <= k {
      ProductNonNegative(k, b);
    }
    assert (q + 1 + k) * b == q * b + b + k * b;
  }

  lemma QuotientBounds(a: int, b: int, m: int)
    requires 0 < b
    ensures m * b <= a ==> m <= a / b
    ensures a < m * b + b ==> a / b <= m
  {
    assert a == (a / b) * b + a % b;
    MultiplesApart(a / b, m, b);
    MultiplesApart(m, a / b, b);
  }

  lemma HalfUpBounds(n: int, d: int, m: int)
    requires 0 <= n && 0 < d
    ensures m * d <= n ==> m <= HalfUp(n, d)
    ensures n <= m * d ==> HalfUp(n, d) <= m
  {
    assert m * (2 * d) == 2 * (m * d);
    QuotientBounds(2 * n + d, 2 * d, m);
  }

  lemma WeightedBetween(held: int, average: int, bought: int, price: int, low: int, high: int)
    requires 0 <= held && 0 < bought && low <= average <= high && low <= price <= high
    ensures low * (held + bought) <= held * average + bought * price <= high * (held + bought)
  {
    assert held * low <= held * average <= held * high;
    assert bought * low <= bought * price <= bought * high;
  }

  lemma ScaledBetween(total: int, all: int, scale: Scale, low: int, high: int)
    requires low * all <= total <= high * all
    ensures (low * scale) * all <= total * scale <= (high * scale) * all
  {
    assert (low * scale) * all == (low * all) * scale && (high * scale) * all == (high * all) * scale;
  }

  lemma RoundedTwice(total: int, all: int, scale: Scale, low: int, high: int)
    requires 0 <= total && 0 < all && low * all <= total <= high * all && 0 <= total * scale
    ensures low <= HalfUp(HalfUp(total * scale, all), scale) <= high
  {
    ScaledBetween(total, all, scale, low, high);
    HalfUpBounds(total * scale, all, low * scale);
    HalfUpBounds(total * scale, all, high * scale);
    var mean := HalfUp(total * scale, all);
    HalfUpBounds(mean, scale, low);
    HalfUpBounds(mean, scale, high);
  }

  /** Rounding twice, at any precision of the division, cannot push a mean out of the range it averages. */
  lemma AverageBetween(held: int, average: int, bought: int, price: int, scale: Scale, low: int, high: int)
    requires 0 <= held && 0 <= average && 0 < bought && 0 <= price
    requires low <= average <= high && low <= price <= high
    ensures low <= Average(held, average, bought, price, scale) <= high
  {
    WeightedBetween(held, average, bought, price, low, high);
    assert 0 <= held * average && 0 <= bought * price;
    assert 0 <= (held * average + bought * price) * scale;
    RoundedTwice(held * average + bought * price, held + bought, scale, low, high);
  }

  lemma HalfUpIsNear(n: int, d: int)
    requires 0 <= n && 0 < d
    ensures -d <= 2 * (HalfUp(n, d) * d - n) <= d
  {
    var q := HalfUp(n, d);
    assert 2 * n + d == q * (2 * d) + (2 * n + d) % (2 * d);
    assert q * (2 * d) == 2 * (q * d);
  }

  lemma ErrorsAdd(total: int, all: int, scale: Scale, mean: int, average: int)
    requires 0 < all
    requires -all <= 2 * (mean * all - total * scale) <= all
    requires 0 - scale <= 2 * (average * scale - mean) <= scale
    ensures -((scale + 1) * all) <= 2 * scale * (average * all - total) <= (scale + 1) * all
  {
    var off := 2 * (average * scale - mean);
    assert -(scale * all) <= off * all <= scale * all;
    assert off * all == 2 * (average * scale * all) - 2 * (mean * all);
    assert 2 * scale * (average * all - total) == 2 * (average * scale * all) - 2 * (total * scale);
  }

  /** The stored average is the weighted mean, off by half a unit and the precision of the division. */
  lemma AverageIsNear(held: int, average: int, bought: int, price: int, scale: Scale)
    requires 0 <= held && 0 <= average && 0 < bought && 0 <= price
    ensures var all, total := held + bought, held * average + bought * price;
      -((scale + 1) * all) <= 2 * scale * (Average(held, average, bought, price, scale) * all - total) <= (scale + 1) * all
  {
    var all, total := held + bought, held * average + bought * price;
    ProductNonNegative(held, average);
    ProductNonNegative(bought, price);
    ProductNonNegative(total, scale);
    var mean := HalfUp(total * scale, all);
    HalfUpIsNear(total * scale, all);
    HalfUpIsNear(mean, scale);
    ErrorsAdd(total, all, scale, mean, HalfUp(mean, scale));
  }

  /** Every price at which `k` was bought, and its seeded average, lies in the range. */
  predicate BoughtWithin(seed: map<(int, int), Holding>, trades: seq<Trade>, k: (int, int), low: int, high: int) {
    && (k in seed ==> low <= seed[k].average <= high)
    && (forall n :: 0 <= n < |trades| && trades[n].buyer == k.0 && trades[n].asset == k.1
          ==> low <= trades[n].price <= high)
  }

  predicate AverageWithin(h: map<(int, int), Holding>, k: (int, int), low: int, high: int) {
    k in h ==> low <= h[k].average <= high
  }

  lemma FillKeepsHoldings(h: map<(int, int), Holding>, tr: Trade, scale: Scale)
    requires HoldingsOk(h) && 0 < tr.quantity && 0 <= tr.price && tr.buyer != tr.seller
    requires (tr.seller, tr.asset) in h && tr.quantity <= h[(tr.seller, tr.asset)].quantity
    ensures var bought := Upsert(h, (tr.buyer, tr.asset), tr.quantity, tr.price, scale);
      var moved := Reduce(bought, (tr.seller, tr.asset), tr.quantity);
      HoldingsOk(moved) && h.Keys <= moved.Keys
  {
    var k := (tr.buyer, tr.asset);
    if k in h {
      var top := if h[k].average <= tr.price then tr.price else h[k].average;
      AverageBetween(h[k].quantity, h[k].average, tr.quantity, tr.price, scale, 0, top);
    }
  }

  lemma FillKeepsHoldingsInv(m: Maths, t: Tables, i: nat, j: nat, scale: Scale)
    requires OrdersInv(m, t) && HoldingsInv(t) && Enabled(m, t, Fill(i, j, scale))
    ensures HoldingsInv(After(m, t, Fill(i, j, scale)))
    ensures t.holdings.Keys <= After(m, t, Fill(i, j, scale)).holdings.Keys
  {
    MatchIsTradeOk(t.orders, i, j);
    FillKeepsHoldings(t.holdings, Match(t.orders, i, j), scale);
  }

  lemma StepKeepsHoldings(m: Maths, t: Tables, c: Commit)
    requires OrdersInv(m, t) && HoldingsInv(t)
    ensures HoldingsInv(Step(m, t, c))
    ensures t.holdings.Keys <= Step(m, t, c).holdings.Keys
  {
    if Enabled(m, t, c) && c.Fill? {
      FillKeepsHoldingsInv(m, t, c.incoming, c.candidate, c.scale);
    }
  }

  lemma StepConservesHoldings(m: Maths, t: Tables, c: Commit, asset: int)
    requires OrdersInv(m, t) && HoldingsInv(t)
    ensures Held(Step(m, t, c).holdings, asset) == Held(t.holdings, asset)
  {
    if Enabled(m, t, c) && c.Fill? {
      MatchIsTradeOk(t.orders, c.incoming, c.candidate);
      TransferConserves(t.holdings, Match(t.orders, c.incoming, c.candidate), c.scale, asset);
    }
  }

  lemma StepKeepsAverage(m: Maths, seed: map<(int, int), Holding>, t: Tables, c: Commit, k: (int, int), low: int, high: int)
    requires OrdersInv(m, t) && HoldingsInv(t)
    requires AverageWithin(t.holdings, k, low, high)
    requires BoughtWithin(seed, Step(m, t, c).trades, k, low, high)
    ensures AverageWithin(Step(m, t, c).holdings, k, low, high)
  {
    if Enabled(m, t, c) && c.Fill? {
      MatchIsTradeOk(t.orders, c.incoming, c.candidate);
      var tr := Match(t.orders, c.incoming, c.candidate);
      var trades := Step(m, t, c).trades;
      assert trades[|trades| - 1] == tr;
      if k == (tr.buyer, tr.asset) && k in t.holdings {
        AverageBetween(t.holdings[k].quantity, t.holdings[k].average, tr.quantity, tr.price, c.scale, low, high);
      }
    }
  }
}
