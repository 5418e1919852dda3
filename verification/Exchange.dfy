/**
 The promises of the exchange over whole runs: for every seeding of the holdings and
 every sequence of transactions, in whatever order their commits interleave and
 whichever of them roll back.
 */
module Exchange {
  import opened Money
  import opened Arithmetic
  import opened Tables
  import opened Columns
  import opened Orders
  import opened Ledger
  import opened Holdings

  type Seeds = map<(int, int), Holding>

  ghost predicate Inv(m: Maths, t: Tables) {
    OrdersInv(m, t) && LedgerInv(m, t) && HoldingsInv(t)
  }

  lemma StepKeepsInv(m: Maths, t: Tables, c: Commit)
    requires Inv(m, t)
    ensures Inv(m, Step(m, t, c))
  {
    StepKeepsOrders(m, t, c);
    StepKeepsLedger(m, t, c);
    StepKeepsHoldings(m, t, c);
  }

  lemma {:induction false} RunKeepsInv(m: Maths, seed: Seeds, cs: seq<Commit>)
    requires HoldingsOk(seed)
    ensures Inv(m, Run(m, seed, cs))
  {
    if cs != [] {
      RunKeepsInv(m, seed, cs[..|cs| - 1]);
      StepKeepsInv(m, Run(m, seed, cs[..|cs| - 1]), cs[|cs| - 1]);
    }
  }

  // ----- Orders -----

  /**
   Fills are exactly the trades, and the status says how far they have come: FILLED is what the
   comparison after the last fill made of it. It is never early, and a single fill never misses.
   */
  lemma OrdersAreAccounted(m: Maths, seed: Seeds, cs: seq<Commit>, id: nat)
    requires HoldingsOk(seed) && id < |Run(m, seed, cs).orders|
    ensures var t := Run(m, seed, cs);
      var o := t.orders[id];
      && o.filled == TradedBy(t.trades, id) && 0 <= o.filled <= o.quantity
      && (o.status == Pending <==> o.IsOpen() && o.filled == 0)
      && (o.status == Filled <==> Completed(m, t.trades, id, o.quantity))
      && (o.status == Filled ==> o.Remaining() == 0)
      && (FillsOf(t.trades, id) == 1 && o.Remaining() == 0 ==> o.status == Filled)
  {
    var t := Run(m, seed, cs);
    RunKeepsInv(m, seed, cs);
    assert OrderOk(t.orders[id]);
    if FillsOf(t.trades, id) == 1 && t.orders[id].Remaining() == 0 {
      SingleFill(m, t.trades, id, t.orders[id].quantity);
    }
  }

  lemma {:induction false} NoFills(trades: seq<Trade>, id: nat)
    requires FillsOf(trades, id) == 0
    ensures TradedBy(trades, id) == 0
  {
    if trades != [] {
      NoFills(trades[..|trades| - 1], id);
    }
  }

  lemma {:induction false} SingleFill(m: Maths, trades: seq<Trade>, id: nat, quantity: int)
    requires FillsOf(trades, id) == 1 && 0 <= quantity == TradedBy(trades, id)
    ensures Completed(m, trades, id, quantity)
  {
    var rest, last := trades[..|trades| - 1], trades[|trades| - 1];
    if last.buy == id || last.sell == id {
      NoFills(rest, id);
    } else {
      SingleFill(m, rest, id, quantity);
    }
  }

  lemma ProgressComposes(t: Tables, u: Tables, v: Tables)
    requires OrdersProgress(t, u) && OrdersProgress(u, v)
    ensures OrdersProgress(t, v)
  {
  }

  /** FILLED and CANCELLED absorb, fills never shrink, and everything else about an order is fixed. */
  lemma {:induction false} OrdersOnlyProgress(m: Maths, seed: Seeds, cs: seq<Commit>, ds: seq<Commit>)
    requires HoldingsOk(seed)
    ensures OrdersProgress(Run(m, seed, cs), Run(m, seed, cs + ds))
  {
    if ds == [] {
      assert cs + ds == cs;
    } else {
      var before, last := ds[..|ds| - 1], ds[|ds| - 1];
      OrdersOnlyProgress(m, seed, cs, before);
      RunKeepsInv(m, seed, cs + before);
      assert cs + ds == (cs + before) + [last];
      StepsAppend(m, Seed(seed), cs + before, last);
      ProgressOneMore(m, Run(m, seed, cs), Run(m, seed, cs + before), last);
    }
  }

  lemma ProgressOneMore(m: Maths, t: Tables, u: Tables, c: Commit)
    requires OrdersProgress(t, u) && OrdersInv(m, u)
    ensures OrdersProgress(t, Step(m, u, c))
  {
    StepProgress(m, u, c);
    ProgressComposes(t, u, Step(m, u, c));
  }

  lemma LaterRunProgresses(m: Maths, seed: Seeds, cs: seq<Commit>, ds: seq<Commit>, t: Tables, u: Tables)
    requires HoldingsOk(seed) && cs <= ds && t == Run(m, seed, cs) && u == Run(m, seed, ds)
    ensures OrdersProgress(t, u)
  {
    OrdersOnlyProgress(m, seed, cs, ds[|cs|..]);
    assert cs + ds[|cs|..] == ds;
  }

  /** A fill takes the traded quantity off two orders, leaves nothing of one of them, and trades at the resting one's price. */
  lemma FillTouchesTwoOrders(m: Maths, t: Tables, i: nat, c: nat, scale: Scale)
    requires Inv(m, t) && Enabled(m, t, Fill(i, c, scale))
    ensures var u, tr := Step(m, t, Fill(i, c, scale)), Match(t.orders, i, c);
      && tr.price == t.orders[c].price && {tr.buy, tr.sell} == {i, c}
      && u.trades == t.trades + [tr]
      && |u.orders| == |t.orders|
      && (forall k :: 0 <= k < |t.orders| ==>
            u.orders[k].Remaining() == t.orders[k].Remaining() - if k == i || k == c then tr.quantity else 0)
      && (u.orders[i].Remaining() == 0 || u.orders[c].Remaining() == 0)
      && (forall k :: 0 <= k < |t.orders| && k != i && k != c ==> u.orders[k] == t.orders[k])
  {
    MatchIsTradeOk(t.orders, i, c);
    assert OrderOk(t.orders[i]) && OrderOk(t.orders[c]);
  }

  /** A fill moves the buyer's balance down and the seller's up, each to the nearest unit, and no other. */
  lemma FillTouchesTwoWallets(m: Maths, t: Tables, i: nat, c: nat, scale: Scale)
    requires Inv(m, t) && Enabled(m, t, Fill(i, c, scale))
    ensures var u, tr := Step(m, t, Fill(i, c, scale)), Match(t.orders, i, c);
      && u.wallets.Keys == t.wallets.Keys
      && (forall w :: w in t.wallets && w != tr.buyer && w != tr.seller ==> u.wallets[w] == t.wallets[w])
      && IsRounding(tr.Cost(), t.wallets[tr.buyer].balance - u.wallets[tr.buyer].balance)
      && IsRounding(tr.Cost(), u.wallets[tr.seller].balance - t.wallets[tr.seller].balance)
      && IsRounding(tr.Cost(), tr.Row(m))
  {
    MatchIsTradeOk(t.orders, i, c);
    var tr := Match(t.orders, i, c);
    TradeRounds(m, tr.price, tr.quantity, t.wallets[tr.buyer].balance);
    TradeRounds(m, tr.price, tr.quantity, t.wallets[tr.seller].balance);
  }

  /** A fill moves the traded quantity from the seller's holding to the buyer's, and touches no other. */
  lemma FillTouchesTwoHoldings(m: Maths, t: Tables, i: nat, c: nat, scale: Scale)
    requires Inv(m, t) && Enabled(m, t, Fill(i, c, scale))
    ensures var u, tr := Step(m, t, Fill(i, c, scale)), Match(t.orders, i, c);
      var bought, sold := (tr.buyer, tr.asset), (tr.seller, tr.asset);
      && u.holdings.Keys == t.holdings.Keys + {bought}
      && (forall h :: h in t.holdings && h != bought && h != sold ==> u.holdings[h] == t.holdings[h])
      && u.holdings[bought].quantity == tr.quantity + (if bought in t.holdings then t.holdings[bought].quantity else 0)
      && sold in t.holdings && u.holdings[sold] == t.holdings[sold].(quantity := t.holdings[sold].quantity - tr.quantity)
  {
    MatchIsTradeOk(t.orders, i, c);
  }

  /** An average after a purchase: the price of a first one, and then the weighted mean to half a unit and a bit. */
  predicate AverageIsSet(h: map<(int, int), Holding>, u: map<(int, int), Holding>, k: (int, int), quantity: int, price: int, scale: Scale) {
    k in u
    && if k !in h then u[k].average == price
       else
         var all, total := u[k].quantity, h[k].quantity * h[k].average + quantity * price;
         -((scale + 1) * all) <= 2 * scale * (u[k].average * all - total) <= (scale + 1) * all
  }

  /** A fill sets the buyer's average, and only that. */
  lemma FillSetsAverage(m: Maths, t: Tables, i: nat, c: nat, scale: Scale)
    requires Inv(m, t) && Enabled(m, t, Fill(i, c, scale))
    ensures var u, tr := Step(m, t, Fill(i, c, scale)), Match(t.orders, i, c);
      AverageIsSet(t.holdings, u.holdings, (tr.buyer, tr.asset), tr.quantity, tr.price, scale)
  {
    MatchIsTradeOk(t.orders, i, c);
    var tr := Match(t.orders, i, c);
    TransferSetsAverage(t.holdings, tr, scale);
  }

  lemma TransferSetsAverage(h: map<(int, int), Holding>, tr: Trade, scale: Scale)
    requires HoldingsOk(h) && 0 < tr.quantity && 0 <= tr.price && tr.buyer != tr.seller
    ensures var bought := Upsert(h, (tr.buyer, tr.asset), tr.quantity, tr.price, scale);
      AverageIsSet(h, Reduce(bought, (tr.seller, tr.asset), tr.quantity), (tr.buyer, tr.asset), tr.quantity, tr.price, scale)
  {
    var k := (tr.buyer, tr.asset);
    if k in h {
      AverageIsNear(h[k].quantity, h[k].average, tr.quantity, tr.price, scale);
    }
  }

  // ----- When a fill goes through -----

  lemma SurelyBalances(m: Maths, buyer: int, seller: int, price: int, quantity: int)
    requires 0 <= price && 0 <= quantity && IsBalance(buyer) && IsBalance(seller)
    requires Cost(price, quantity) + 1.0 <= buyer as real
    requires seller as real + Cost(price, quantity) + 1.0 < NUMERIC_LIMIT as real
    ensures var cost := m.cost(Wide, price, quantity);
      && Fits(Nearest(cost)) && m.covers(Wide, buyer, cost)
      && IsBalance(m.minus(Wide, buyer, cost)) && IsBalance(m.plus(Wide, seller, cost))
  {
    var cost := m.cost(Wide, price, quantity);
    CostNonNegative(price, quantity);
    assert IsNear(cost, Cost(price, quantity), Cost(price, quantity) * 0.00000000000000000000000000001);
    assert m.covers(Wide, buyer, cost);
    assert IsNear(m.minus(Wide, buyer, cost) as real, buyer as real - cost, 0.500000001);
    assert IsNear(m.plus(Wide, seller, cost) as real, seller as real + cost, 0.500000001);
  }

  lemma SurelyUncovered(m: Maths, buyer: int, price: int, quantity: int)
    requires 0 <= price && 0 <= quantity && IsBalance(buyer) && buyer as real + 1.0 < Cost(price, quantity)
    ensures !m.covers(Wide, buyer, m.cost(Wide, price, quantity))
  {
    CostNonNegative(price, quantity);
    assert IsNear(m.cost(Wide, price, quantity), Cost(price, quantity),
                  Cost(price, quantity) * 0.00000000000000000000000000001);
  }

  /** With a unit to spare and holdings to match, a fill of two orders that can meet is enabled. */
  lemma SurelyEnabled(m: Maths, t: Tables, i: nat, c: nat, scale: Scale)
    requires Inv(m, t) && CanMeet(t.orders, i, c)
    requires var tr := Match(t.orders, i, c); SurelyPays(t, tr.buyer, tr.seller, tr.asset, tr.price, tr.quantity)
    ensures Enabled(m, t, Fill(i, c, scale))
  {
    var tr := Match(t.orders, i, c);
    assert OrderOk(t.orders[i]) && OrderOk(t.orders[c]);
    MatchIsTradeOk(t.orders, i, c);
    SurelyBalances(m, t.wallets[tr.buyer].balance, t.wallets[tr.seller].balance, tr.price, tr.quantity);
  }

  lemma SurelyDisabled(m: Maths, t: Tables, i: nat, c: nat, scale: Scale)
    requires Inv(m, t) && CanMeet(t.orders, i, c)
    requires var tr := Match(t.orders, i, c); SurelyFails(t, tr.buyer, tr.seller, tr.asset, tr.price, tr.quantity)
    ensures !Enabled(m, t, Fill(i, c, scale))
  {
    var tr := Match(t.orders, i, c);
    assert OrderOk(t.orders[i]) && OrderOk(t.orders[c]);
    MatchIsTradeOk(t.orders, i, c);
    if tr.buyer in t.wallets && t.wallets[tr.buyer].balance as real + 1.0 < Cost(tr.price, tr.quantity) {
      SurelyUncovered(m, t.wallets[tr.buyer].balance, tr.price, tr.quantity);
    }
  }

  /** Orders that cannot meet are never traded. */
  lemma OnlyMeetingOrdersTrade(m: Maths, t: Tables, i: nat, c: nat, scale: Scale)
    ensures Enabled(m, t, Fill(i, c, scale)) ==> CanMeet(t.orders, i, c)
  {
  }

  /** The ledger never takes more from a buy order, or gives less to a sell order, than its limit says. */
  lemma LedgerRespectsLimits(m: Maths, seed: Seeds, cs: seq<Commit>, id: nat)
    requires HoldingsOk(seed) && id < |Run(m, seed, cs).orders|
    ensures var t := Run(m, seed, cs);
      var o := t.orders[id];
      var slack := FillsOf(t.trades, id) as real / 2.0;
      if o.side == Buy then PostedFor(t.ledger, Buy, id) as real <= Cost(o.price, o.filled) + slack
      else Cost(o.price, o.filled) - slack <= PostedFor(t.ledger, Sell, id) as real
  {
    var t := Run(m, seed, cs);
    RunKeepsInv(m, seed, cs);
    WithinLimit(m, t.orders, t.trades, id);
    assert PostedFor(t.ledger, Buy, id) == CostOf(m, t.trades, Buy, id);
    assert PostedFor(t.ledger, Sell, id) == CostOf(m, t.trades, Sell, id);
  }

  // ----- Wallets -----

  /** The rounding that separates a wallet from its ledger rows, summed over a run. */
  function DriftOver(m: Maths, seed: Seeds, cs: seq<Commit>, user: int): int {
    if cs == [] then 0 else
      var t := Run(m, seed, cs[..|cs| - 1]);
      DriftOver(m, seed, cs[..|cs| - 1], user) + if user in t.wallets then StepDrift(m, t, cs[|cs| - 1], user) else 0
  }

  /**
   What rounding may add up to in one wallet: one unit for each transfer near a half unit and each
   trade at one, what the size allows for each transfer of 2^35 or more, and nothing for any other.
   */
  function ToleranceOver(m: Maths, seed: Seeds, cs: seq<Commit>, user: int): nat {
    if cs == [] then 0 else
      var t := Run(m, seed, cs[..|cs| - 1]);
      ToleranceOver(m, seed, cs[..|cs| - 1], user)
      + if user in t.wallets && Touches(t, cs[|cs| - 1], user) then Tolerance(m, t, cs[|cs| - 1]) else 0
  }

  /** A wallet differs from the sum of its rows by the accumulated drift, within what its postings tolerate. */
  lemma {:induction false} BalanceIsLedgerPlusDrift(m: Maths, seed: Seeds, cs: seq<Commit>, user: int)
    requires HoldingsOk(seed)
    ensures user in Run(m, seed, cs).wallets ==>
      Gap(Run(m, seed, cs).wallets, Run(m, seed, cs).ledger, user) == DriftOver(m, seed, cs, user)
    ensures user !in Run(m, seed, cs).wallets ==> DriftOver(m, seed, cs, user) == 0
    ensures -(ToleranceOver(m, seed, cs, user) as int) <= DriftOver(m, seed, cs, user) <= ToleranceOver(m, seed, cs, user)
  {
    if cs != [] {
      var t, c := Run(m, seed, cs[..|cs| - 1]), cs[|cs| - 1];
      BalanceIsLedgerPlusDrift(m, seed, cs[..|cs| - 1], user);
      RunKeepsInv(m, seed, cs[..|cs| - 1]);
      if user in t.wallets {
        StepMovesGap(m, t, c, user);
        StepDriftIsSmall(m, t, c, user);
      } else {
        WalletOpensLevel(m, t, c, user);
      }
    }
  }

  /** Versions count ledger rows, and no balance is ever negative. */
  lemma VersionsCountRows(m: Maths, seed: Seeds, cs: seq<Commit>, user: int)
    requires HoldingsOk(seed) && user in Run(m, seed, cs).wallets
    ensures var t := Run(m, seed, cs);
      0 <= t.wallets[user].balance && t.wallets[user].version == 1 + Rows(t.ledger, user)
  {
    RunKeepsInv(m, seed, cs);
  }

  // ----- Conservation -----

  function TotalTolerance(m: Maths, seed: Seeds, cs: seq<Commit>): nat {
    if cs == [] then 0 else
      TotalTolerance(m, seed, cs[..|cs| - 1]) + Tolerance(m, Run(m, seed, cs[..|cs| - 1]), cs[|cs| - 1])
  }

  /** All the money in wallets is deposits minus withdrawals, up to what the postings tolerate. */
  lemma {:induction false} MoneyIsConserved(m: Maths, seed: Seeds, cs: seq<Commit>)
    requires HoldingsOk(seed)
    ensures var t := Run(m, seed, cs);
      -(TotalTolerance(m, seed, cs) as int) <= Total(t.wallets) - External(t.ledger) <= TotalTolerance(m, seed, cs)
  {
    if cs != [] {
      var t, c := Run(m, seed, cs[..|cs| - 1]), cs[|cs| - 1];
      MoneyIsConserved(m, seed, cs[..|cs| - 1]);
      RunKeepsInv(m, seed, cs[..|cs| - 1]);
      StepMovesSurplus(m, t, c);
      var u := Run(m, seed, cs);
      assert Surplus(u.wallets, u.ledger) == Total(u.wallets) - External(u.ledger);
    }
  }

  /** For each asset, the holdings of all users together never change. */
  lemma {:induction false} AssetsAreConserved(m: Maths, seed: Seeds, cs: seq<Commit>, asset: int)
    requires HoldingsOk(seed)
    ensures Held(Run(m, seed, cs).holdings, asset) == Held(seed, asset)
  {
    if cs != [] {
      AssetsAreConserved(m, seed, cs[..|cs| - 1], asset);
      RunKeepsInv(m, seed, cs[..|cs| - 1]);
      StepConservesHoldings(m, Run(m, seed, cs[..|cs| - 1]), cs[|cs| - 1], asset);
    }
  }

  /** An average buy price lies between the lowest and the highest price paid, counting a seeded average. */
  lemma {:induction false} AverageStaysInRange(m: Maths, seed: Seeds, cs: seq<Commit>, k: (int, int), low: int, high: int)
    requires HoldingsOk(seed)
    requires BoughtWithin(seed, Run(m, seed, cs).trades, k, low, high)
    ensures AverageWithin(Run(m, seed, cs).holdings, k, low, high)
  {
    if cs != [] {
      var t, c := Run(m, seed, cs[..|cs| - 1]), cs[|cs| - 1];
      RunKeepsInv(m, seed, cs[..|cs| - 1]);
      StepExtendsTrades(m, t, c);
      AverageStaysInRange(m, seed, cs[..|cs| - 1], k, low, high);
      StepKeepsAverage(m, seed, t, c, k, low, high);
    }
  }
}
