/**
 What every sequence of committed transactions keeps true of orders and trades:
 fills are accounted for, statuses mean what they say, closed orders stay closed,
 and no order trades outside its limit.
 */
module Orders {
  import opened Money
  import opened Arithmetic
  import opened Tables

  /** The quantity that an order has traded, on either side. */
  function TradedBy(trades: seq<Trade>, id: nat): int {
    if trades == [] then 0 else
      var last := trades[|trades| - 1];
      TradedBy(trades[..|trades| - 1], id) + if last.buy == id || last.sell == id then last.quantity else 0
  }

  /** Did the latest fill of an order complete it, as the engine compares the numbers? */
  predicate Completed(m: Maths, trades: seq<Trade>, id: nat, quantity: int) {
    trades != [] &&
    var rest, last := trades[..|trades| - 1], trades[|trades| - 1];
    if last.buy == id || last.sell == id then m.completes(TradedBy(rest, id), last.quantity, quantity)
    else Completed(m, rest, id, quantity)
  }

  /** A fully filled order may be left open: the comparison can miss its last fill. */
  predicate OrderOk(o: Order) {
    && 0 < o.price && 0 < o.quantity && Fits(o.quantity) && 0 <= o.filled <= o.quantity
    && match o.status
       case Pending => o.filled == 0
       case PartiallyFilled => 0 < o.filled
       case Filled => o.filled == o.quantity
       case Cancelled => true
  }

  predicate TradeOk(orders: seq<Order>, tr: Trade) {
    && tr.buy < |orders| && tr.sell < |orders|
    && orders[tr.buy].side == Buy && orders[tr.sell].side == Sell
    && orders[tr.buy].asset == tr.asset == orders[tr.sell].asset
    && orders[tr.buy].user == tr.buyer && orders[tr.sell].user == tr.seller && tr.buyer != tr.seller
    && 0 < tr.quantity
    && 0 < orders[tr.sell].price <= tr.price <= orders[tr.buy].price
  }

  /** Each order is in a state that makes sense, its fills are its trades, and it is FILLED if they completed it. */
  predicate OrdersOk(m: Maths, orders: seq<Order>, trades: seq<Trade>) {
    forall i :: 0 <= i < |orders| ==>
      && OrderOk(orders[i]) && orders[i].filled == TradedBy(trades, i)
      && (orders[i].status == Filled <==> Completed(m, trades, i, orders[i].quantity))
  }

  predicate TradesOk(orders: seq<Order>, trades: seq<Trade>) {
    forall k :: 0 <= k < |trades| ==> TradeOk(orders, trades[k])
  }

  /** No user has two orders under one idempotency key. */
  predicate KeysUnique(orders: seq<Order>) {
    forall i, j :: 0 <= i < j < |orders| && orders[i].key.Some? && orders[i].user == orders[j].user
      ==> orders[i].key != orders[j].key
  }

  predicate OrdersInv(m: Maths, t: Tables) {
    OrdersOk(m, t.orders, t.trades) && TradesOk(t.orders, t.trades) && KeysUnique(t.orders)
  }

  lemma {:induction false} NeverTraded(m: Maths, trades: seq<Trade>, id: nat, quantity: int)
    requires forall k :: 0 <= k < |trades| ==> trades[k].buy != id && trades[k].sell != id
    ensures TradedBy(trades, id) == 0 && !Completed(m, trades, id, quantity)
  {
    if trades != [] {
      NeverTraded(m, trades[..|trades| - 1], id, quantity);
    }
  }

  /** The trade that a fill makes names both orders and respects both limits. */
  lemma MatchIsTradeOk(orders: seq<Order>, i: nat, c: nat)
    requires Tradable(orders, i, c)
    requires OrderOk(orders[i]) && OrderOk(orders[c])
    ensures TradeOk(orders, Match(orders, i, c))
    ensures var tr := Match(orders, i, c);
      && tr.quantity <= orders[tr.buy].Remaining() && tr.quantity <= orders[tr.sell].Remaining()
      && (tr.quantity == orders[tr.buy].Remaining() || tr.quantity == orders[tr.sell].Remaining())
      && orders[tr.buy].IsOpen() && orders[tr.sell].IsOpen()
  {
  }

  lemma FillKeepsOrders(m: Maths, orders: seq<Order>, trades: seq<Trade>, tr: Trade)
    requires OrdersOk(m, orders, trades) && TradeOk(orders, tr)
    requires tr.quantity <= orders[tr.buy].Remaining() && tr.quantity <= orders[tr.sell].Remaining()
    requires orders[tr.buy].IsOpen() && orders[tr.sell].IsOpen()
    ensures OrdersOk(m, FillBoth(m, orders, tr), trades + [tr])
  {
    assert (trades + [tr])[..|trades|] == trades;
  }

  /** Trades keep referring to the same facts as orders progress and new ones arrive. */
  lemma TradesSurvive(orders: seq<Order>, after: seq<Order>, trades: seq<Trade>)
    requires TradesOk(orders, trades) && |orders| <= |after|
    requires forall i :: 0 <= i < |orders| ==> SameTerms(orders[i], after[i])
    ensures TradesOk(after, trades)
  {
    forall k | 0 <= k < |trades| ensures TradeOk(after, trades[k]) {
      assert TradeOk(orders, trades[k]);
    }
  }

  predicate SameTerms(a: Order, b: Order) {
    b == a.(filled := b.filled, status := b.status)
  }

  lemma CancellingKeepsOrders(m: Maths, orders: seq<Order>, after: seq<Order>, trades: seq<Trade>)
    requires OrdersOk(m, orders, trades) && |orders| == |after|
    requires forall i :: 0 <= i < |orders| ==>
      after[i] == orders[i] || (orders[i].IsOpen() && after[i] == orders[i].(status := Cancelled))
    ensures OrdersOk(m, after, trades)
  {
  }

  lemma InsertKeepsOrders(m: Maths, orders: seq<Order>, trades: seq<Trade>, o: Order)
    requires OrdersOk(m, orders, trades) && TradesOk(orders, trades) && KeysUnique(orders)
    requires OrderOk(o) && o.status == Pending && !KeyTaken(orders, o.user, o.key)
    ensures OrdersOk(m, orders + [o], trades) && KeysUnique(orders + [o])
  {
    forall k | 0 <= k < |trades| ensures trades[k].buy < |orders| && trades[k].sell < |orders| {
      assert TradeOk(orders, trades[k]);
    }
    NeverTraded(m, trades, |orders|, o.quantity);
  }

  lemma FillKeepsOrdersInv(m: Maths, t: Tables, i: nat, j: nat, scale: Scale)
    requires OrdersInv(m, t) && Enabled(m, t, Fill(i, j, scale))
    ensures OrdersInv(m, After(m, t, Fill(i, j, scale)))
  {
    var u, tr := After(m, t, Fill(i, j, scale)), Match(t.orders, i, j);
    MatchIsTradeOk(t.orders, i, j);
    FillKeepsOrders(m, t.orders, t.trades, tr);
    TradesSurvive(t.orders, u.orders, t.trades + [tr]);
  }

  lemma StepKeepsOrders(m: Maths, t: Tables, c: Commit)
    requires OrdersInv(m, t)
    ensures OrdersInv(m, Step(m, t, c))
  {
    if Enabled(m, t, c) {
      match c
      case Insert(o) =>
        InsertKeepsOrders(m, t.orders, t.trades, o);
        TradesSurvive(t.orders, t.orders + [o], t.trades);
      case Cancel(_, _) =>
        var after := After(m, t, c).orders;
        CancellingKeepsOrders(m, t.orders, after, t.trades);
        TradesSurvive(t.orders, after, t.trades);
      case Expire(now) =>
        CancellingKeepsOrders(m, t.orders, Expired(t.orders, now), t.trades);
        TradesSurvive(t.orders, Expired(t.orders, now), t.trades);
      case Fill(i, j, scale) =>
        FillKeepsOrdersInv(m, t, i, j, scale);
      case _ =>
    }
  }

  // ----- Absorbing statuses -----

  /** What may happen to an order between two moments. */
  predicate Progress(a: Order, b: Order) {
    && SameTerms(a, b)
    && a.filled <= b.filled
    && (!a.IsOpen() ==> b == a)
    && (b.status == Pending ==> a == b)
  }

  predicate OrdersProgress(t: Tables, u: Tables) {
    && |t.orders| <= |u.orders|
    && forall i :: 0 <= i < |t.orders| ==> Progress(t.orders[i], u.orders[i])
  }

  lemma FillProgress(m: Maths, t: Tables, i: nat, j: nat)
    requires OrdersInv(m, t) && Tradable(t.orders, i, j)
    ensures var after := FillBoth(m, t.orders, Match(t.orders, i, j));
      |after| == |t.orders| && forall k :: 0 <= k < |t.orders| ==> Progress(t.orders[k], after[k])
  {
    MatchIsTradeOk(t.orders, i, j);
  }

  lemma StepProgress(m: Maths, t: Tables, c: Commit)
    requires OrdersInv(m, t)
    ensures OrdersProgress(t, Step(m, t, c))
  {
    if Enabled(m, t, c) && c.Fill? {
      FillProgress(m, t, c.incoming, c.candidate);
    }
  }

  lemma StepExtendsTrades(m: Maths, t: Tables, c: Commit)
    ensures t.trades <= Step(m, t, c).trades
  {
  }

  // ----- Limits -----

  /** What the fills of an order have cost, each rounded as its ledger row is. */
  function CostOf(m: Maths, trades: seq<Trade>, side: Side, id: nat): int {
    if trades == [] then 0 else
      var last := trades[|trades| - 1];
      CostOf(m, trades[..|trades| - 1], side, id)
      + if (if side == Buy then last.buy else last.sell) == id then last.Row(m) else 0
  }

  function FillsOf(trades: seq<Trade>, id: nat): nat {
    if trades == [] then 0 else
      var last := trades[|trades| - 1];
      FillsOf(trades[..|trades| - 1], id) + if last.buy == id || last.sell == id then 1 else 0
  }

  predicate RowsFit(m: Maths, trades: seq<Trade>) {
    forall k :: 0 <= k < |trades| ==> Fits(trades[k].Row(m))
  }

  /** A fill costs a buyer no more, and earns a seller no less, than the limit says, to half a unit. */
  lemma FillWithinLimit(m: Maths, orders: seq<Order>, tr: Trade)
    requires TradeOk(orders, tr) && Fits(tr.Row(m))
    ensures tr.Row(m) as real <= Cost(orders[tr.buy].price, tr.quantity) + 0.5
    ensures Cost(orders[tr.sell].price, tr.quantity) - 0.5 <= tr.Row(m) as real
  {
    TradeRounds(m, tr.price, tr.quantity, 0);
    CostGrowsWithPrice(tr.price, orders[tr.buy].price, tr.quantity);
    CostGrowsWithPrice(orders[tr.sell].price, tr.price, tr.quantity);
  }

  /**
   Over its whole life a buy order pays at most its limit, and a sell order earns at
   least its limit, up to half a unit of rounding for each fill.
   */
  lemma {:induction false} WithinLimit(m: Maths, orders: seq<Order>, trades: seq<Trade>, id: nat)
    requires TradesOk(orders, trades) && RowsFit(m, trades) && id < |orders|
    ensures 0 <= TradedBy(trades, id)
    ensures var o := orders[id];
      var bound := Cost(o.price, TradedBy(trades, id));
      var slack := FillsOf(trades, id) as real / 2.0;
      if o.side == Buy then CostOf(m, trades, Buy, id) as real <= bound + slack
      else bound - slack <= CostOf(m, trades, Sell, id) as real
  {
    if trades == [] { return; }
    var rest, last := trades[..|trades| - 1], trades[|trades| - 1];
    assert TradeOk(orders, last);
    WithinLimit(m, orders, rest, id);
    if last.buy == id || last.sell == id {
      CostAdds(orders[id].price, TradedBy(rest, id), last.quantity);
      FillWithinLimit(m, orders, last);
    }
  }
}
