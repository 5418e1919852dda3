/**
 A run that ends in an endless loop. A seller offers 2.2 at a price of one; a first buyer takes
 0.1 of it, and a second one wants 5. The 2.1 that are left complete the sell order, but if the
 comparison misses that, the order stays first in the queue with nothing remaining.
 */
module Stalling {
  import opened Money
  import opened Arithmetic
  import opened Tables
  import opened Orders
  import opened Matching
  import opened Exchange
  import opened Schedule
  import opened Loop

  const ONE: int := 100_000_000
  const ASSET := 7

  /** The seller holds what is for sale. */
  function Stock(): Seeds {
    map[(1, ASSET) := Holding(220_000_000, 0)]
  }

  function Offer(): Order {
    Order(1, ASSET, Sell, ONE, 220_000_000, 0, Pending, None, 0)
  }

  function SmallBid(): Order {
    Order(2, ASSET, Buy, ONE, 10_000_000, 0, Pending, None, 1)
  }

  function LargeBid(): Order {
    Order(3, ASSET, Buy, ONE, 500_000_000, 0, Pending, None, 2)
  }

  function Funding(): seq<Commit> {
    [OpenWallet(1)] + [OpenWallet(2)] + [OpenWallet(3)]
    + [Transfer(2, 100_000_000.0, Deposit, "")] + [Transfer(3, 1_000_000_000.0, Deposit, "")]
  }

  function Trading(scale: Scale): seq<Commit> {
    Funding() + [Insert(Offer())] + [Insert(SmallBid())] + [Fill(1, 0, scale)] + [Insert(LargeBid())]
  }

  // ----- Funding -----

  /** Any sound arithmetic adds whole units to an empty balance exactly. */
  lemma FirstDeposit(m: Maths, t: Tables, user: int, units: int)
    requires user in t.wallets && t.wallets[user].balance == 0 && 0 < units <= 1_000_000_000
    ensures var u := Step(m, t, Transfer(user, units as real, Deposit, ""));
      && u.wallets == t.wallets[user := Wallet(units, t.wallets[user].version + 1)]
      && u.orders == t.orders && u.trades == t.trades && u.holdings == t.holdings
  {
    NearestOfUnits(units);
    assert IsNear(m.plus(Narrow, 0, units as real) as real, 0 as real + units as real, 0.5 + Slack(0 as real + units as real));
    assert m.plus(Narrow, 0, units as real) == units;
  }

  predicate IsFunded(t: Tables) {
    && t.wallets == map[1 := Wallet(0, 1), 2 := Wallet(ONE, 2), 3 := Wallet(10 * ONE, 2)]
    && t.orders == [] && t.trades == [] && t.holdings == Stock()
  }

  lemma FundingFunds(m: Maths)
    ensures IsFunded(Run(m, Stock(), Funding()))
  {
    var s := Seed(Stock());
    var cs := [OpenWallet(1)];
    StepsAppend(m, s, [], OpenWallet(1));
    assert [] + [OpenWallet(1)] == cs;
    StepsAppend(m, s, cs, OpenWallet(2));
    cs := cs + [OpenWallet(2)];
    StepsAppend(m, s, cs, OpenWallet(3));
    cs := cs + [OpenWallet(3)];
    var t := Run(m, Stock(), cs);
    assert t.wallets == map[1 := Wallet(0, 1), 2 := Wallet(0, 1), 3 := Wallet(0, 1)];
    StepsAppend(m, s, cs, Transfer(2, 100_000_000.0, Deposit, ""));
    FirstDeposit(m, t, 2, 100_000_000);
    cs := cs + [Transfer(2, 100_000_000.0, Deposit, "")];
    StepsAppend(m, s, cs, Transfer(3, 1_000_000_000.0, Deposit, ""));
    FirstDeposit(m, Run(m, Stock(), cs), 3, 1_000_000_000);
  }

  // ----- Trades at a price of one -----

  lemma CostAtOne(m: Maths, quantity: int)
    requires 0 < quantity <= 1_000_000_000
    ensures var cost := m.cost(Wide, ONE, quantity);
      IsNear(cost, quantity as real, 0.000000001) && Nearest(cost) == quantity
  {
    assert Cost(ONE, quantity) == quantity as real;
    assert IsNear(m.cost(Wide, ONE, quantity), Cost(ONE, quantity), Cost(ONE, quantity) * 0.00000000000000000000000000001);
    NearestIsClosest(m.cost(Wide, ONE, quantity), quantity);
  }

  lemma PaysAtOne(m: Maths, wallets: map<int, Wallet>, user: int, quantity: int, kind: Kind)
    requires user in wallets && 0 <= wallets[user].balance <= 1_000_000_000 && 0 < quantity <= 1_000_000_000
    requires kind == Withdrawal ==> quantity < wallets[user].balance
    ensures Postable(m, Wide, wallets, user, m.cost(Wide, ONE, quantity), kind)
    ensures var left := wallets[user].balance + if kind == Deposit then quantity else -quantity;
      Moved(m, Wide, wallets[user].balance, m.cost(Wide, ONE, quantity), kind) == left
  {
    var cost, balance := m.cost(Wide, ONE, quantity), wallets[user].balance;
    CostAtOne(m, quantity);
    if kind == Deposit {
      assert IsNear(m.plus(Wide, balance, cost) as real, balance as real + cost, 0.500000001);
    } else {
      assert cost + 0.000000001 <= balance as real;
      assert m.covers(Wide, balance, cost);
      assert IsNear(m.minus(Wide, balance, cost) as real, balance as real - cost, 0.500000001);
    }
  }

  lemma FillAtOne(m: Maths, t: Tables, i: nat, c: nat, scale: Scale)
    requires HoldingsOk(t.holdings) && Tradable(t.orders, i, c) && t.orders[c].price == ONE
    requires var tr := Match(t.orders, i, c);
      && tr.buyer in t.wallets && tr.seller in t.wallets && tr.quantity <= 1_000_000_000
      && tr.quantity < t.wallets[tr.buyer].balance <= 1_000_000_000 && 0 <= t.wallets[tr.seller].balance <= 1_000_000_000
      && (tr.buyer, tr.asset) !in t.holdings
      && (tr.seller, tr.asset) in t.holdings && tr.quantity <= t.holdings[(tr.seller, tr.asset)].quantity
    ensures Enabled(m, t, Fill(i, c, scale))
  {
    var tr := Match(t.orders, i, c);
    PaysAtOne(m, t.wallets, tr.buyer, tr.quantity, Withdrawal);
    PaysAtOne(m, t.wallets, tr.seller, tr.quantity, Deposit);
  }

  // ----- The run -----

  /** What the first fill leaves: an open offer of 2.1, and a closed bid. */
  function Book(): seq<Order> {
    [Offer().(filled := 10_000_000, status := PartiallyFilled), SmallBid().(filled := 10_000_000, status := Filled), LargeBid()]
  }

  lemma FirstFill(m: Maths, t: Tables, scale: Scale)
    requires IsFunded(t.(orders := [])) && t.orders == [Offer(), SmallBid()]
    ensures var u := Step(m, t, Fill(1, 0, scale));
      && u.orders == Book()[..2]
      && u.wallets == map[1 := Wallet(10_000_000, 2), 2 := Wallet(90_000_000, 3), 3 := Wallet(10 * ONE, 2)]
      && u.holdings.Keys == {(1, ASSET), (2, ASSET)} && HoldingsOk(u.holdings)
      && u.holdings[(1, ASSET)].quantity == 210_000_000
  {
    FillAtOne(m, t, 1, 0, scale);
    PaysAtOne(m, t.wallets, 2, 10_000_000, Withdrawal);
    PaysAtOne(m, t.wallets, 1, 10_000_000, Deposit);
    assert !m.completes(0, 10_000_000, 220_000_000) && m.completes(0, 10_000_000, 10_000_000);
  }

  predicate HasTraded(t: Tables) {
    && t.orders == Book()
    && t.wallets == map[1 := Wallet(10_000_000, 2), 2 := Wallet(90_000_000, 3), 3 := Wallet(10 * ONE, 2)]
    && t.holdings.Keys == {(1, ASSET), (2, ASSET)} && HoldingsOk(t.holdings)
    && t.holdings[(1, ASSET)].quantity == 210_000_000
  }

  lemma TradingTrades(m: Maths, scale: Scale)
    ensures HasTraded(Run(m, Stock(), Trading(scale)))
  {
    var s, cs := Seed(Stock()), Funding();
    FundingFunds(m);
    StepsAppend(m, s, cs, Insert(Offer()));
    cs := cs + [Insert(Offer())];
    StepsAppend(m, s, cs, Insert(SmallBid()));
    cs := cs + [Insert(SmallBid())];
    var t := Run(m, Stock(), cs);
    assert t.orders == [Offer(), SmallBid()] && IsFunded(t.(orders := []));
    StepsAppend(m, s, cs, Fill(1, 0, scale));
    FirstFill(m, t, scale);
    cs := cs + [Fill(1, 0, scale)];
    StepsAppend(m, s, cs, Insert(LargeBid()));
    assert Book()[..2] + [LargeBid()] == Book();
  }

  /** The offer is all that the large bid can trade with. */
  lemma OnlyOffer(orders: seq<Order>)
    requires |orders| == 3 && orders[0].IsOpen() && !orders[1].IsOpen() && Crosses(orders[2], orders[0])
    ensures Queue(orders, 2) == [0]
  {
    var queue := Queue(orders, 2);
    QueueIsQueue(orders, 2);
    assert Eligible(orders, 2, 0);
    assert 0 in queue;
    forall k | 0 <= k < |queue| ensures queue[k] == 0 {
      assert queue[k] in queue;
      assert Eligible(orders, 2, queue[k]);
    }
    assert |queue| > 1 ==> Before(orders, queue[0], queue[1]);
  }

  lemma BookStalls(m: Maths, orders: seq<Order>)
    requires orders == Book() && !m.completes(10_000_000, 210_000_000, 220_000_000)
    ensures Stalls(m, orders, 2)
  {
    OnlyOffer(orders);
    var queue := Queue(orders, 2);
    AvailableFirst(orders, queue, 0);
    assert Blocks(m, orders[queue[0]]) && Available(orders, queue[..0 + 1]) < orders[2].Remaining();
  }

  /** If the comparison misses 0.1 + 2.1 = 2.2, this run leaves a bid that stalls. */
  lemma TradingStalls(m: Maths, scale: Scale)
    requires !m.completes(10_000_000, 210_000_000, 220_000_000)
    ensures 2 < |Run(m, Stock(), Trading(scale)).orders| && Stalls(m, Run(m, Stock(), Trading(scale)).orders, 2)
  {
    TradingTrades(m, scale);
    BookStalls(m, Run(m, Stock(), Trading(scale)).orders);
  }

  // ----- The endless loop -----

  /** The bid takes the 2.1, which it can pay for, and the offer stays with nothing remaining. */
  lemma LastFill(m: Maths, t: Tables, scale: Scale)
    requires HasTraded(t) && !m.completes(10_000_000, 210_000_000, 220_000_000)
    ensures Enabled(m, t, Fill(2, 0, scale))
    ensures var orders := After(m, t, Fill(2, 0, scale)).orders;
      && |orders| == 3 && orders[0].IsOpen() && orders[0].Remaining() == 0
      && orders[1] == t.orders[1] && IsLive(orders[2]) && Crosses(orders[2], orders[0])
  {
    FillAtOne(m, t, 2, 0, scale);
    assert !m.completes(0, 210_000_000, 500_000_000);
  }

  /** Then its loop is stuck for ever, if nobody else writes. */
  lemma LastFillSticks(m: Maths, s: System, w: nat, t: Tables, scale: Scale)
    requires HasTraded(t) && !m.completes(10_000_000, 210_000_000, 220_000_000)
    requires s.t == Step(m, t, Fill(2, 0, scale)) && w in s.workers && s.workers[w] == Worker(2, Fetch)
    ensures IsStuck(s, w) && forall n :: !Watched(m, s, w, scale).over(n)
  {
    LastFill(m, t, scale);
    OnlyOffer(s.t.orders);
    StuckForEver(m, s, w, scale);
  }

  lemma StuckForEver(m: Maths, s: System, w: nat, scale: Scale)
    requires IsStuck(s, w)
    ensures forall n :: !Watched(m, s, w, scale).over(n)
  {
    var l := Watched(m, s, w, scale);
    assert l.stuck(0);
    LoopEndsExactly(m, s, w, scale);
  }
}
