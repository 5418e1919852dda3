/**
 Where statuses are exact. If every quantity is a multiple of some step on which the arithmetic
 notices every last fill, an order is FILLED exactly when nothing remains of it, and no order
 stalls. For the code the step is 1/256, so whole quantities are covered; for exact decimals it
 is one unit.
 */
module Statuses {
  import opened Money
  import opened Arithmetic
  import opened Tables
  import opened Orders
  import opened Matching
  import opened Exchange

  type GridStep = n: int | 0 < n witness 1

  predicate IsMultiple(n: int, step: GridStep) {
    n % step == 0
  }

  /** On multiples of the step, every last fill is noticed. */
  ghost predicate NoticesOn(m: Maths, step: GridStep) {
    forall filled, fill :: 0 <= filled && 0 <= fill && Fits(filled + fill) && IsMultiple(filled, step) && IsMultiple(fill, step)
      ==> m.completes(filled, fill, filled + fill)
  }

  /** Quantities and fills are multiples of the step, and something remains of every open order. */
  predicate OnGrid(o: Order, step: GridStep) {
    IsMultiple(o.quantity, step) && IsMultiple(o.filled, step) && (o.status != Filled ==> 0 < o.Remaining())
  }

  predicate AllOnGrid(orders: seq<Order>, step: GridStep) {
    forall i :: 0 <= i < |orders| ==> OnGrid(orders[i], step)
  }

  predicate InsertsOnGrid(cs: seq<Commit>, step: GridStep) {
    forall k :: 0 <= k < |cs| && cs[k].Insert? ==> IsMultiple(cs[k].order.quantity, step)
  }

  lemma MultiplesCombine(a: int, b: int, step: GridStep)
    requires IsMultiple(a, step) && IsMultiple(b, step)
    ensures IsMultiple(a + b, step) && IsMultiple(a - b, step)
  {
    var i, j := a / step, b / step;
    assert a == i * step && b == j * step;
    assert a + b == (i + j) * step && a - b == (i - j) * step;
    MultipleOf(i + j, step);
    MultipleOf(i - j, step);
  }

  lemma MultipleOf(n: int, step: GridStep)
    ensures IsMultiple(n * step, step)
  {
    var q, r := (n * step) / step, (n * step) % step;
    assert n * step == q * step + r;
    assert (n - q) * step == r;
    NoSmallMultiple(n - q, step);
    NoSmallMultiple(q - n, step);
  }

  lemma NoSmallMultiple(k: int, step: GridStep)
    ensures 1 <= k ==> step <= k * step
  {
    if 1 <= k {
      assert 0 <= (k - 1) * step == k * step - step;
    }
  }

  // ----- Every transaction stays on the grid -----

  lemma FillStaysOnGrid(m: Maths, step: GridStep, o: Order, quantity: int)
    requires NoticesOn(m, step) && OrderOk(o) && OnGrid(o, step) && IsMultiple(quantity, step) && 0 < quantity <= o.Remaining()
    ensures OnGrid(WithFill(m, o, quantity), step)
  {
    MultiplesCombine(o.filled, quantity, step);
    if o.filled + quantity == o.quantity {
      assert m.completes(o.filled, quantity, o.filled + quantity);
    }
  }

  lemma QuantityOnGrid(step: GridStep, orders: seq<Order>, i: nat, j: nat)
    requires AllOnGrid(orders, step) && i < |orders| && j < |orders|
    ensures IsMultiple(Match(orders, i, j).quantity, step)
  {
    assert OnGrid(orders[i], step) && OnGrid(orders[j], step);
    MultiplesCombine(orders[i].quantity, orders[i].filled, step);
    MultiplesCombine(orders[j].quantity, orders[j].filled, step);
  }

  lemma MatchStaysOnGrid(m: Maths, step: GridStep, orders: seq<Order>, i: nat, j: nat)
    requires NoticesOn(m, step) && AllOnGrid(orders, step) && Tradable(orders, i, j)
    requires forall k :: 0 <= k < |orders| ==> OrderOk(orders[k])
    ensures AllOnGrid(FillBoth(m, orders, Match(orders, i, j)), step)
  {
    MatchIsTradeOk(orders, i, j);
    QuantityOnGrid(step, orders, i, j);
    TradeStaysOnGrid(m, step, orders, Match(orders, i, j));
  }

  lemma TradeStaysOnGrid(m: Maths, step: GridStep, orders: seq<Order>, tr: Trade)
    requires NoticesOn(m, step) && AllOnGrid(orders, step) && IsMultiple(tr.quantity, step) && 0 < tr.quantity
    requires tr.buy < |orders| && tr.sell < |orders| && tr.buy != tr.sell && OrderOk(orders[tr.buy]) && OrderOk(orders[tr.sell])
    requires tr.quantity <= orders[tr.buy].Remaining() && tr.quantity <= orders[tr.sell].Remaining()
    ensures AllOnGrid(FillBoth(m, orders, tr), step)
  {
    FillStaysOnGrid(m, step, orders[tr.buy], tr.quantity);
    FillStaysOnGrid(m, step, orders[tr.sell], tr.quantity);
  }

  lemma InsertStaysOnGrid(step: GridStep, orders: seq<Order>, o: Order)
    requires AllOnGrid(orders, step) && IsMultiple(o.quantity, step) && 0 < o.quantity && o.filled == 0
    ensures AllOnGrid(orders + [o], step)
  {
    MultipleOf(0, step);
  }

  lemma ExpiryStaysOnGrid(step: GridStep, orders: seq<Order>, now: int)
    requires AllOnGrid(orders, step)
    ensures AllOnGrid(Expired(orders, now), step)
  {
  }

  lemma StepStaysOnGrid(m: Maths, step: GridStep, t: Tables, c: Commit)
    requires NoticesOn(m, step) && OrdersInv(m, t) && AllOnGrid(t.orders, step)
    requires c.Insert? ==> IsMultiple(c.order.quantity, step)
    ensures AllOnGrid(Step(m, t, c).orders, step)
  {
    if Enabled(m, t, c) {
      match c
      case Fill(i, j, _) => MatchStaysOnGrid(m, step, t.orders, i, j);
      case Insert(o) => InsertStaysOnGrid(step, t.orders, o);
      case Expire(now) => ExpiryStaysOnGrid(step, t.orders, now);
      case Cancel(_, id) => assert OnGrid(t.orders[id], step);
      case _ =>
    }
  }

  lemma {:induction false} RunStaysOnGrid(m: Maths, step: GridStep, seed: Seeds, cs: seq<Commit>)
    requires HoldingsOk(seed) && NoticesOn(m, step) && InsertsOnGrid(cs, step)
    ensures AllOnGrid(Run(m, seed, cs).orders, step)
  {
    if cs != [] {
      RunStaysOnGrid(m, step, seed, cs[..|cs| - 1]);
      RunKeepsInv(m, seed, cs[..|cs| - 1]);
      StepStaysOnGrid(m, step, Run(m, seed, cs[..|cs| - 1]), cs[|cs| - 1]);
    }
  }

  /**
   In every run whose orders have quantities on the grid: an open order has something remaining, an
   order is FILLED exactly when it is not cancelled and nothing remains, and a cancelled one is
   never fully filled.
   */
  lemma StatusesAreExact(m: Maths, step: GridStep, seed: Seeds, cs: seq<Commit>, id: nat)
    requires HoldingsOk(seed) && NoticesOn(m, step) && InsertsOnGrid(cs, step) && id < |Run(m, seed, cs).orders|
    ensures var o := Run(m, seed, cs).orders[id];
      && (o.IsOpen() ==> 0 < o.Remaining())
      && (o.status == Filled <==> o.status != Cancelled && o.Remaining() == 0)
      && (o.status == Cancelled ==> 0 < o.Remaining())
  {
    RunStaysOnGrid(m, step, seed, cs);
    RunKeepsInv(m, seed, cs);
    assert OrderOk(Run(m, seed, cs).orders[id]) && OnGrid(Run(m, seed, cs).orders[id], step);
  }

  // ----- Nothing stalls on the grid -----

  lemma NothingBlocks(m: Maths, step: GridStep, o: Order)
    requires NoticesOn(m, step) && OrderOk(o) && OnGrid(o, step) && o.IsOpen()
    ensures !Blocks(m, o)
  {
    MultiplesCombine(o.quantity, o.filled, step);
    assert m.completes(o.filled, o.Remaining(), o.filled + o.Remaining());
  }

  lemma {:induction false} AllInReach(m: Maths, orders: seq<Order>, queue: seq<nat>)
    requires forall k :: 0 <= k < |queue| ==> queue[k] < |orders| && !Blocks(m, orders[queue[k]])
    ensures Reach(m, orders, queue) == queue
  {
    if queue != [] {
      AllInReach(m, orders, queue[1..]);
      assert queue == [queue[0]] + queue[1..];
    }
  }

  /** On such a book the whole queue is in reach, and the plan is the greedy plan against all of it. */
  lemma NothingStalls(m: Maths, step: GridStep, orders: seq<Order>, id: nat)
    requires NoticesOn(m, step) && AllOnGrid(orders, step) && id < |orders|
    requires forall i :: 0 <= i < |orders| ==> OrderOk(orders[i])
    ensures !Stalls(m, orders, id) && ReachOf(m, orders, id) == Queue(orders, id)
    ensures Plan(m, orders, id) == GreedyPlan(orders, id)
  {
    var queue := Queue(orders, id);
    QueueIsQueue(orders, id);
    forall k | 0 <= k < |queue| ensures queue[k] < |orders| && !Blocks(m, orders[queue[k]]) {
      assert queue[k] in queue;
      assert Eligible(orders, id, queue[k]) && OrderOk(orders[queue[k]]) && OnGrid(orders[queue[k]], step);
      NothingBlocks(m, step, orders[queue[k]]);
    }
    AllInReach(m, orders, queue);
  }

  /** A book on some grid on which the arithmetic notices every last fill. */
  ghost predicate IsExactBook(m: Maths, orders: seq<Order>) {
    exists step: GridStep :: NoticesOn(m, step) && AllOnGrid(orders, step)
  }

  lemma ExactBooksNeverStall(m: Maths, orders: seq<Order>, id: nat)
    requires IsExactBook(m, orders) && id < |orders| && forall i :: 0 <= i < |orders| ==> OrderOk(orders[i])
    ensures !Stalls(m, orders, id)
  {
    var step: GridStep :| NoticesOn(m, step) && AllOnGrid(orders, step);
    NothingStalls(m, step, orders, id);
  }

  /** After every run on the grid, the book is such a book. */
  lemma RunsGiveExactBooks(m: Maths, step: GridStep, seed: Seeds, cs: seq<Commit>)
    requires HoldingsOk(seed) && NoticesOn(m, step) && InsertsOnGrid(cs, step)
    ensures IsExactBook(m, Run(m, seed, cs).orders)
  {
    RunStaysOnGrid(m, step, seed, cs);
  }

  // ----- Exact decimals -----

  /** With exact decimals every quantity is on the grid. */
  lemma ExactNoticesAll(m: Maths, step: GridStep)
    requires m == Exact() && step == 1
    ensures NoticesOn(m, step)
  {
  }
}
