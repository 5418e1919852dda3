/**
 Price-time priority: the order book as the database returns it, the queue of orders
 that an incoming order can trade with, and the greedy plan of fills against that queue.
 */
module Matching {
  import opened Money
  import opened Arithmetic
  import opened Tables
  import opened Orders
  import opened Columns

  /** Better price first, then earlier, then lower id. Compares orders of one side. */
  predicate Before(orders: seq<Order>, a: nat, b: nat)
    requires a < |orders| && b < |orders|
  {
    var x, y := orders[a], orders[b];
    || (if x.side == Buy then x.price > y.price else x.price < y.price)
    || (x.price == y.price && (x.createdAt < y.createdAt || (x.createdAt == y.createdAt && a < b)))
  }

  predicate OneSide(orders: seq<Order>, ids: seq<nat>, side: Side) {
    forall k :: 0 <= k < |ids| ==> ids[k] < |orders| && orders[ids[k]].side == side
  }

  predicate InPriority(orders: seq<Order>, ids: seq<nat>, side: Side) {
    && OneSide(orders, ids, side)
    && forall j, k :: 0 <= j < k < |ids| ==> Before(orders, ids[j], ids[k])
  }

  /** Two lists in priority order with the same members are the same list. */
  lemma {:induction false} PriorityIsUnique(orders: seq<Order>, a: seq<nat>, b: seq<nat>, side: Side)
    requires InPriority(orders, a, side) && InPriority(orders, b, side)
    requires forall x :: x in a <==> x in b
    ensures a == b
  {
    assert |a| == 0 || a[0] in a;
    assert |b| == 0 || b[0] in b;
    if a != [] {
      assert a[0] in b;
      assert b[0] in a;
      assert a[0] == b[0];
      forall x ensures x in a[1..] <==> x in b[1..] {
        assert x in a[1..] ==> x in a && x != a[0];
        assert x in b[1..] ==> x in b && x != b[0];
      }
      PriorityIsUnique(orders, a[1..], b[1..], side);
    }
  }

  // ----- The book -----

  /** The position of a new order in a list: before the first one that it precedes. */
  function Place(orders: seq<Order>, ids: seq<nat>, side: Side, id: nat): (r: seq<nat>)
    requires InPriority(orders, ids, side) && id < |orders| && orders[id].side == side && id !in ids
    ensures InPriority(orders, r, side)
    ensures forall x :: x in r <==> x in ids || x == id
  {
    if ids == [] then [id]
    else if Before(orders, id, ids[0]) then [id] + ids
    else
      var rest := Place(orders, ids[1..], side, id);
      assert forall k :: 0 <= k < |rest| ==> rest[k] in rest;
      assert ids == [ids[0]] + ids[1..];
      [ids[0]] + rest
  }

  predicate InBook(o: Order, asset: int, side: Side) {
    o.asset == asset && o.side == side && o.IsOpen()
  }

  /** The open orders on one side of one asset among the first `n`, in price-time order. */
  function BookOf(orders: seq<Order>, n: nat, asset: int, side: Side): (r: seq<nat>)
    requires n <= |orders|
    ensures InPriority(orders, r, side)
    ensures forall x: nat :: x in r <==> x < n && InBook(orders[x], asset, side)
  {
    if n == 0 then []
    else
      var rest := BookOf(orders, n - 1, asset, side);
      if InBook(orders[n - 1], asset, side) then Place(orders, rest, side, n - 1) else rest
  }

  function Opposite(side: Side): Side {
    if side == Buy then Sell else Buy
  }

  // ----- The queue of an incoming order -----

  predicate Eligible(orders: seq<Order>, id: nat, c: nat)
    requires id < |orders|
  {
    c < |orders| && orders[c].IsOpen() && Crosses(orders[id], orders[c])
  }

  /** `queue` is what `id` can trade with, in the order in which it should. */
  ghost predicate IsQueue(orders: seq<Order>, id: nat, queue: seq<nat>) {
    && id < |orders|
    && InPriority(orders, queue, Opposite(orders[id].side))
    && forall c :: c in queue <==> Eligible(orders, id, c)
  }

  function Filter(orders: seq<Order>, id: nat, ids: seq<nat>): (r: seq<nat>)
    requires id < |orders| && InPriority(orders, ids, Opposite(orders[id].side))
    ensures InPriority(orders, r, Opposite(orders[id].side))
    ensures forall c :: c in r <==> c in ids && Eligible(orders, id, c)
  {
    if ids == [] then []
    else
      var rest := Filter(orders, id, ids[1..]);
      assert ids == [ids[0]] + ids[1..];
      assert forall k :: 0 <= k < |rest| ==> rest[k] in rest;
      if Eligible(orders, id, ids[0]) then [ids[0]] + rest else rest
  }

  function Queue(orders: seq<Order>, id: nat): seq<nat>
    requires id < |orders|
  {
    Filter(orders, id, BookOf(orders, |orders|, orders[id].asset, Opposite(orders[id].side)))
  }

  lemma QueueIsQueue(orders: seq<Order>, id: nat)
    requires id < |orders|
    ensures IsQueue(orders, id, Queue(orders, id))
  {
  }

  // ----- The queue against the columns -----

  lemma EligibleMayMatch(orders: seq<Order>, id: nat, c: nat)
    requires id < |orders| && c < |orders|
    ensures Eligible(orders, id, c) <==> MayMatch(orders[id], orders[c])
  {
  }

  lemma BeforeIsNoWorse(orders: seq<Order>, id: nat, a: nat, b: nat)
    requires id < |orders| && a < |orders| && b < |orders| && Before(orders, a, b)
    requires orders[a].side == orders[b].side == Opposite(orders[id].side)
    ensures NoWorse(orders[id], orders[a], orders[b])
  {
  }

  /** The queue holds exactly what may be matched, and nothing in it is worse than what comes later. */
  lemma QueueIsByPrice(orders: seq<Order>, id: nat)
    requires id < |orders|
    ensures var queue := Queue(orders, id);
      && (forall k :: 0 <= k < |queue| ==> queue[k] < |orders|)
      && (forall c :: 0 <= c < |orders| ==> (c in queue <==> MayMatch(orders[id], orders[c])))
      && (forall j, k :: 0 <= j < k < |queue| ==> NoWorse(orders[id], orders[queue[j]], orders[queue[k]]))
  {
    var queue := Queue(orders, id);
    QueueIsQueue(orders, id);
    forall c | 0 <= c < |orders| ensures c in queue <==> MayMatch(orders[id], orders[c]) {
      EligibleMayMatch(orders, id, c);
    }
    forall j, k | 0 <= j < k < |queue| ensures NoWorse(orders[id], orders[queue[j]], orders[queue[k]]) {
      BeforeIsNoWorse(orders, id, queue[j], queue[k]);
    }
  }

  /** The front of the queue is the best price on offer, and the earliest at that price. */
  lemma FrontIsBest(orders: seq<Order>, id: nat)
    requires id < |orders|
    ensures var queue := Queue(orders, id);
      if queue == [] then forall j :: 0 <= j < |orders| ==> !MayMatch(orders[id], orders[j])
      else
        && queue[0] < |orders| && MayMatch(orders[id], orders[queue[0]])
        && forall j :: 0 <= j < |orders| && MayMatch(orders[id], orders[j]) ==> NoWorse(orders[id], orders[queue[0]], orders[j])
  {
    var queue := Queue(orders, id);
    QueueIsByPrice(orders, id);
    if queue != [] {
      assert queue[0] in queue;
      forall j | 0 <= j < |orders| && MayMatch(orders[id], orders[j])
        ensures NoWorse(orders[id], orders[queue[0]], orders[j])
      {
        assert j in queue;
        var k :| 0 <= k < |queue| && queue[k] == j;
      }
    }
  }

  // ----- The greedy plan -----

  /** Fill against the queue in order until one of the two runs out. */
  function Greedy(orders: seq<Order>, id: nat, remaining: int, queue: seq<nat>): (plan: seq<Trade>)
    requires id < |orders| && forall k :: 0 <= k < |queue| ==> queue[k] < |orders|
    ensures |plan| <= |queue|
    decreases |queue|
  {
    if queue == [] || remaining <= 0 then [] else
      var quantity := Min(remaining, orders[queue[0]].Remaining());
      [TradeOf(orders, id, queue[0], quantity)] + Greedy(orders, id, remaining - quantity, queue[1..])
  }

  function Available(orders: seq<Order>, queue: seq<nat>): int
    requires forall k :: 0 <= k < |queue| ==> queue[k] < |orders|
  {
    if queue == [] then 0 else orders[queue[0]].Remaining() + Available(orders, queue[1..])
  }

  function Volume(plan: seq<Trade>): int {
    if plan == [] then 0 else plan[0].quantity + Volume(plan[1..])
  }

  /** A plan that goes down the queue and fills every candidate but the last one completely. */
  predicate IsInTurn(orders: seq<Order>, id: nat, queue: seq<nat>, plan: seq<Trade>)
    requires id < |orders| && forall k :: 0 <= k < |queue| ==> queue[k] < |orders|
  {
    && |plan| <= |queue|
    && (forall k :: 0 <= k < |plan| ==>
          plan[k] == TradeOf(orders, id, queue[k], plan[k].quantity)
          && 0 < plan[k].quantity <= orders[queue[k]].Remaining())
    && (forall k :: 0 <= k < |plan| - 1 ==> plan[k].quantity == orders[queue[k]].Remaining())
  }

  lemma InTurnWithFirst(orders: seq<Order>, id: nat, queue: seq<nat>, quantity: int, rest: seq<Trade>)
    requires id < |orders| && queue != [] && forall k :: 0 <= k < |queue| ==> queue[k] < |orders|
    requires IsInTurn(orders, id, queue[1..], rest)
    requires 0 < quantity <= orders[queue[0]].Remaining() && (rest != [] ==> quantity == orders[queue[0]].Remaining())
    ensures IsInTurn(orders, id, queue, [TradeOf(orders, id, queue[0], quantity)] + rest)
  {
    var plan := [TradeOf(orders, id, queue[0], quantity)] + rest;
    forall k | 0 < k < |plan|
      ensures plan[k] == TradeOf(orders, id, queue[k], plan[k].quantity)
      ensures 0 < plan[k].quantity <= orders[queue[k]].Remaining()
      ensures k < |plan| - 1 ==> plan[k].quantity == orders[queue[k]].Remaining()
    {
      assert plan[k] == rest[k - 1] && queue[k] == queue[1..][k - 1];
    }
  }

  /**
   The plan trades with the front of the queue, fills every candidate but the last one
   completely, and trades as much as the two sides allow.
   */
  lemma {:induction false} GreedyFillsInTurn(orders: seq<Order>, id: nat, remaining: int, queue: seq<nat>)
    requires id < |orders| && 0 <= remaining
    requires forall k :: 0 <= k < |queue| ==> queue[k] < |orders| && 0 < orders[queue[k]].Remaining()
    ensures IsInTurn(orders, id, queue, Greedy(orders, id, remaining, queue))
    ensures Volume(Greedy(orders, id, remaining, queue)) == Min(remaining, Available(orders, queue))
    ensures 0 <= Available(orders, queue)
    decreases |queue|
  {
    if queue != [] {
      var quantity := Min(remaining, orders[queue[0]].Remaining());
      GreedyFillsInTurn(orders, id, remaining - quantity, queue[1..]);
      if 0 < remaining {
        var first, rest := TradeOf(orders, id, queue[0], quantity), Greedy(orders, id, remaining - quantity, queue[1..]);
        GreedyFirst(orders, id, remaining, queue, remaining - quantity);
        InTurnWithFirst(orders, id, queue, quantity, rest);
        VolumeWithFirst(first, rest);
      }
    }
  }

  lemma GreedyFirst(orders: seq<Order>, id: nat, remaining: int, queue: seq<nat>, left: int)
    requires id < |orders| && 0 < remaining && queue != [] && forall k :: 0 <= k < |queue| ==> queue[k] < |orders|
    requires left == remaining - Min(remaining, orders[queue[0]].Remaining())
    ensures Greedy(orders, id, remaining, queue)
         == [TradeOf(orders, id, queue[0], remaining - left)] + Greedy(orders, id, left, queue[1..])
  {
  }

  lemma VolumeWithFirst(first: Trade, rest: seq<Trade>)
    ensures Volume([first] + rest) == first.quantity + Volume(rest)
  {
    assert ([first] + rest)[1..] == rest;
  }

  /** The plan reads only the columns of the incoming order that never change, and the queued rows. */
  lemma {:induction false} GreedyFrame(orders: seq<Order>, after: seq<Order>, id: nat, remaining: int, queue: seq<nat>)
    requires id < |orders| == |after| && Progress(orders[id], after[id])
    requires forall k :: 0 <= k < |queue| ==> queue[k] < |orders| && orders[queue[k]] == after[queue[k]]
    ensures Greedy(after, id, remaining, queue) == Greedy(orders, id, remaining, queue)
    decreases |queue|
  {
    if queue != [] && 0 < remaining {
      var quantity := Min(remaining, orders[queue[0]].Remaining());
      assert TradeOf(after, id, queue[0], quantity) == TradeOf(orders, id, queue[0], quantity);
      GreedyFrame(orders, after, id, remaining - quantity, queue[1..]);
    }
  }

  // ----- Candidates that stay in front -----

  /** The comparison would miss the fill of all that remains of this order, and leave it open. */
  predicate IsSticky(m: Maths, o: Order) {
    !m.completes(o.filled, o.Remaining(), o.quantity)
  }

  /** Nothing can be traded with this order any more, or nothing after one more fill, and yet it stays. */
  predicate Blocks(m: Maths, o: Order) {
    o.Remaining() <= 0 || IsSticky(m, o)
  }

  /** The part of a queue that the loop can trade with: it never gets past an order that blocks. */
  function Reach(m: Maths, orders: seq<Order>, queue: seq<nat>): (r: seq<nat>)
    requires forall k :: 0 <= k < |queue| ==> queue[k] < |orders|
    ensures r <= queue
    ensures forall k :: 0 <= k < |r| ==> r[k] < |orders| && 0 < orders[r[k]].Remaining()
  {
    if queue == [] || orders[queue[0]].Remaining() <= 0 then []
    else if IsSticky(m, orders[queue[0]]) then [queue[0]]
    else
      var rest := Reach(m, orders, queue[1..]);
      assert queue == [queue[0]] + queue[1..];
      [queue[0]] + rest
  }

  /** Is there an order in the queue that blocks, with less before and in it than is wanted? */
  predicate StallsOn(m: Maths, orders: seq<Order>, remaining: int, queue: seq<nat>)
    requires forall k :: 0 <= k < |queue| ==> queue[k] < |orders|
  {
    exists k :: 0 <= k < |queue| && Blocks(m, orders[queue[k]]) && Available(orders, queue[..k + 1]) < remaining
  }

  /** Will `processOrder` come to a candidate that it can neither trade with nor get past? */
  predicate Stalls(m: Maths, orders: seq<Order>, id: nat)
    requires id < |orders|
  {
    QueueIsQueue(orders, id);
    orders[id].IsOpen() && StallsOn(m, orders, orders[id].Remaining(), Queue(orders, id))
  }

  lemma {:induction false} AvailableIsPositive(orders: seq<Order>, queue: seq<nat>)
    requires forall k :: 0 <= k < |queue| ==> queue[k] < |orders| && 0 <= orders[queue[k]].Remaining()
    ensures 0 <= Available(orders, queue)
    decreases |queue|
  {
    if queue != [] {
      AvailableIsPositive(orders, queue[1..]);
    }
  }

  lemma AvailableFirst(orders: seq<Order>, queue: seq<nat>, k: nat)
    requires k < |queue| && forall k :: 0 <= k < |queue| ==> queue[k] < |orders|
    ensures Available(orders, queue[..k + 1]) == orders[queue[0]].Remaining() + Available(orders, queue[1..][..k])
  {
    assert queue[..k + 1][1..] == queue[1..][..k];
  }

  lemma StallsNow(m: Maths, orders: seq<Order>, remaining: int, queue: seq<nat>)
    requires queue != [] && forall k :: 0 <= k < |queue| ==> queue[k] < |orders|
    requires Blocks(m, orders[queue[0]]) && orders[queue[0]].Remaining() < remaining
    ensures StallsOn(m, orders, remaining, queue)
  {
    AvailableFirst(orders, queue, 0);
    assert Available(orders, queue[..0 + 1]) < remaining;
  }

  lemma StallsAfter(m: Maths, orders: seq<Order>, remaining: int, queue: seq<nat>)
    requires queue != [] && forall k :: 0 <= k < |queue| ==> queue[k] < |orders|
    requires StallsOn(m, orders, remaining - orders[queue[0]].Remaining(), queue[1..])
    ensures StallsOn(m, orders, remaining, queue)
  {
    var rest, left := queue[1..], remaining - orders[queue[0]].Remaining();
    var k :| 0 <= k < |rest| && Blocks(m, orders[rest[k]]) && Available(orders, rest[..k + 1]) < left;
    AvailableFirst(orders, queue, k + 1);
    assert queue[k + 1] == rest[k] && Available(orders, queue[..k + 1 + 1]) < remaining;
  }

  lemma StallsSomewhere(m: Maths, orders: seq<Order>, remaining: int, queue: seq<nat>)
    requires queue != [] && forall k :: 0 <= k < |queue| ==> queue[k] < |orders| && 0 <= orders[queue[k]].Remaining()
    requires StallsOn(m, orders, remaining, queue)
    ensures var left := remaining - orders[queue[0]].Remaining();
      0 < left && (Blocks(m, orders[queue[0]]) || StallsOn(m, orders, left, queue[1..]))
  {
    var rest := queue[1..];
    var k :| 0 <= k < |queue| && Blocks(m, orders[queue[k]]) && Available(orders, queue[..k + 1]) < remaining;
    AvailableFirst(orders, queue, k);
    AvailableIsPositive(orders, rest[..k]);
    if k > 0 {
      assert rest[k - 1] == queue[k] && rest[..k - 1 + 1] == rest[..k];
    }
  }

  /** A queue stalls at its first order, if that blocks, or else exactly if the rest of it stalls. */
  lemma StallsStep(m: Maths, orders: seq<Order>, remaining: int, queue: seq<nat>)
    requires queue != [] && forall k :: 0 <= k < |queue| ==> queue[k] < |orders| && 0 <= orders[queue[k]].Remaining()
    ensures var left := remaining - orders[queue[0]].Remaining();
      StallsOn(m, orders, remaining, queue)
      <==> if Blocks(m, orders[queue[0]]) then 0 < left else StallsOn(m, orders, left, queue[1..])
  {
    var left := remaining - orders[queue[0]].Remaining();
    if StallsOn(m, orders, remaining, queue) {
      StallsSomewhere(m, orders, remaining, queue);
    }
    if Blocks(m, orders[queue[0]]) && 0 < left {
      StallsNow(m, orders, remaining, queue);
    }
    if !Blocks(m, orders[queue[0]]) && StallsOn(m, orders, left, queue[1..]) {
      StallsAfter(m, orders, remaining, queue);
    }
  }

  /** Nothing stalls an order that has nothing left to trade. */
  lemma NothingWanted(m: Maths, orders: seq<Order>, remaining: int, queue: seq<nat>)
    requires remaining <= 0 && forall k :: 0 <= k < |queue| ==> queue[k] < |orders| && 0 <= orders[queue[k]].Remaining()
    ensures !StallsOn(m, orders, remaining, queue)
  {
    if StallsOn(m, orders, remaining, queue) {
      var k :| 0 <= k < |queue| && Blocks(m, orders[queue[k]]) && Available(orders, queue[..k + 1]) < remaining;
      AvailableIsPositive(orders, queue[..k + 1]);
    }
  }

  /** Queue, reach and stall read only the queued rows. */
  lemma {:induction false} ReachFrame(m: Maths, orders: seq<Order>, after: seq<Order>, remaining: int, queue: seq<nat>)
    requires |orders| == |after|
    requires forall k :: 0 <= k < |queue| ==>
      queue[k] < |orders| && orders[queue[k]] == after[queue[k]] && 0 <= orders[queue[k]].Remaining()
    ensures Reach(m, after, queue) == Reach(m, orders, queue)
    ensures StallsOn(m, after, remaining, queue) <==> StallsOn(m, orders, remaining, queue)
    decreases |queue|
  {
    if queue != [] {
      ReachFrame(m, orders, after, remaining - orders[queue[0]].Remaining(), queue[1..]);
      StallsStep(m, orders, remaining, queue);
      StallsStep(m, after, remaining, queue);
    }
  }

  predicate InTable(orders: seq<Order>, queue: seq<nat>) {
    forall k :: 0 <= k < |queue| ==> queue[k] < |orders| && 0 <= orders[queue[k]].Remaining()
  }

  lemma SameStart<T>(x: T, p: seq<T>, q: seq<T>)
    ensures p <= q ==> [x] + p <= [x] + q
    ensures p == q ==> [x] + p == [x] + q
  {
  }

  /** Plans that start alike begin or equal one another as what follows does. */
  lemma GreedyAlike(orders: seq<Order>, id: nat, remaining: int, a: seq<nat>, b: seq<nat>, left: int, equal: bool)
    requires id < |orders| && InTable(orders, a) && InTable(orders, b) && 0 < remaining
    requires a != [] && b != [] && a[0] == b[0] && left == remaining - Min(remaining, orders[a[0]].Remaining())
    requires Greedy(orders, id, left, a[1..]) <= Greedy(orders, id, left, b[1..])
    requires equal ==> Greedy(orders, id, left, a[1..]) == Greedy(orders, id, left, b[1..])
    ensures Greedy(orders, id, remaining, a) <= Greedy(orders, id, remaining, b)
    ensures equal ==> Greedy(orders, id, remaining, a) == Greedy(orders, id, remaining, b)
  {
    GreedyFirst(orders, id, remaining, a, left);
    GreedyFirst(orders, id, remaining, b, left);
    SameStart(TradeOf(orders, id, a[0], remaining - left), Greedy(orders, id, left, a[1..]), Greedy(orders, id, left, b[1..]));
  }

  /** Trading with the part in reach is the beginning of trading with the whole queue, and all of it unless it stalls. */
  predicate Begins(m: Maths, orders: seq<Order>, id: nat, remaining: int, queue: seq<nat>)
    requires id < |orders| && InTable(orders, queue)
  {
    var p, q := Greedy(orders, id, remaining, Reach(m, orders, queue)), Greedy(orders, id, remaining, queue);
    p <= q && (!StallsOn(m, orders, remaining, queue) ==> p == q)
  }

  lemma BeginsAtBlock(m: Maths, orders: seq<Order>, id: nat, remaining: int, queue: seq<nat>)
    requires id < |orders| && InTable(orders, queue) && 0 < remaining && queue != [] && Blocks(m, orders[queue[0]])
    ensures Begins(m, orders, id, remaining, queue)
  {
    var first := orders[queue[0]];
    StallsStep(m, orders, remaining, queue);
    if 0 < first.Remaining() {
      var reach := [queue[0]];
      assert Reach(m, orders, queue) == reach;
      var left := remaining - Min(remaining, first.Remaining());
      GreedyAlike(orders, id, remaining, reach, queue, left, left <= 0);
    }
  }

  lemma BeginsLater(m: Maths, orders: seq<Order>, id: nat, remaining: int, queue: seq<nat>)
    requires id < |orders| && InTable(orders, queue) && queue != [] && !Blocks(m, orders[queue[0]])
    requires orders[queue[0]].Remaining() < remaining
    requires Begins(m, orders, id, remaining - orders[queue[0]].Remaining(), queue[1..])
    ensures Begins(m, orders, id, remaining, queue)
  {
    var reach, left, rest := Reach(m, orders, queue), remaining - orders[queue[0]].Remaining(), queue[1..];
    var stalls := StallsOn(m, orders, remaining, queue);
    ReachGoesOn(m, orders, queue);
    StallsStep(m, orders, remaining, queue);
    assert stalls <==> StallsOn(m, orders, left, rest);
    assert reach[1..] == Reach(m, orders, rest);
    GreedyAlike(orders, id, remaining, reach, queue, left, !stalls);
  }

  lemma ReachGoesOn(m: Maths, orders: seq<Order>, queue: seq<nat>)
    requires InTable(orders, queue) && queue != [] && !Blocks(m, orders[queue[0]])
    ensures InTable(orders, Reach(m, orders, queue))
    ensures Reach(m, orders, queue) != [] && Reach(m, orders, queue)[0] == queue[0]
    ensures Reach(m, orders, queue)[1..] == Reach(m, orders, queue[1..])
  {
  }

  lemma BeginsAtEnd(m: Maths, orders: seq<Order>, id: nat, remaining: int, queue: seq<nat>)
    requires id < |orders| && InTable(orders, queue) && 0 < remaining && queue != [] && !Blocks(m, orders[queue[0]])
    requires remaining <= orders[queue[0]].Remaining()
    ensures Begins(m, orders, id, remaining, queue)
  {
    var reach := Reach(m, orders, queue);
    assert reach[0] == queue[0];
    GreedyAlike(orders, id, remaining, reach, queue, 0, true);
  }

  lemma {:induction false} GreedyInReach(m: Maths, orders: seq<Order>, id: nat, remaining: int, queue: seq<nat>)
    requires id < |orders| && InTable(orders, queue)
    ensures Begins(m, orders, id, remaining, queue)
    decreases |queue|
  {
    if queue != [] && 0 < remaining {
      if Blocks(m, orders[queue[0]]) {
        BeginsAtBlock(m, orders, id, remaining, queue);
      } else if orders[queue[0]].Remaining() < remaining {
        GreedyInReach(m, orders, id, remaining - orders[queue[0]].Remaining(), queue[1..]);
        BeginsLater(m, orders, id, remaining, queue);
      } else {
        BeginsAtEnd(m, orders, id, remaining, queue);
      }
    }
  }

  // ----- One fill -----

  lemma QueueDropsFront(orders: seq<Order>, after: seq<Order>, id: nat, queue: seq<nat>)
    requires id < |orders| == |after| && IsQueue(orders, id, queue) && queue != []
    requires forall c :: 0 <= c < |orders| ==> Progress(orders[c], after[c])
    requires forall c :: 0 <= c < |orders| && c != id && c != queue[0] ==> after[c] == orders[c]
    requires !after[queue[0]].IsOpen()
    ensures Queue(after, id) == queue[1..]
  {
    var rest, next, side := queue[1..], Queue(after, id), Opposite(orders[id].side);
    QueueIsQueue(after, id);
    forall c ensures c in rest <==> c in next {
      if c in rest {
        var k :| 0 <= k < |rest| && rest[k] == c;
        assert queue[k + 1] == c && c in queue && Before(orders, queue[0], queue[k + 1]);
        assert Eligible(after, id, c);
      }
      if c in next {
        assert Eligible(after, id, c) && Eligible(orders, id, c);
        assert c in queue && c != queue[0];
      }
    }
    PriorityIsUnique(after, rest, next, side);
  }

  lemma QueueKeepsFront(orders: seq<Order>, after: seq<Order>, id: nat, queue: seq<nat>)
    requires id < |orders| == |after| && IsQueue(orders, id, queue) && queue != []
    requires forall c :: 0 <= c < |orders| ==> Progress(orders[c], after[c])
    requires forall c :: 0 <= c < |orders| && c != id && c != queue[0] ==> after[c] == orders[c]
    requires after[queue[0]].IsOpen()
    ensures Queue(after, id) == queue
  {
    var next := Queue(after, id);
    QueueIsQueue(after, id);
    assert queue[0] in queue;
    forall c ensures c in queue <==> c in next {
      assert Eligible(after, id, c) <==> Eligible(orders, id, c);
    }
    PriorityIsUnique(after, queue, next, Opposite(orders[id].side));
  }

  lemma FrontIsTradable(orders: seq<Order>, id: nat, queue: seq<nat>)
    requires id < |orders| && IsQueue(orders, id, queue) && queue != [] && orders[id].IsOpen() && 0 < orders[id].Remaining()
    requires queue[0] < |orders| && 0 < orders[queue[0]].Remaining()
    ensures Tradable(orders, id, queue[0])
    ensures forall k :: 0 < k < |queue| ==> queue[k] != queue[0] && queue[k] != id
  {
    assert queue[0] in queue;
    assert Eligible(orders, id, queue[0]);
    forall k | 0 < k < |queue| ensures queue[k] != queue[0] && queue[k] != id {
      assert queue[k] in queue && Before(orders, queue[0], queue[k]);
    }
  }

  /** What a fill with the front does to the two orders. */
  lemma FillTakesBoth(m: Maths, orders: seq<Order>, id: nat, c: nat)
    requires Tradable(orders, id, c) && OrderOk(orders[id]) && OrderOk(orders[c])
    ensures var tr := Match(orders, id, c);
      var after := FillBoth(m, orders, tr);
      && |after| == |orders|
      && after[id].Remaining() == orders[id].Remaining() - tr.quantity
      && Progress(orders[id], after[id]) && Progress(orders[c], after[c])
      && (forall k :: 0 <= k < |orders| && k != id && k != c ==> after[k] == orders[k])
      && (0 < after[id].Remaining() ==>
            && after[id].IsOpen() && after[c].Remaining() == 0
            && (after[c].IsOpen() <==> IsSticky(m, orders[c])))
  {
    MatchIsTradeOk(orders, id, c);
  }

  /** All orders of the queue but the first are as they were. */
  predicate RestUnchanged(orders: seq<Order>, after: seq<Order>, queue: seq<nat>) {
    |after| == |orders| && forall k :: 0 < k < |queue| ==> queue[k] < |orders| && after[queue[k]] == orders[queue[k]]
  }

  /**
   After a fill with the front of the queue, the incoming order has nothing left, or the front has
   nothing left and leaves the queue, unless the comparison missed that.
   */
  lemma FillAdvancesQueue(m: Maths, orders: seq<Order>, id: nat, queue: seq<nat>)
    requires id < |orders| && forall i :: 0 <= i < |orders| ==> OrderOk(orders[i])
    requires IsQueue(orders, id, queue) && queue != [] && orders[id].IsOpen() && 0 < orders[id].Remaining()
    requires 0 < orders[queue[0]].Remaining()
    ensures Tradable(orders, id, queue[0])
    ensures var tr := Match(orders, id, queue[0]);
      var after := FillBoth(m, orders, tr);
      && after[id].Remaining() == orders[id].Remaining() - tr.quantity
      && Progress(orders[id], after[id])
      && RestUnchanged(orders, after, queue)
      && (0 < after[id].Remaining() ==>
            && after[id].IsOpen() && after[queue[0]].Remaining() == 0
            && Queue(after, id) == if IsSticky(m, orders[queue[0]]) then queue else queue[1..])
  {
    FrontIsTradable(orders, id, queue);
    FillTakesBoth(m, orders, id, queue[0]);
    var after := FillBoth(m, orders, Match(orders, id, queue[0]));
    if 0 < after[id].Remaining() {
      if IsSticky(m, orders[queue[0]]) {
        QueueKeepsFront(orders, after, id, queue);
      } else {
        QueueDropsFront(orders, after, id, queue);
      }
    }
  }

  // ----- The plan of an order -----

  function ReachOf(m: Maths, orders: seq<Order>, id: nat): seq<nat>
    requires id < |orders|
  {
    QueueIsQueue(orders, id);
    Reach(m, orders, Queue(orders, id))
  }

  /** The greedy plan for an order as it stands: nothing if it is not open. */
  function Plan(m: Maths, orders: seq<Order>, id: nat): seq<Trade>
    requires id < |orders|
  {
    Greedy(orders, id, if orders[id].IsOpen() then orders[id].Remaining() else 0, ReachOf(m, orders, id))
  }

  /** Price-time priority and nothing else: the greedy plan against all orders of other users that cross. */
  function GreedyPlan(orders: seq<Order>, id: nat): seq<Trade>
    requires id < |orders|
  {
    QueueIsQueue(orders, id);
    Greedy(orders, id, if orders[id].IsOpen() then orders[id].Remaining() else 0, Queue(orders, id))
  }

  /**
   For every book: the plan is the beginning of the greedy plan, and all of it unless the order
   stalls. It goes down the queue, fills every candidate but the last completely, and trades all
   that the order and the part of its queue in reach allow.
   */
  lemma PlanFillsInTurn(m: Maths, orders: seq<Order>, id: nat)
    requires id < |orders| && forall i :: 0 <= i < |orders| ==> OrderOk(orders[i])
    ensures IsQueue(orders, id, Queue(orders, id)) && ReachOf(m, orders, id) <= Queue(orders, id)
    ensures Plan(m, orders, id) <= GreedyPlan(orders, id)
    ensures !Stalls(m, orders, id) ==> Plan(m, orders, id) == GreedyPlan(orders, id)
    ensures orders[id].IsOpen() ==>
      var plan, reach := Plan(m, orders, id), ReachOf(m, orders, id);
      IsInTurn(orders, id, reach, plan) && Volume(plan) == Min(orders[id].Remaining(), Available(orders, reach))
  {
    var queue := Queue(orders, id);
    QueueIsQueue(orders, id);
    assert OrderOk(orders[id]);
    assert forall k :: 0 <= k < |queue| ==> OrderOk(orders[queue[k]]);
    if orders[id].IsOpen() {
      GreedyInReach(m, orders, id, orders[id].Remaining(), queue);
      GreedyFillsInTurn(orders, id, orders[id].Remaining(), ReachOf(m, orders, id));
    }
  }

  // ----- The greedy plan against the columns -----

  /** Every trade but the last takes all that remains of its candidate, at its candidate's price. */
  lemma {:induction false} GreedyExhausts(orders: seq<Order>, id: nat, remaining: int, queue: seq<nat>, k: nat)
    requires id < |orders| && InTable(orders, queue) && k < |Greedy(orders, id, remaining, queue)|
    ensures var plan := Greedy(orders, id, remaining, queue);
      && |plan| <= |queue| && plan[k].price == orders[queue[k]].price
      && plan[k] == TradeOf(orders, id, queue[k], plan[k].quantity)
      && (k < |plan| - 1 ==> plan[k].quantity == orders[queue[k]].Remaining())
    decreases |queue|
  {
    var quantity := Min(remaining, orders[queue[0]].Remaining());
    var rest := Greedy(orders, id, remaining - quantity, queue[1..]);
    GreedyFirst(orders, id, remaining, queue, remaining - quantity);
    if k > 0 {
      GreedyExhausts(orders, id, remaining - quantity, queue[1..], k - 1);
      assert Greedy(orders, id, remaining, queue)[k] == rest[k - 1] && queue[k] == queue[1..][k - 1];
    }
  }

  predicate TradesWith(tr: Trade, c: nat) {
    tr.buy == c || tr.sell == c
  }

  /** Prices only get worse along the greedy plan. */
  lemma GreedyPricesWorsen(orders: seq<Order>, id: nat, j: nat, k: nat)
    requires id < |orders| && forall i :: 0 <= i < |orders| ==> OrderOk(orders[i])
    requires j < k < |GreedyPlan(orders, id)|
    ensures !IsBetter(orders[id], GreedyPlan(orders, id)[k].price, GreedyPlan(orders, id)[j].price)
  {
    var queue := Queue(orders, id);
    QueueIsQueue(orders, id);
    QueueIsByPrice(orders, id);
    assert forall i :: 0 <= i < |queue| ==> OrderOk(orders[queue[i]]);
    var remaining := if orders[id].IsOpen() then orders[id].Remaining() else 0;
    GreedyExhausts(orders, id, remaining, queue, j);
    GreedyExhausts(orders, id, remaining, queue, k);
  }

  /** An order with a better price than the last trade of the greedy plan is taken whole by an earlier one. */
  lemma NoBetterPriceIsLeft(orders: seq<Order>, id: nat, c: nat) returns (k: nat)
    requires id < |orders| && forall i :: 0 <= i < |orders| ==> OrderOk(orders[i])
    requires c < |orders| && MayMatch(orders[id], orders[c]) && GreedyPlan(orders, id) != []
    requires var plan := GreedyPlan(orders, id); IsBetter(orders[id], orders[c].price, plan[|plan| - 1].price)
    ensures var plan := GreedyPlan(orders, id);
      k < |plan| - 1 && TradesWith(plan[k], c) && plan[k].quantity == orders[c].quantity - orders[c].filled
  {
    var queue, plan := Queue(orders, id), GreedyPlan(orders, id);
    QueueIsQueue(orders, id);
    QueueIsByPrice(orders, id);
    assert forall i :: 0 <= i < |queue| ==> OrderOk(orders[queue[i]]);
    var remaining := if orders[id].IsOpen() then orders[id].Remaining() else 0;
    GreedyExhausts(orders, id, remaining, queue, |plan| - 1);
    assert c in queue;
    k :| 0 <= k < |queue| && queue[k] == c;
    assert k < |plan| - 1;
    GreedyExhausts(orders, id, remaining, queue, k);
  }

  /** An open order that is not done, and a front that it can trade with. */
  predicate CanTrade(orders: seq<Order>, id: nat, queue: seq<nat>) {
    && id < |orders| && orders[id].IsOpen() && 0 < orders[id].Remaining()
    && queue == Queue(orders, id) && queue != [] && queue[0] < |orders| && 0 < orders[queue[0]].Remaining()
    && forall i :: 0 <= i < |orders| ==> OrderOk(orders[i])
  }

  lemma PlanStarts(m: Maths, orders: seq<Order>, id: nat, queue: seq<nat>)
    requires CanTrade(orders, id, queue)
    ensures IsQueue(orders, id, queue) && Tradable(orders, id, queue[0])
    ensures var reach, tr := ReachOf(m, orders, id), Match(orders, id, queue[0]);
      && reach != [] && reach <= queue
      && Plan(m, orders, id) == [tr] + Greedy(orders, id, orders[id].Remaining() - tr.quantity, reach[1..])
  {
    QueueIsQueue(orders, id);
    FillAdvancesQueue(m, orders, id, queue);
    var reach := ReachOf(m, orders, id);
    assert reach[0] == queue[0];
  }

  lemma PlanEnds(m: Maths, orders: seq<Order>, id: nat, queue: seq<nat>)
    requires CanTrade(orders, id, queue) && orders[id].Remaining() <= orders[queue[0]].Remaining()
    ensures |Plan(m, orders, id)| == 1 && !Stalls(m, orders, id)
  {
    PlanStarts(m, orders, id, queue);
    assert forall k :: 0 <= k < |queue| ==> OrderOk(orders[queue[k]]);
    StallsStep(m, orders, orders[id].Remaining(), queue);
    NothingWanted(m, orders, orders[id].Remaining() - orders[queue[0]].Remaining(), queue[1..]);
  }

  /** A fill with the front leaves what comes after it in the queue as it was. */
  lemma RestStays(m: Maths, orders: seq<Order>, after: seq<Order>, id: nat, left: int, rest: seq<nat>)
    requires id < |orders| == |after| && Progress(orders[id], after[id])
    requires forall k :: 0 <= k < |rest| ==>
      rest[k] < |orders| && orders[rest[k]] == after[rest[k]] && 0 <= orders[rest[k]].Remaining()
    ensures Reach(m, after, rest) == Reach(m, orders, rest)
    ensures Greedy(after, id, left, Reach(m, orders, rest)) == Greedy(orders, id, left, Reach(m, orders, rest))
    ensures StallsOn(m, after, left, rest) <==> StallsOn(m, orders, left, rest)
  {
    ReachFrame(m, orders, after, left, rest);
    GreedyFrame(orders, after, id, left, Reach(m, orders, rest));
  }

  /** If the front does not block, it comes first in reach, and stalling is up to the rest. */
  lemma FrontIsReached(m: Maths, orders: seq<Order>, id: nat, queue: seq<nat>)
    requires CanTrade(orders, id, queue) && !IsSticky(m, orders[queue[0]])
    ensures forall k :: 0 <= k < |queue| ==> queue[k] < |orders| && 0 <= orders[queue[k]].Remaining()
    ensures ReachOf(m, orders, id) == [queue[0]] + Reach(m, orders, queue[1..])
    ensures Stalls(m, orders, id)
       <==> StallsOn(m, orders, orders[id].Remaining() - orders[queue[0]].Remaining(), queue[1..])
  {
    PlanStarts(m, orders, id, queue);
    assert forall k :: 0 <= k < |queue| ==> queue[k] in queue;
    assert forall k :: 0 <= k < |queue| ==> OrderOk(orders[queue[k]]);
    StallsStep(m, orders, orders[id].Remaining(), queue);
  }

  lemma PlanGoesOnFrom(m: Maths, orders: seq<Order>, after: seq<Order>, id: nat, queue: seq<nat>, tr: Trade)
    requires CanTrade(orders, id, queue) && !IsSticky(m, orders[queue[0]]) && tr.quantity == orders[queue[0]].Remaining()
    requires id < |after| && Progress(orders[id], after[id]) && after[id].IsOpen() && Queue(after, id) == queue[1..]
    requires after[id].Remaining() == orders[id].Remaining() - tr.quantity
    requires RestUnchanged(orders, after, queue)
    requires Plan(m, orders, id) == [tr] + Greedy(orders, id, after[id].Remaining(), ReachOf(m, orders, id)[1..])
    ensures ReachOf(m, after, id) == ReachOf(m, orders, id)[1..] && Plan(m, after, id) == Plan(m, orders, id)[1..]
    ensures Stalls(m, after, id) <==> Stalls(m, orders, id)
  {
    FrontIsReached(m, orders, id, queue);
    RestIsUntouched(orders, after, queue);
    PlanContinues(m, orders, after, id, queue[0], queue[1..], tr);
  }

  lemma PlanGoesOn(m: Maths, orders: seq<Order>, id: nat, queue: seq<nat>, after: seq<Order>)
    requires CanTrade(orders, id, queue) && orders[queue[0]].Remaining() < orders[id].Remaining()
    requires !IsSticky(m, orders[queue[0]])
    requires Tradable(orders, id, queue[0]) && after == FillBoth(m, orders, Match(orders, id, queue[0]))
    ensures ReachOf(m, after, id) == ReachOf(m, orders, id)[1..] && Plan(m, after, id) == Plan(m, orders, id)[1..]
    ensures Stalls(m, after, id) <==> Stalls(m, orders, id)
  {
    var tr := Match(orders, id, queue[0]);
    assert tr.quantity == orders[queue[0]].Remaining();
    PlanStarts(m, orders, id, queue);
    FillAdvancesQueue(m, orders, id, queue);
    PlanGoesOnFrom(m, orders, after, id, queue, tr);
  }

  predicate Untouched(orders: seq<Order>, after: seq<Order>, rest: seq<nat>)
    requires |orders| == |after|
  {
    forall k :: 0 <= k < |rest| ==>
      rest[k] < |orders| && after[rest[k]] == orders[rest[k]] && 0 <= orders[rest[k]].Remaining()
  }

  lemma RestIsUntouched(orders: seq<Order>, after: seq<Order>, queue: seq<nat>)
    requires |orders| == |after| && queue != []
    requires forall k :: 0 <= k < |queue| ==> queue[k] < |orders| && 0 <= orders[queue[k]].Remaining()
    requires RestUnchanged(orders, after, queue)
    ensures Untouched(orders, after, queue[1..])
  {
    forall k | 0 <= k < |queue[1..]| ensures after[queue[1..][k]] == orders[queue[1..][k]] {
      assert queue[1..][k] == queue[k + 1];
    }
  }

  lemma PlanContinues(m: Maths, orders: seq<Order>, after: seq<Order>, id: nat, front: nat, rest: seq<nat>, tr: Trade)
    requires id < |orders| == |after| && Progress(orders[id], after[id]) && after[id].IsOpen() && Queue(after, id) == rest
    requires Untouched(orders, after, rest)
    requires ReachOf(m, orders, id) == [front] + Reach(m, orders, rest)
    requires Plan(m, orders, id) == [tr] + Greedy(orders, id, after[id].Remaining(), Reach(m, orders, rest))
    requires Stalls(m, orders, id) <==> StallsOn(m, orders, after[id].Remaining(), rest)
    ensures ReachOf(m, after, id) == ReachOf(m, orders, id)[1..] && Plan(m, after, id) == Plan(m, orders, id)[1..]
    ensures Stalls(m, after, id) <==> Stalls(m, orders, id)
  {
    var left := after[id].Remaining();
    RestStays(m, orders, after, id, left, rest);
    SamePlan(m, orders, after, id, left, rest);
  }

  lemma SamePlan(m: Maths, orders: seq<Order>, after: seq<Order>, id: nat, left: int, rest: seq<nat>)
    requires id < |after| && id < |orders| && after[id].IsOpen() && left == after[id].Remaining() && Queue(after, id) == rest
    requires forall k :: 0 <= k < |rest| ==> rest[k] < |orders| && rest[k] < |after|
    requires Reach(m, after, rest) == Reach(m, orders, rest)
    requires Greedy(after, id, left, Reach(m, orders, rest)) == Greedy(orders, id, left, Reach(m, orders, rest))
    requires StallsOn(m, after, left, rest) <==> StallsOn(m, orders, left, rest)
    ensures ReachOf(m, after, id) == Reach(m, orders, rest)
    ensures Plan(m, after, id) == Greedy(orders, id, left, Reach(m, orders, rest))
    ensures Stalls(m, after, id) <==> StallsOn(m, orders, left, rest)
  {
  }

  lemma PlanGetsStuck(m: Maths, orders: seq<Order>, id: nat, queue: seq<nat>, after: seq<Order>)
    requires CanTrade(orders, id, queue) && orders[queue[0]].Remaining() < orders[id].Remaining()
    requires IsSticky(m, orders[queue[0]])
    requires Tradable(orders, id, queue[0]) && after == FillBoth(m, orders, Match(orders, id, queue[0]))
    ensures ReachOf(m, after, id) == ReachOf(m, orders, id)[1..] && Plan(m, after, id) == Plan(m, orders, id)[1..] == []
    ensures Stalls(m, after, id) && Stalls(m, orders, id)
  {
    PlanStarts(m, orders, id, queue);
    FillAdvancesQueue(m, orders, id, queue);
    StuckInFront(m, after, id);
    assert forall k :: 0 <= k < |queue| ==> OrderOk(orders[queue[k]]);
    StallsStep(m, orders, orders[id].Remaining(), queue);
  }

  /** With nothing left of the front, there is nothing in reach and no way past. */
  lemma StuckInFront(m: Maths, orders: seq<Order>, id: nat)
    requires id < |orders| && orders[id].IsOpen() && 0 < orders[id].Remaining()
    requires var queue := Queue(orders, id); queue != [] && queue[0] < |orders| && orders[queue[0]].Remaining() == 0
    ensures ReachOf(m, orders, id) == [] && Plan(m, orders, id) == [] && Stalls(m, orders, id)
  {
    var queue := Queue(orders, id);
    QueueIsQueue(orders, id);
    AvailableFirst(orders, queue, 0);
    assert Blocks(m, orders[queue[0]]) && Available(orders, queue[..0 + 1]) < orders[id].Remaining();
  }

  /** A fill with the front is the first trade of the plan, and what is left of the plan is the plan for what is left. */
  lemma PlanAdvances(m: Maths, orders: seq<Order>, id: nat, queue: seq<nat>)
    requires CanTrade(orders, id, queue)
    ensures Tradable(orders, id, queue[0])
    ensures var plan, reach := Plan(m, orders, id), ReachOf(m, orders, id);
      && reach != [] && reach[0] == queue[0] && plan != [] && plan[0] == Match(orders, id, queue[0])
      && var after := FillBoth(m, orders, plan[0]);
         if 0 < after[id].Remaining() then
           && after[id].IsOpen() && ReachOf(m, after, id) == reach[1..] && Plan(m, after, id) == plan[1..]
           && (Stalls(m, after, id) <==> Stalls(m, orders, id))
         else |plan| == 1 && !Stalls(m, orders, id)
  {
    PlanStarts(m, orders, id, queue);
    FillAdvancesQueue(m, orders, id, queue);
    var after := FillBoth(m, orders, Match(orders, id, queue[0]));
    if orders[id].Remaining() <= orders[queue[0]].Remaining() {
      PlanEnds(m, orders, id, queue);
    } else if IsSticky(m, orders[queue[0]]) {
      PlanGetsStuck(m, orders, id, queue, after);
    } else {
      PlanGoesOn(m, orders, id, queue, after);
    }
  }
}
