/**
 The matching engine: selection of a candidate, execution of one trade in one
 transaction, and the loop that trades an incoming order until it can trade no more.
 */
module Engine {
  import opened Money
  import opened Arithmetic
  import opened Tables
  import opened Columns
  import opened Orders
  import opened Ledger
  import opened Holdings
  import opened Matching
  import opened Exchange
  import opened Statuses
  import opened Store

  datatype RoundResult = Continue | Returned | Errored

  datatype Selection = Candidate(id: nat) | Nothing | Fault

  datatype TradeResult = Traded | NotMatched | TradeFailed

  /** The fills of `id` with each order of a queue in turn. */
  function Fills(id: nat, queue: seq<nat>, scale: Scale): seq<Commit> {
    seq(|queue|, k requires 0 <= k < |queue| => Fill(id, queue[k], scale))
  }

  /** An order that is closed, of which nothing remains, or that nothing crosses. */
  predicate Finished(orders: seq<Order>, id: nat) {
    id < |orders| && (orders[id].IsOpen() && 0 < orders[id].Remaining() ==> Queue(orders, id) == [])
  }

  /** A row that was read from the table at some earlier time. */
  predicate IsCopy(orders: seq<Order>, id: nat, row: Order) {
    id < |orders| && Progress(row, orders[id])
  }

  class Engine {
    const db: Database

    constructor (db: Database)
      ensures this.db == db
    {
      this.db := db;
    }

    /** The first order of the book that belongs to someone else and crosses. */
    method FirstCrossing(id: nat, incoming: Order) returns (r: Option<nat>)
      requires IsCopy(db.orders, id, incoming)
      ensures r == if Queue(db.orders, id) == [] then None else Some(Queue(db.orders, id)[0])
    {
      QueueIsQueue(db.orders, id);
      var side := Opposite(incoming.side);
      var book := BookOf(db.orders, |db.orders|, incoming.asset, side);
      for k := 0 to |book|
        invariant Filter(db.orders, id, book) == Filter(db.orders, id, book[k..])
      {
        var c := db.orders[book[k]];
        assert book[k] in book && book[k..][1..] == book[k + 1..];
        if c.user == incoming.user {
          continue;
        }
        var crosses := if incoming.side == Buy then c.price <= incoming.price else c.price >= incoming.price;
        if crosses {
          return Some(book[k]);
        }
      }
      r := None;
    }

    /** The best price on offer to an order, and the earliest at that price. */
    method FindBestCandidate(id: nat, incoming: Order) returns (r: Option<nat>)
      requires IsCopy(db.orders, id, incoming)
      ensures r == if Queue(db.orders, id) == [] then None else Some(Queue(db.orders, id)[0])
      ensures r.Some? ==>
        && r.value < |db.orders| && MayMatch(incoming, db.orders[r.value])
        && forall j :: 0 <= j < |db.orders| && MayMatch(incoming, db.orders[j]) ==>
             NoWorse(incoming, db.orders[r.value], db.orders[j])
      ensures r.None? ==> forall j :: 0 <= j < |db.orders| ==> !MayMatch(incoming, db.orders[j])
    {
      r := FirstCrossing(id, incoming);
      FrontIsBest(db.orders, id);
    }

    /** The trade row and both fills, before any money moves. */
    method FillOrders(tr: Trade, broken: set<Call>) returns (ok: bool)
      requires TradeOk(db.orders, tr)
      requires tr.quantity <= db.orders[tr.buy].Remaining() && tr.quantity <= db.orders[tr.sell].Remaining()
      modifies db`orders, db`trades
      ensures broken == {} ==> ok
      ensures ok ==> db.orders == FillBoth(db.maths, old(db.orders), tr) && db.trades == old(db.trades) + [tr]
    {
      var buy, sell := db.orders[tr.buy], db.orders[tr.sell];
      if Write(0) in broken {
        return false;
      }
      db.trades := db.trades + [tr];
      ok := db.UpdateFill(tr.buy, tr.quantity, NewStatus(db.maths, buy.filled, tr.quantity, buy.quantity));
      if !ok || Write(1) in broken {
        return false;
      }
      ok := db.UpdateFill(tr.sell, tr.quantity, NewStatus(db.maths, sell.filled, tr.quantity, sell.quantity));
      if !ok || Write(2) in broken {
        return false;
      }
    }

    method MoveHoldings(tr: Trade, scale: Scale, broken: set<Call>) returns (ok: bool)
      requires HoldingsOk(db.holdings) && 0 < tr.quantity && 0 <= tr.price && tr.buyer != tr.seller
      modifies db`holdings
      ensures ok ==> db.holdings == Reduce(Upsert(old(db.holdings), (tr.buyer, tr.asset), tr.quantity, tr.price, scale),
                                           (tr.seller, tr.asset), tr.quantity)
      ensures var bk, sk := (tr.buyer, tr.asset), (tr.seller, tr.asset);
        var fit := (bk in old(db.holdings) ==> Fits(old(db.holdings)[bk].quantity + tr.quantity))
                   && (sk in old(db.holdings) ==> tr.quantity <= old(db.holdings)[sk].quantity);
        (ok ==> fit) && (broken == {} && fit ==> ok)
    {
      ok := db.UpsertBuyerHolding(tr.buyer, tr.asset, tr.quantity, tr.price, scale);
      if !ok || Write(7) in broken {
        return false;
      }
      ok := db.ReduceSellerHolding(tr.seller, tr.asset, tr.quantity);
      if !ok || Write(8) in broken {
        return false;
      }
    }

    /** Debit the buyer, then credit the seller. */
    method MoveMoney(tr: Trade, broken: set<Call>) returns (ok: bool)
      requires tr.buyer != tr.seller
      modifies db`wallets, db`ledger
      ensures ok ==>
        && tr.buyer in old(db.wallets) && tr.seller in old(db.wallets)
        && db.wallets == PayBoth(db.maths, old(db.wallets), tr)
        && db.ledger == old(db.ledger) + [DebitRow(db.maths, tr)] + [CreditRow(db.maths, tr)]
      ensures var fit := Postable(db.maths, Wide, old(db.wallets), tr.buyer, tr.Paid(db.maths), Withdrawal)
                         && Postable(db.maths, Wide, old(db.wallets), tr.seller, tr.Paid(db.maths), Deposit);
        (ok ==> fit) && (broken == {} && fit ==> ok)
    {
      var cost := db.maths.cost(Wide, tr.price, tr.quantity);
      ok := db.PostToWallet(Wide, tr.buyer, cost, Withdrawal, FillOf(Buy, tr.buy), broken, 2, 3);
      if !ok {
        return;
      }
      ok := db.PostToWallet(Wide, tr.seller, cost, Deposit, FillOf(Sell, tr.sell), broken, 3, 5);
    }

    /** All the writes of a trade, inside its transaction. */
    method SettleTrade(tr: Trade, scale: Scale, broken: set<Call>) returns (ok: bool)
      requires TradeOk(db.orders, tr) && HoldingsOk(db.holdings)
      requires tr.quantity <= db.orders[tr.buy].Remaining() && tr.quantity <= db.orders[tr.sell].Remaining()
      modifies db
      ensures db.queue == old(db.queue)
      ensures ok ==> Payable(db.maths, old(db.View()), tr) && db.View() == Settle(db.maths, old(db.View()), tr, scale)
      ensures broken == {} && Payable(db.maths, old(db.View()), tr) ==> ok
    {
      ok := FillOrders(tr, broken);
      if !ok {
        return;
      }
      ok := MoveMoney(tr, broken);
      if !ok {
        return;
      }
      ok := MoveHoldings(tr, scale, broken);
    }

    /**
     One trade between two rows read earlier, in one transaction: it commits the whole
     settlement or leaves every table as it was, whichever calls fail.
     */
    method ExecuteTrade(inId: nat, incoming: Order, caId: nat, candidate: Order, scale: Scale, broken: set<Call>)
      returns (r: TradeResult)
      requires IsCopy(db.orders, inId, incoming) && IsCopy(db.orders, caId, candidate) && Crosses(incoming, candidate)
      requires Inv(db.maths, db.View())
      modifies db
      ensures db.queue == old(db.queue)
      ensures TradeOutcome(db.maths, old(db.View()), db.View(), inId, caId, scale, r, broken == {})
      ensures r.Traded? ==>
        && Enabled(db.maths, old(db.View()), Fill(inId, caId, scale))
        && db.View() == After(db.maths, old(db.View()), Fill(inId, caId, scale))
      ensures !r.Traded? ==> db.View() == old(db.View())
      ensures r.NotMatched? ==> !Tradable(old(db.orders), inId, caId)
      ensures broken == {} && !r.Traded? ==>
        r == if Tradable(old(db.orders), inId, caId) then TradeFailed else NotMatched
      ensures broken == {} ==> (r.Traded? <==> Enabled(db.maths, old(db.View()), Fill(inId, caId, scale)))
      ensures !CanMeet(old(db.orders), inId, caId) ==> !r.Traded? && (broken == {} ==> r.NotMatched?)
      ensures CanMeet(old(db.orders), inId, caId) ==>
        var tr := Match(old(db.orders), inId, caId);
        && (SurelyFails(old(db.View()), tr.buyer, tr.seller, tr.asset, tr.price, tr.quantity) ==> r.TradeFailed?)
        && (SurelyPays(old(db.View()), tr.buyer, tr.seller, tr.asset, tr.price, tr.quantity) && broken == {} ==> r.Traded?)
    {
      OnlyMeetingOrdersTrade(db.maths, db.View(), inId, caId, scale);
      FillIsDecided(db.maths, db.View(), inId, caId, scale);
      var buyId, sellId := inId, caId;
      if incoming.side == Sell {
        buyId, sellId := caId, inId;
      }
      if Begin in broken {
        return TradeFailed;
      }
      // The row with the lower id is locked first.
      var firstId, secondId := buyId, sellId;
      if firstId > secondId {
        firstId, secondId := secondId, firstId;
      }
      if Read(0) in broken || Read(1) in broken {
        return TradeFailed;
      }
      var buy, sell := db.orders[firstId], db.orders[secondId];
      if firstId != buyId {
        buy, sell := sell, buy;
      }
      if !buy.IsOpen() || !sell.IsOpen() {
        return NotMatched;
      }
      if sell.price > buy.price {
        return NotMatched;
      }
      var quantity := Min(buy.Remaining(), sell.Remaining());
      if quantity <= 0 {
        return NotMatched;
      }
      var tr := Trade(buyId, sellId, buy.asset, candidate.price, quantity, buy.user, sell.user);
      assert tr == Match(db.orders, inId, caId);
      MatchIsTradeOk(db.orders, inId, caId);
      var before := db.View();
      var ok := SettleTrade(tr, scale, broken);
      if !ok || CommitTx in broken {
        db.Rollback(before);
        return TradeFailed;
      }
      r := Traded;
    }

    /** Read the order again after a trade: is it done, or is there more to do? */
    method ReadAgain(id: nat, broken: set<Call>) returns (r: RoundResult)
      requires id < |db.orders|
      ensures r.Returned? ==> db.orders[id].status == Filled
      ensures broken == {} ==> (r.Returned? <==> db.orders[id].status == Filled) && !r.Errored?
    {
      r := if Read(12) in broken then Errored else if db.orders[id].status == Filled then Returned else Continue;
    }

    /** Read the order again after a pair that could not be matched. */
    method CheckUnmatched(id: nat, broken: set<Call>) returns (r: RoundResult)
      requires id < |db.orders|
      ensures r.Returned? ==> !db.orders[id].IsOpen()
      ensures broken == {} ==> (r.Continue? <==> db.orders[id].IsOpen()) && !r.Errored?
    {
      r := if Read(13) in broken then Errored else if db.orders[id].IsOpen() then Continue else Returned;
    }

    /** Read the order and pick what it should trade with next. */
    method Select(id: nat, broken: set<Call>) returns (r: Selection)
      requires id < |db.orders|
      ensures r.Candidate? ==>
        && db.orders[id].IsOpen() && 0 < db.orders[id].Remaining()
        && Queue(db.orders, id) != [] && r.id == Queue(db.orders, id)[0]
      ensures r.Nothing? ==> Finished(db.orders, id)
      ensures broken == {} ==> (r.Nothing? <==> Finished(db.orders, id)) && !r.Fault?
    {
      if Read(10) in broken {
        return Fault;
      }
      var current := db.orders[id];
      if current.status == Filled || current.status == Cancelled {
        return Nothing;
      }
      if current.Remaining() <= 0 {
        return Nothing;
      }
      if Read(11) in broken {
        return Fault;
      }
      var candidate := FindBestCandidate(id, current);
      r := if candidate.None? then Nothing else Candidate(candidate.value);
    }

    /** Trade with the front of the queue: one more fill of the plan, or nothing. */
    method TradeFront(id: nat, candidate: nat, scale: Scale, broken: set<Call>, ghost p: Progression, ghost n: nat)
      returns (r: TradeResult)
      requires Along(db.maths, p, db.View(), id, scale, n) && Inv(db.maths, db.View())
      requires db.orders[id].IsOpen() && 0 < db.orders[id].Remaining()
      requires Queue(db.orders, id) != [] && candidate == Queue(db.orders, id)[0]
      modifies db
      ensures Along(db.maths, p, db.View(), id, scale, if r.Traded? then n + 1 else n)
      ensures Inv(db.maths, db.View()) && db.queue == old(db.queue)
      ensures r.NotMatched? ==> n == |p.plan| && p.stalls && db.orders[id].IsOpen()
      ensures r.TradeFailed? && broken == {} ==> n < |p.plan| && !Payable(db.maths, db.View(), p.plan[n])
    {
      FrontIsNext(db.maths, p, db.View(), id, scale, n);
      ghost var before := db.View();
      r := ExecuteTrade(id, db.orders[id], candidate, db.orders[candidate], scale, broken);
      FrontOutcome(db.maths, p, before, db.View(), id, candidate, scale, n, r, broken == {});
    }

    /** One round of the loop: read the order, select, trade, and read it again. */
    method Round(id: nat, scale: Scale, broken: set<Call>, ghost p: Progression, n: nat)
      returns (r: RoundResult, k: nat)
      requires Along(db.maths, p, db.View(), id, scale, n) && Inv(db.maths, db.View())
      modifies db
      ensures Along(db.maths, p, db.View(), id, scale, k) && Inv(db.maths, db.View()) && db.queue == old(db.queue)
      ensures r.Continue? ==> k == n + 1 || (k == n == |p.plan| && p.stalls)
      ensures r.Returned? ==> k == |p.plan| && !p.stalls && Finished(db.orders, id)
      ensures r.Errored? && broken == {} ==> k < |p.plan| && !Payable(db.maths, db.View(), p.plan[k])
    {
      k := n;
      var s := Select(id, broken);
      match s
      case Fault => r := Errored;
      case Nothing =>
        AlongEnds(db.maths, p, db.View(), id, scale, n);
        r := Returned;
      case Candidate(c) =>
        var traded := TradeFront(id, c, scale, broken, p, n);
        if traded.Traded? {
          k := n + 1;
        }
        r := LookAgain(id, traded, broken, p, scale, k);
    }

    /** What follows a trade, a failure, or a pair that could not be matched. */
    method LookAgain(id: nat, traded: TradeResult, broken: set<Call>, ghost p: Progression, ghost scale: Scale, ghost k: nat)
      returns (r: RoundResult)
      requires Along(db.maths, p, db.View(), id, scale, k)
      requires traded.NotMatched? ==> db.orders[id].IsOpen()
      ensures r.Returned? ==> k == |p.plan| && !p.stalls && Finished(db.orders, id)
      ensures r.Continue? ==> !traded.TradeFailed?
      ensures r.Errored? && broken == {} ==> traded.TradeFailed?
    {
      match traded
      case TradeFailed => r := Errored;
      case NotMatched => r := CheckUnmatched(id, broken);
      case Traded => r := ReadAgain(id, broken);
      if r.Returned? {
        AlongEnds(db.maths, p, db.View(), id, scale, k);
      }
    }

    /**
     Trade an incoming order until it is closed or nothing crosses it, watched for a number of
     `turns` of the loop; Continue means that it is still going round.

     Whatever fails, the committed trades are the first `n` of the greedy plan against all orders of
     other users that cross, and the tables are those that the first `n` fills give. The loop
     returns only when that is the whole plan, and fails, if no call does, only in front of a trade
     that cannot be paid for. It is over within one turn more than it has trades, unless the order
     stalls; then it never returns, and after its trades goes round without changing anything. On
     books with exact statuses no order stalls.
     */
    method ProcessOrder(id: nat, scale: Scale, broken: nat -> set<Call>, turns: nat) returns (r: RoundResult, n: nat)
      requires id < |db.orders| && Inv(db.maths, db.View())
      modifies db
      ensures Inv(db.maths, db.View()) && db.queue == old(db.queue)
      ensures n <= |Plan(db.maths, old(db.orders), id)| <= |GreedyPlan(old(db.orders), id)| <= |Queue(old(db.orders), id)|
      ensures db.trades == old(db.trades) + GreedyPlan(old(db.orders), id)[..n]
      ensures db.View() == Steps(db.maths, old(db.View()), Fills(id, Queue(old(db.orders), id), scale)[..n])
      ensures r.Returned? ==>
        n == |GreedyPlan(old(db.orders), id)| && Finished(db.orders, id) && !Stalls(db.maths, old(db.orders), id)
      ensures r.Returned? ==>
        var o := db.orders[id];
        || o.status == Filled || o.status == Cancelled || o.quantity <= o.filled
        || forall j :: 0 <= j < |db.orders| ==> !MayMatch(o, db.orders[j])
      ensures r.Continue? && |Plan(db.maths, old(db.orders), id)| < turns ==>
        && n == |Plan(db.maths, old(db.orders), id)| && Stalls(db.maths, old(db.orders), id)
        && !IsExactBook(db.maths, old(db.orders))
      ensures (forall k :: broken(k) == {}) && r.Errored? ==>
        n < |Plan(db.maths, old(db.orders), id)| && !Payable(db.maths, db.View(), GreedyPlan(old(db.orders), id)[n])
    {
      ghost var p := Progression(db.View(), ReachOf(db.maths, db.orders, id), Plan(db.maths, db.orders, id),
                                 Stalls(db.maths, db.orders, id));
      AlongStarts(db.maths, p, id, scale);
      r, n := GoRound(id, scale, broken, turns, p);
      SeenFromQueue(db.maths, p, db.View(), id, scale, n);
      FrontIsBest(db.orders, id);
    }

    /** The loop, `turns` times at most. */
    method GoRound(id: nat, scale: Scale, broken: nat -> set<Call>, turns: nat, ghost p: Progression)
      returns (r: RoundResult, n: nat)
      requires Along(db.maths, p, db.View(), id, scale, 0) && Inv(db.maths, db.View())
      modifies db
      ensures Along(db.maths, p, db.View(), id, scale, n) && Inv(db.maths, db.View()) && db.queue == old(db.queue)
      ensures r.Continue? ==> n == turns || (n == |p.plan| && p.stalls)
      ensures r.Returned? ==> n == |p.plan| && !p.stalls && Finished(db.orders, id)
      ensures r.Errored? && (forall k :: broken(k) == {}) ==> n < |p.plan| && !Payable(db.maths, db.View(), p.plan[n])
    {
      n, r := 0, Continue;
      var turn := 0;
      while r.Continue? && turn < turns
        invariant turn <= turns
        invariant Along(db.maths, p, db.View(), id, scale, n) && Inv(db.maths, db.View()) && db.queue == old(db.queue)
        invariant r.Continue? ==> n == turn || (n == |p.plan| && p.stalls)
        invariant r.Returned? ==> n == |p.plan| && !p.stalls && Finished(db.orders, id)
        invariant r.Errored? && (forall k :: broken(k) == {}) ==> n < |p.plan| && !Payable(db.maths, db.View(), p.plan[n])
      {
        r, n := Round(id, scale, broken(turn), p, n);
        turn := turn + 1;
      }
    }
  }

  /** What the columns say about a fill before it is tried. */
  lemma FillIsDecided(m: Maths, t: Tables, i: nat, c: nat, scale: Scale)
    requires Inv(m, t)
    ensures CanMeet(t.orders, i, c) ==>
      var tr := Match(t.orders, i, c);
      && Tradable(t.orders, i, c)
      && (SurelyPays(t, tr.buyer, tr.seller, tr.asset, tr.price, tr.quantity) ==> Enabled(m, t, Fill(i, c, scale)))
      && (SurelyFails(t, tr.buyer, tr.seller, tr.asset, tr.price, tr.quantity) ==> !Enabled(m, t, Fill(i, c, scale)))
    ensures Tradable(t.orders, i, c) ==> CanMeet(t.orders, i, c)
  {
    if CanMeet(t.orders, i, c) {
      var tr := Match(t.orders, i, c);
      if SurelyPays(t, tr.buyer, tr.seller, tr.asset, tr.price, tr.quantity) {
        SurelyEnabled(m, t, i, c, scale);
      }
      if SurelyFails(t, tr.buyer, tr.seller, tr.asset, tr.price, tr.quantity) {
        SurelyDisabled(m, t, i, c, scale);
      }
    }
  }

  /** Where a `processOrder` started: the tables, the orders in reach, the plan, and whether it will stall. */
  datatype Progression = Progression(start: Tables, reach: seq<nat>, plan: seq<Trade>, stalls: bool)

  /** The tables are `n` fills into a plan. */
  ghost predicate Committed(m: Maths, p: Progression, t: Tables, id: nat, scale: Scale, n: nat) {
    && n <= |p.plan| <= |p.reach|
    && t.trades == p.start.trades + p.plan[..n]
    && t == Steps(m, p.start, Fills(id, p.reach, scale)[..n])
  }

  /** What is left of a plan after `n` fills is the plan for the order as it now stands. */
  ghost predicate Ahead(m: Maths, p: Progression, orders: seq<Order>, id: nat, n: nat) {
    && id < |orders| && n <= |p.plan| <= |p.reach|
    && if orders[id].IsOpen() && 0 < orders[id].Remaining() then
         && ReachOf(m, orders, id) == p.reach[n..] && Plan(m, orders, id) == p.plan[n..]
         && (Stalls(m, orders, id) <==> p.stalls)
       else n == |p.plan| && !p.stalls
  }

  ghost predicate Along(m: Maths, p: Progression, t: Tables, id: nat, scale: Scale, n: nat) {
    Committed(m, p, t, id, scale, n) && Ahead(m, p, t.orders, id, n)
  }

  lemma AlongStarts(m: Maths, p: Progression, id: nat, scale: Scale)
    requires id < |p.start.orders| && OrdersInv(m, p.start)
    requires p == Progression(p.start, ReachOf(m, p.start.orders, id), Plan(m, p.start.orders, id), Stalls(m, p.start.orders, id))
    ensures Along(m, p, p.start, id, scale, 0)
  {
    var orders := p.start.orders;
    if orders[id].IsOpen() && orders[id].Remaining() <= 0 {
      var queue := Queue(orders, id);
      QueueIsQueue(orders, id);
      assert forall k :: 0 <= k < |queue| ==> OrderOk(orders[queue[k]]);
      NothingWanted(m, orders, orders[id].Remaining(), queue);
    }
  }

  lemma FillsBeginAlike(id: nat, reach: seq<nat>, queue: seq<nat>, scale: Scale, n: nat)
    requires reach <= queue && n <= |reach|
    ensures Fills(id, reach, scale)[..n] == Fills(id, queue, scale)[..n]
  {
  }

  lemma PlansBeginAlike(plan: seq<Trade>, greedy: seq<Trade>, n: nat)
    requires plan <= greedy && n <= |plan|
    ensures plan[..n] == greedy[..n] && (n < |plan| ==> plan[n] == greedy[n])
  {
  }

  /** What has been committed, in terms of the greedy plan against the whole queue. */
  lemma SeenFromQueue(m: Maths, p: Progression, t: Tables, id: nat, scale: Scale, n: nat)
    requires id < |p.start.orders| && OrdersInv(m, p.start) && Committed(m, p, t, id, scale, n)
    requires p == Progression(p.start, ReachOf(m, p.start.orders, id), Plan(m, p.start.orders, id), Stalls(m, p.start.orders, id))
    ensures var greedy, queue := GreedyPlan(p.start.orders, id), Queue(p.start.orders, id);
      && n <= |p.plan| <= |greedy| <= |queue| && (!p.stalls ==> |p.plan| == |greedy|)
      && t.trades == p.start.trades + greedy[..n] && (n < |p.plan| ==> p.plan[n] == greedy[n])
      && t == Steps(m, p.start, Fills(id, queue, scale)[..n])
      && (p.stalls ==> !IsExactBook(m, p.start.orders))
  {
    PlanFillsInTurn(m, p.start.orders, id);
    PlansBeginAlike(p.plan, GreedyPlan(p.start.orders, id), n);
    FillsBeginAlike(id, p.reach, Queue(p.start.orders, id), scale, n);
    if IsExactBook(m, p.start.orders) {
      ExactBooksNeverStall(m, p.start.orders, id);
    }
  }

  lemma AlongEnds(m: Maths, p: Progression, t: Tables, id: nat, scale: Scale, n: nat)
    requires Along(m, p, t, id, scale, n) && Finished(t.orders, id)
    ensures n == |p.plan| && !p.stalls
  {
  }

  lemma OneMore<T>(s: seq<T>, n: nat)
    requires n < |s|
    ensures s[..n + 1] == s[..n] + [s[n]] && s[..n + 1][..n] == s[..n]
    ensures s[n..][0] == s[n] && s[n..][1..] == s[n + 1..]
  {
  }

  lemma FillExtendsSteps(m: Maths, p: Progression, t: Tables, id: nat, scale: Scale, n: nat)
    requires n < |p.reach| && t == Steps(m, p.start, Fills(id, p.reach, scale)[..n])
    ensures Step(m, t, Fill(id, p.reach[n], scale)) == Steps(m, p.start, Fills(id, p.reach, scale)[..n + 1])
  {
    OneMore(Fills(id, p.reach, scale), n);
  }

  /** If the front of the queue can be traded with, that is the next step of the plan; if not, the order has stalled. */
  lemma FrontIsNext(m: Maths, p: Progression, t: Tables, id: nat, scale: Scale, n: nat)
    requires Along(m, p, t, id, scale, n) && OrdersOk(m, t.orders, t.trades)
    requires t.orders[id].IsOpen() && 0 < t.orders[id].Remaining() && Queue(t.orders, id) != []
    ensures var c := Queue(t.orders, id)[0];
      && c < |t.orders| && Crosses(t.orders[id], t.orders[c])
      && if 0 < t.orders[c].Remaining()
         then Tradable(t.orders, id, c) && n < |p.plan| && p.plan[n] == Match(t.orders, id, c)
         else !Tradable(t.orders, id, c) && n == |p.plan| && p.stalls
  {
    var queue := Queue(t.orders, id);
    QueueIsQueue(t.orders, id);
    assert queue[0] in queue;
    assert OrderOk(t.orders[queue[0]]);
    if 0 < t.orders[queue[0]].Remaining() {
      AheadAdvances(m, p, t.orders, id, n, queue);
    } else {
      StuckInFront(m, t.orders, id);
    }
  }

  lemma FillShape(m: Maths, t: Tables, i: nat, c: nat, scale: Scale)
    requires Enabled(m, t, Fill(i, c, scale))
    ensures var u, tr := After(m, t, Fill(i, c, scale)), Match(t.orders, i, c);
      u.orders == FillBoth(m, t.orders, tr) && u.trades == t.trades + [tr]
  {
  }

  /** What `ExecuteTrade` has done to the tables, by its answer. */
  ghost predicate TradeOutcome(m: Maths, t: Tables, u: Tables, i: nat, c: nat, scale: Scale, r: TradeResult, unbroken: bool) {
    match r
    case Traded => Enabled(m, t, Fill(i, c, scale)) && u == After(m, t, Fill(i, c, scale))
    case NotMatched => u == t && !Tradable(t.orders, i, c)
    case TradeFailed => u == t && (unbroken ==> Tradable(t.orders, i, c) && !Enabled(m, t, Fill(i, c, scale)))
  }

  /** What that means for the plan. */
  lemma FrontOutcome(m: Maths, p: Progression, t: Tables, u: Tables, id: nat, c: nat, scale: Scale, n: nat,
                     r: TradeResult, unbroken: bool)
    requires Along(m, p, t, id, scale, n) && Inv(m, t) && t.orders[id].IsOpen() && 0 < t.orders[id].Remaining()
    requires Queue(t.orders, id) != [] && c == Queue(t.orders, id)[0] && TradeOutcome(m, t, u, id, c, scale, r, unbroken)
    ensures Along(m, p, u, id, scale, if r.Traded? then n + 1 else n) && Inv(m, u)
    ensures r.NotMatched? ==> n == |p.plan| && p.stalls && u.orders[id].IsOpen()
    ensures r.TradeFailed? && unbroken ==> n < |p.plan| && !Payable(m, u, p.plan[n])
  {
    FrontIsNext(m, p, t, id, scale, n);
    if r.Traded? {
      TradeAdvances(m, p, t, id, c, scale, n);
    } else if r.TradeFailed? && unbroken {
      FailedIsUnpayable(m, t, id, c, scale);
    }
  }

  lemma FailedIsUnpayable(m: Maths, t: Tables, i: nat, c: nat, scale: Scale)
    requires Inv(m, t) && Tradable(t.orders, i, c) && !Enabled(m, t, Fill(i, c, scale))
    ensures !Payable(m, t, Match(t.orders, i, c))
  {
    assert OrderOk(t.orders[c]);
  }

  lemma TradeAdvances(m: Maths, p: Progression, t: Tables, id: nat, c: nat, scale: Scale, n: nat)
    requires Along(m, p, t, id, scale, n) && Inv(m, t) && t.orders[id].IsOpen() && 0 < t.orders[id].Remaining()
    requires Queue(t.orders, id) != [] && c == Queue(t.orders, id)[0] && Enabled(m, t, Fill(id, c, scale))
    ensures Along(m, p, After(m, t, Fill(id, c, scale)), id, scale, n + 1)
    ensures Inv(m, After(m, t, Fill(id, c, scale)))
  {
    AlongAdvances(m, p, t, id, scale, n, Queue(t.orders, id));
    StepKeepsInv(m, t, Fill(id, c, scale));
  }

  lemma AheadAdvances(m: Maths, p: Progression, orders: seq<Order>, id: nat, n: nat, queue: seq<nat>)
    requires Ahead(m, p, orders, id, n) && CanTrade(orders, id, queue)
    ensures Tradable(orders, id, queue[0]) && n < |p.plan|
    ensures p.plan[n] == Match(orders, id, queue[0]) && p.reach[n] == queue[0]
    ensures Ahead(m, p, FillBoth(m, orders, p.plan[n]), id, n + 1)
  {
    PlanAdvances(m, orders, id, queue);
    OneMore(p.plan, n);
    OneMore(p.reach, n);
  }

  lemma CommittedAdvances(m: Maths, p: Progression, t: Tables, u: Tables, id: nat, scale: Scale, n: nat)
    requires Committed(m, p, t, id, scale, n) && n < |p.plan|
    requires u == Step(m, t, Fill(id, p.reach[n], scale)) && u.trades == t.trades + [p.plan[n]]
    ensures Committed(m, p, u, id, scale, n + 1)
  {
    OneMore(p.plan, n);
    FillExtendsSteps(m, p, t, id, scale, n);
  }

  lemma AlongAdvances(m: Maths, p: Progression, t: Tables, id: nat, scale: Scale, n: nat, queue: seq<nat>)
    requires Along(m, p, t, id, scale, n) && CanTrade(t.orders, id, queue)
    requires Enabled(m, t, Fill(id, queue[0], scale))
    ensures Along(m, p, After(m, t, Fill(id, queue[0], scale)), id, scale, n + 1)
  {
    var u := After(m, t, Fill(id, queue[0], scale));
    AheadAdvances(m, p, t.orders, id, n, queue);
    FillShape(m, t, id, queue[0], scale);
    CommittedAdvances(m, p, t, u, id, scale, n);
  }
}
