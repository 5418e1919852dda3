/**
 What the interleaved system promises, in terms of its events and columns: what a placement
 stores and how it gets there, what its bookkeeping of queue and finished loops means, and that
 no two loops ever work on one order.
 */
module Promises {
  import opened Money
  import opened Arithmetic
  import opened Tables
  import opened Columns
  import opened Orders
  import opened Ledger
  import opened Holdings
  import opened Matching
  import opened Exchange
  import opened Laws
  import opened Store
  import opened Schedule
  import opened Loop

  // ----- Placements -----

  /** The insert of a placement stores the row as asked for, under a fresh key, or changes no table. */
  lemma InsertStoresTheRow(m: Maths, s: System, c: nat, active: Option<bool>, createdAt: int)
    requires c in s.calls && s.calls[c].pc == InsertRow && Positive(s.calls[c].input.price) && Positive(s.calls[c].input.quantity)
    ensures var u, user, input := Next(m, s, PlaceStep(c, active, createdAt, false)), s.calls[c].user, s.calls[c].input;
      if IsFreshKey(s.t.orders, user, input.key) && TakesRow(Nearest(input.price.value), Nearest(input.quantity.value)) then
        && |u.t.orders| == |s.t.orders| + 1 && u.t == s.t.(orders := u.t.orders) && u.t.orders[..|s.t.orders|] == s.t.orders
        && IsRowOf(u.t.orders[|s.t.orders|], user, input, createdAt) && u.calls[c].pc == Enqueue(|s.t.orders|)
      else u.t == s.t && (u.calls[c].pc == Fallback || u.calls[c].pc == Refused)
  {
    SurelyTakesRow(s.calls[c].user, s.calls[c].input, createdAt);
  }

  /** A call that finds its key in use answers with the order that has it. */
  lemma RepeatedKeyIsAnswered(m: Maths, s: System, c: nat, active: Option<bool>, createdAt: int)
    requires c in s.calls && s.calls[c].pc == Lookup
    requires s.calls[c].input.key.Some? && s.calls[c].input.key != Some("")
    requires !IsFreshKey(s.t.orders, s.calls[c].user, s.calls[c].input.key)
    ensures var u := Next(m, s, PlaceStep(c, active, createdAt, false));
      && u.t == s.t && u.calls[c].pc.Answered? && u.calls[c].pc.id < |s.t.orders|
      && s.t.orders[u.calls[c].pc.id].user == s.calls[c].user && s.t.orders[u.calls[c].pc.id].key == s.calls[c].input.key
  {
    KeyIsFound(s.t.orders, s.calls[c].user, s.calls[c].input.key);
  }

  lemma {:induction false} KeyIsFound(orders: seq<Order>, user: int, key: Option<string>)
    ensures FindKey(orders, user, key).None? ==> forall i :: 0 <= i < |orders| ==> orders[i].user != user || orders[i].key != key
  {
    if orders != [] && FindKey(orders, user, key).None? {
      KeyIsFound(orders[..|orders| - 1], user, key);
      forall i | 0 <= i < |orders| ensures orders[i].user != user || orders[i].key != key {
        assert i < |orders| - 1 ==> orders[..|orders| - 1][i] == orders[i];
      }
    }
  }

  lemma LookupGoesOn(m: Maths, s: System, c: nat, active: Option<bool>, createdAt: int)
    requires c in s.calls && s.calls[c].pc == Lookup && IsFreshKey(s.t.orders, s.calls[c].user, s.calls[c].input.key)
    ensures Next(m, s, PlaceStep(c, active, createdAt, false)) == MoveCall(s, c, Check)
  {
  }

  lemma CheckPasses(m: Maths, s: System, c: nat, active: Option<bool>, createdAt: int)
    requires c in s.calls && s.calls[c].pc == Check && Acceptable(m, s.t, s.calls[c].user, s.calls[c].input, active)
    ensures Next(m, s, PlaceStep(c, active, createdAt, false)) == MoveCall(s, c, InsertRow)
  {
  }

  lemma EnqueueAnswers(m: Maths, s: System, c: nat, active: Option<bool>, createdAt: int)
    requires c in s.calls && s.calls[c].pc.Enqueue?
    ensures var u, id := Next(m, s, PlaceStep(c, active, createdAt, false)), s.calls[c].pc.id;
      && u.t == s.t && u.calls[c].pc == Answered(id)
      && u.queue == if |s.queue| < 1024 then s.queue + [id] else s.queue
  {
  }

  /** A placement that makes sense and is surely funded, if nothing comes between, places and enqueues the order. */
  lemma SurePlacementPlaces(m: Maths, s: System, c: nat, active: Option<bool>, createdAt: int)
    requires c in s.calls && s.calls[c].pc == Lookup
    requires IsWellAsked(s.t.orders, s.calls[c].user, s.calls[c].input, active) && IsSurelyFunded(s.t, s.calls[c].user, s.calls[c].input)
    ensures var e := PlaceStep(c, active, createdAt, false);
      var u := Next(m, Next(m, Next(m, Next(m, s, e), e), e), e);
      && IsPlaced(s.t, u.t, s.calls[c].user, s.calls[c].input, active, createdAt)
      && c in u.calls && u.calls[c].pc == Answered(|s.t.orders|)
      && u.queue == if |s.queue| < 1024 then s.queue + [|s.t.orders|] else s.queue
  {
    var e, user, input := PlaceStep(c, active, createdAt, false), s.calls[c].user, s.calls[c].input;
    PlacementIsDecided(m, s.t, user, input, active, createdAt);
    LookupGoesOn(m, s, c, active, createdAt);
    var s1 := Next(m, s, e);
    CheckPasses(m, s1, c, active, createdAt);
    var s2 := Next(m, s1, e);
    AcceptedIsFunded(m, s.t, user, input, active);
    SurelyTakesRow(user, input, createdAt);
    InsertStoresTheRow(m, s2, c, active, createdAt);
    var s3 := Next(m, s2, e);
    assert s3.queue == s.queue;
    EnqueueAnswers(m, s3, c, active, createdAt);
  }

  /** A deposit or withdrawal, if nothing comes between its read and its write, is its transaction. */
  lemma UndisturbedPostCommits(m: Maths, s: System, p: nat)
    requires p in s.posts && s.posts[p].seen.None? && 0.0 < s.posts[p].amount && s.posts[p].user in s.t.wallets
    ensures var e, call := PostStep(p, false), s.posts[p];
      var u := Next(m, Next(m, s, e), e);
      u.t == Step(m, s.t, Transfer(call.user, call.amount, call.kind, call.text)) && p !in u.posts
  {
    var call := s.posts[p];
    var s1 := Next(m, s, PostStep(p, false));
    assert s1.posts[p] == call.(seen := Some(s.t.wallets[call.user])) && s1.t == s.t;
    PostRefinesStep(m, s1, p);
  }

  lemma CallsStart(m: Maths, s: System, c: nat, user: int, input: PlaceInput)
    requires c !in s.calls
    ensures Next(m, s, Arrive(c, user, input)) == s.(calls := s.calls[c := PlaceCall(user, input, Lookup)])
  {
  }

  lemma PostsStart(m: Maths, s: System, p: nat, user: int, amount: real, kind: Kind, text: string)
    requires p !in s.posts && 0.0 < amount
    ensures Next(m, s, Ask(p, user, amount, kind, text)) == s.(posts := s.posts[p := WalletCall(user, amount, kind, text, None)])
  {
  }

  // ----- The loop in columns -----

  /** The worker has returned, with or without an error, and no table has changed. */
  predicate HasReturned(s: System, u: System, w: nat, ok: bool)
    requires w in s.workers
  {
    && u.t == s.t && u.workers == s.workers - {w}
    && u.cleared == if ok then s.cleared + {s.workers[w].order} else s.cleared
  }

  predicate HasGone(s: System, u: System, w: nat, pc: EnginePc)
    requires w in s.workers
  {
    u == s.(workers := s.workers[w := Worker(s.workers[w].order, pc)])
  }

  /** The first read: is there anything to do? */
  lemma FetchInColumns(m: Maths, s: System, w: nat, scale: Scale)
    requires w in s.workers && s.workers[w].order < |s.t.orders| && s.workers[w].pc == Fetch
    ensures var o, u := s.t.orders[s.workers[w].order], Next(m, s, EngineStep(w, scale, false));
      if o.status == Filled || o.status == Cancelled || o.quantity <= o.filled then HasReturned(s, u, w, true)
      else HasGone(s, u, w, Choose)
  {
  }

  /** The choice: the best price, and the earliest at that price, of all that may be matched. */
  lemma ChoiceInColumns(m: Maths, s: System, w: nat, scale: Scale)
    requires w in s.workers && s.workers[w].order < |s.t.orders| && s.workers[w].pc == Choose
    ensures var orders, id, u := s.t.orders, s.workers[w].order, Next(m, s, EngineStep(w, scale, false));
      if forall j :: 0 <= j < |orders| ==> !MayMatch(orders[id], orders[j]) then HasReturned(s, u, w, true)
      else
        && w in u.workers && u.workers[w].pc.Execute? && HasGone(s, u, w, u.workers[w].pc)
        && var c := u.workers[w].pc.candidate;
           && c < |orders| && MayMatch(orders[id], orders[c])
           && forall j :: 0 <= j < |orders| && MayMatch(orders[id], orders[j]) ==> NoWorse(orders[id], orders[c], orders[j])
  {
    FrontIsBest(s.t.orders, s.workers[w].order);
  }

  /** The trade: it commits if it surely pays, fails if it surely cannot be paid, and is no match if the two cannot meet. */
  lemma TradeInColumns(m: Maths, s: System, w: nat, scale: Scale)
    requires Inv(m, s.t) && w in s.workers && s.workers[w].order < |s.t.orders| && s.workers[w].pc.Execute?
    ensures var id, c, u := s.workers[w].order, s.workers[w].pc.candidate, Next(m, s, EngineStep(w, scale, false));
      if !CanMeet(s.t.orders, id, c) then HasGone(s, u, w, Recheck)
      else
        var tr := Match(s.t.orders, id, c);
        && (SurelyPays(s.t, tr.buyer, tr.seller, tr.asset, tr.price, tr.quantity) ==>
              u.t.trades == s.t.trades + [tr] && w in u.workers && u.workers[w].pc == Refetch)
        && (SurelyFails(s.t, tr.buyer, tr.seller, tr.asset, tr.price, tr.quantity) ==> HasReturned(s, u, w, false))
  {
    var id, c := s.workers[w].order, s.workers[w].pc.candidate;
    OnlyMeetingOrdersTrade(m, s.t, id, c, scale);
    MeetingIsTradable(s.t.orders, id, c);
    if CanMeet(s.t.orders, id, c) {
      var tr := Match(s.t.orders, id, c);
      if SurelyPays(s.t, tr.buyer, tr.seller, tr.asset, tr.price, tr.quantity) {
        SurelyEnabled(m, s.t, id, c, scale);
      }
      if SurelyFails(s.t, tr.buyer, tr.seller, tr.asset, tr.price, tr.quantity) {
        SurelyDisabled(m, s.t, id, c, scale);
      }
    }
  }

  lemma MeetingIsTradable(orders: seq<Order>, i: nat, c: nat)
    ensures CanMeet(orders, i, c) <==> Tradable(orders, i, c)
  {
  }

  /** The reads after a trade, and after a pair that did not match. */
  lemma LaterReadsInColumns(m: Maths, s: System, w: nat, scale: Scale)
    requires w in s.workers && s.workers[w].order < |s.t.orders|
    ensures var status, u := s.t.orders[s.workers[w].order].status, Next(m, s, EngineStep(w, scale, false));
      && (s.workers[w].pc == Refetch ==> if status == Filled then HasReturned(s, u, w, true) else HasGone(s, u, w, Fetch))
      && (s.workers[w].pc == Recheck ==>
            if status == Filled || status == Cancelled then HasReturned(s, u, w, true) else HasGone(s, u, w, Fetch))
  {
  }

  // ----- Loops that have returned -----

  /** This event makes worker `w` return without an error from the loop of order `id`. */
  predicate ReturnsCleanly(m: Maths, s: System, e: Event, w: nat, id: nat) {
    && e.EngineStep? && e.w == w && !e.fail && w in s.workers && s.workers[w].order == id && id < |s.t.orders|
    && !s.workers[w].pc.Execute? && w !in Next(m, s, e).workers
  }

  lemma CleanReturnClears(m: Maths, s: System, e: Event, w: nat, id: nat)
    requires ReturnsCleanly(m, s, e, w, id)
    ensures id in Next(m, s, e).cleared
  {
  }

  lemma EngineKeepsCleared(m: Maths, s: System, w: nat, scale: Scale)
    requires w in s.workers && s.workers[w].order < |s.t.orders|
    ensures s.cleared <= EngineNext(m, s, w, scale).cleared
  {
  }

  lemma ClearedStays(m: Maths, s: System, e: Event)
    ensures s.cleared <= Next(m, s, e).cleared
  {
    match e
    case EngineStep(w, scale, fail) =>
      if w in s.workers && s.workers[w].order < |s.t.orders| {
        EngineKeepsCleared(m, s, w, scale);
      }
    case _ =>
  }

  lemma {:induction false} ClearedStaysOn(m: Maths, seed: Seeds, es: seq<Event>, k: nat)
    requires k <= |es|
    ensures Exec(m, seed, es[..k]).cleared <= Exec(m, seed, es).cleared
    decreases |es|
  {
    if k == |es| {
      assert es[..k] == es;
    } else {
      var before := es[..|es| - 1];
      assert before[..k] == es[..k];
      ClearedStaysOn(m, seed, before, k);
      ExecLast(m, seed, before, es, es[|es| - 1]);
      ClearedStays(m, Exec(m, seed, before), es[|es| - 1]);
    }
  }

  lemma ReturnIsRemembered(m: Maths, seed: Seeds, es: seq<Event>, k: nat, w: nat, id: nat)
    requires k < |es| && ReturnsCleanly(m, Exec(m, seed, es[..k]), es[k], w, id)
    ensures id in Exec(m, seed, es).cleared
  {
    CleanReturnClears(m, Exec(m, seed, es[..k]), es[k], w, id);
    assert es[..k + 1] == es[..k] + [es[k]];
    ExecLast(m, seed, es[..k], es[..k + 1], es[k]);
    ClearedStaysOn(m, seed, es, k + 1);
  }

  /** Once loops of two orders have returned without an error, those two orders never can meet again. */
  lemma ReturnedOrdersNeverMeet(m: Maths, seed: Seeds, es: seq<Event>, k: nat, v: nat, i: nat, l: nat, w: nat, j: nat)
    requires HoldingsOk(seed) && k < |es| && l < |es|
    requires ReturnsCleanly(m, Exec(m, seed, es[..k]), es[k], v, i) && ReturnsCleanly(m, Exec(m, seed, es[..l]), es[l], w, j)
    ensures !CanMeet(Exec(m, seed, es).t.orders, i, j)
  {
    ReturnIsRemembered(m, seed, es, k, v, i);
    ReturnIsRemembered(m, seed, es, l, w, j);
    if CanMeet(Exec(m, seed, es).t.orders, i, j) {
      CrossingOrdersAreNotForgotten(m, seed, es, i, j);
    }
  }

  // ----- The queue -----

  /** The orders that loops have been started for. */
  function Taken(s: System): seq<nat>
    requires |s.queue| <= |s.enqueued|
  {
    s.enqueued[..|s.enqueued| - |s.queue|]
  }

  predicate AllDistinct(ids: seq<nat>) {
    forall j, k :: 0 <= j < k < |ids| ==> ids[j] != ids[k]
  }

  /** The queue is the rest of what was ever enqueued, and each running loop has an order of its own that was taken off it. */
  predicate QueueOk(s: System) {
    && |s.queue| <= |s.enqueued| && s.enqueued == Taken(s) + s.queue
    && (forall w :: w in s.workers ==> s.workers[w].order in Taken(s))
    && (forall v, w :: v in s.workers && w in s.workers && v != w ==> s.workers[v].order != s.workers[w].order)
  }

  /** A free worker starts with the order that has waited longest, at the top of the loop. */
  lemma TakeStartsFirst(m: Maths, s: System, w: nat)
    requires w !in s.workers && s.queue != []
    ensures var u := Next(m, s, Take(w));
      u == s.(queue := s.queue[1..], workers := u.workers) && u.workers == s.workers[w := Worker(s.queue[0], Fetch)]
  {
  }

  lemma TakeKeepsQueue(m: Maths, s: System, w: nat)
    requires QueueOk(s) && w !in s.workers && s.queue != [] && AllDistinct(s.enqueued)
    ensures QueueOk(Next(m, s, Take(w)))
  {
    var u := Next(m, s, Take(w));
    var first := s.queue[0];
    assert Taken(u) == Taken(s) + [first];
    forall v | v in s.workers ensures s.workers[v].order != first {
      var k :| 0 <= k < |Taken(s)| && Taken(s)[k] == s.workers[v].order;
      assert s.enqueued[k] == s.workers[v].order && s.enqueued[|Taken(s)|] == first;
    }
  }

  /** Only a worker's own steps and a call's enqueueing touch loops and queue. */
  predicate SameQueue(s: System, u: System) {
    && u.queue == s.queue && u.enqueued == s.enqueued
    && forall w :: w in u.workers ==> w in s.workers && u.workers[w].order == s.workers[w].order
  }

  lemma EngineKeepsQueue(m: Maths, s: System, w: nat, scale: Scale)
    requires w in s.workers && s.workers[w].order < |s.t.orders|
    ensures SameQueue(s, EngineNext(m, s, w, scale))
  {
  }

  lemma PlaceKeepsQueue(m: Maths, s: System, c: nat, active: Option<bool>, createdAt: int)
    requires c in s.calls
    requires s.calls[c].pc.InsertRow? ==> s.calls[c].input.price.Some? && s.calls[c].input.quantity.Some?
    ensures var u := PlaceNext(m, s, c, active, createdAt);
      || SameQueue(s, u)
      || (s.calls[c].pc.Enqueue? && u.workers == s.workers
          && u.queue == s.queue + [s.calls[c].pc.id] && u.enqueued == s.enqueued + [s.calls[c].pc.id])
  {
  }

  lemma SameQueueKeeps(s: System, u: System)
    requires QueueOk(s) && SameQueue(s, u)
    ensures QueueOk(u)
  {
  }

  lemma AppendKeepsQueue(s: System, u: System, id: nat)
    requires QueueOk(s) && u.workers == s.workers && u.queue == s.queue + [id] && u.enqueued == s.enqueued + [id]
    ensures QueueOk(u)
  {
    assert Taken(u) == Taken(s);
  }

  lemma OtherEventsKeepQueue(m: Maths, s: System, e: Event)
    requires e.Arrive? || e.Ask? || e.PostStep? || e.Direct?
    ensures SameQueue(s, Next(m, s, e))
  {
  }

  lemma EngineStepKeepsQueue(m: Maths, s: System, w: nat, scale: Scale, fail: bool)
    ensures SameQueue(s, Next(m, s, EngineStep(w, scale, fail)))
  {
    if w in s.workers && s.workers[w].order < |s.t.orders| {
      EngineKeepsQueue(m, s, w, scale);
    }
  }

  lemma NextKeepsQueue(m: Maths, s: System, e: Event)
    requires QueueOk(s) && AllDistinct(s.enqueued)
    ensures QueueOk(Next(m, s, e))
  {
    match e
    case Take(w) =>
      if w !in s.workers && s.queue != [] {
        TakeKeepsQueue(m, s, w);
      }
    case EngineStep(w, scale, fail) =>
      EngineStepKeepsQueue(m, s, w, scale, fail);
      SameQueueKeeps(s, Next(m, s, e));
    case PlaceStep(c, active, createdAt, fail) =>
      PlaceStepKeepsQueue(m, s, c, active, createdAt, fail);
    case _ =>
      OtherEventsKeepQueue(m, s, e);
      SameQueueKeeps(s, Next(m, s, e));
  }

  lemma PlaceStepKeepsQueue(m: Maths, s: System, c: nat, active: Option<bool>, createdAt: int, fail: bool)
    requires QueueOk(s)
    ensures QueueOk(Next(m, s, PlaceStep(c, active, createdAt, fail)))
  {
    var u := Next(m, s, PlaceStep(c, active, createdAt, fail));
    if c in s.calls && (s.calls[c].pc.InsertRow? ==> s.calls[c].input.price.Some? && s.calls[c].input.quantity.Some?) {
      PlaceKeepsQueue(m, s, c, active, createdAt);
    }
    if SameQueue(s, u) {
      SameQueueKeeps(s, u);
    } else {
      AppendKeepsQueue(s, u, s.calls[c].pc.id);
    }
  }

  lemma EnqueuedAreDistinct(m: Maths, seed: Seeds, es: seq<Event>)
    requires HoldingsOk(seed)
    ensures AllDistinct(Exec(m, seed, es).enqueued)
  {
    ExecKeepsInv(m, seed, es);
  }

  lemma {:induction false} ExecKeepsQueue(m: Maths, seed: Seeds, es: seq<Event>)
    requires HoldingsOk(seed)
    ensures QueueOk(Exec(m, seed, es))
  {
    if es != [] {
      var before := es[..|es| - 1];
      ExecKeepsQueue(m, seed, before);
      EnqueuedAreDistinct(m, seed, before);
      NextKeepsQueue(m, Exec(m, seed, before), es[|es| - 1]);
    }
  }

  /** In every interleaving, with any number of engines, no two loops ever work on one order. */
  lemma OneLoopPerOrder(m: Maths, seed: Seeds, es: seq<Event>, v: nat, w: nat)
    requires HoldingsOk(seed) && v in Exec(m, seed, es).workers && w in Exec(m, seed, es).workers && v != w
    ensures Exec(m, seed, es).workers[v].order != Exec(m, seed, es).workers[w].order
  {
    ExecKeepsQueue(m, seed, es);
  }

  // ----- Cancellations -----

  /** In every interleaving, a cancelled order was cancelled by its owner, or expired. */
  lemma ScheduledCancelsAreOwned(m: Maths, seed: Seeds, es: seq<Event>, id: nat) returns (k: nat)
    requires HoldingsOk(seed) && id < |Exec(m, seed, es).t.orders| && Exec(m, seed, es).t.orders[id].status == Cancelled
    ensures k < |Trace(m, seed, es)|
    ensures var o := Exec(m, seed, es).t.orders[id];
      IsOwnCancel(Trace(m, seed, es)[k], id, o) || IsExpiry(Trace(m, seed, es)[k], o)
  {
    EveryScheduleIsARun(m, seed, es);
    k := CancelledByOwnerOrAge(m, seed, Trace(m, seed, es), id);
  }
}
