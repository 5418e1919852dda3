/**
 Everything at once: any number of engine loops, `PlaceOrder` calls and wallet calls,
 cut at every read and every commit, interleaved in any order with cancellation and
 expiry. Reads outside a transaction may be stale by the time they are used.
 */
module Schedule {
  import opened Money
  import opened Arithmetic
  import opened Tables
  import opened Orders
  import opened Ledger
  import opened Holdings
  import opened Matching
  import opened Exchange
  import opened Store

  /** Where one `processOrder` stands. */
  datatype EnginePc = Fetch | Choose | Execute(candidate: nat) | Recheck | Refetch

  datatype Worker = Worker(order: nat, pc: EnginePc)

  /** Where one `PlaceOrder` stands. */
  datatype PlacePc = Lookup | Check | InsertRow | Fallback | Enqueue(id: nat) | Answered(id: nat) | Refused

  datatype PlaceCall = PlaceCall(user: int, input: PlaceInput, pc: PlacePc)

  /** A deposit or withdrawal, and the wallet row it has read. */
  datatype WalletCall = WalletCall(user: int, amount: real, kind: Kind, text: string, seen: Option<Wallet>)

  /**
   `enqueued` records every order ever put on the queue; `cleared` the orders whose
   `processOrder` has returned without error.
   */
  datatype System = System(t: Tables, queue: seq<nat>, enqueued: seq<nat>, cleared: set<nat>,
                           workers: map<nat, Worker>, calls: map<nat, PlaceCall>, posts: map<nat, WalletCall>)

  datatype Event =
    | Take(w: nat)
    | EngineStep(w: nat, scale: Scale, fail: bool)
    | Arrive(c: nat, user: int, input: PlaceInput)
    | PlaceStep(c: nat, active: Option<bool>, createdAt: int, fail: bool)
    | Ask(p: nat, user: int, amount: real, kind: Kind, text: string)
    | PostStep(p: nat, fail: bool)
    | Direct(commit: Commit)

  function Start(seed: Seeds): System {
    System(Seed(seed), [], [], {}, map[], map[], map[])
  }

  // ----- Engine -----

  /** `processOrder` returns, with or without an error. */
  function Return(s: System, w: nat, ok: bool): System
    requires w in s.workers
  {
    s.(workers := s.workers - {w}, cleared := if ok then s.cleared + {s.workers[w].order} else s.cleared)
  }

  function Goto(s: System, w: nat, pc: EnginePc): System
    requires w in s.workers
  {
    s.(workers := s.workers[w := s.workers[w].(pc := pc)])
  }

  function EngineNext(m: Maths, s: System, w: nat, scale: Scale): System
    requires w in s.workers && s.workers[w].order < |s.t.orders|
  {
    var id := s.workers[w].order;
    var o := s.t.orders[id];
    match s.workers[w].pc
    case Fetch =>
      if o.status == Filled || o.status == Cancelled || o.Remaining() <= 0 then Return(s, w, true) else Goto(s, w, Choose)
    case Choose =>
      var queue := Queue(s.t.orders, id);
      if queue == [] then Return(s, w, true) else Goto(s, w, Execute(queue[0]))
    case Execute(c) =>
      if Enabled(m, s.t, Fill(id, c, scale)) then Goto(s, w, Refetch).(t := After(m, s.t, Fill(id, c, scale)))
      else if Tradable(s.t.orders, id, c) then Return(s, w, false)
      else Goto(s, w, Recheck)
    case Recheck => if o.IsOpen() then Goto(s, w, Fetch) else Return(s, w, true)
    case Refetch => if o.status == Filled then Return(s, w, true) else Goto(s, w, Fetch)
  }

  // ----- PlaceOrder -----

  function FindKey(orders: seq<Order>, user: int, key: Option<string>): (r: Option<nat>)
    ensures r.Some? ==> r.value < |orders| && orders[r.value].user == user && orders[r.value].key == key
  {
    if orders == [] then None
    else if orders[|orders| - 1].user == user && orders[|orders| - 1].key == key then Some(|orders| - 1)
    else FindKey(orders[..|orders| - 1], user, key)
  }

  function MoveCall(s: System, c: nat, pc: PlacePc): System
    requires c in s.calls
  {
    s.(calls := s.calls[c := s.calls[c].(pc := pc)])
  }

  function PlaceNext(m: Maths, s: System, c: nat, active: Option<bool>, createdAt: int): System
    requires c in s.calls
    requires s.calls[c].pc.InsertRow? ==> s.calls[c].input.price.Some? && s.calls[c].input.quantity.Some?
  {
    var user, input := s.calls[c].user, s.calls[c].input;
    match s.calls[c].pc
    case Lookup =>
      var found := if input.key.None? || input.key.value == "" then None else FindKey(s.t.orders, user, input.key);
      MoveCall(s, c, if found.Some? then Answered(found.value) else Check)
    case Check => MoveCall(s, c, if Acceptable(m, s.t, user, input, active) then InsertRow else Refused)
    case InsertRow =>
      var o := NewOrder(user, input, createdAt);
      if KeyTaken(s.t.orders, user, input.key) then MoveCall(s, c, Fallback)
      else if 0 < o.price && Fits(o.price) && 0 < o.quantity && Fits(o.quantity) then
        MoveCall(s, c, Enqueue(|s.t.orders|)).(t := s.t.(orders := s.t.orders + [o]))
      else MoveCall(s, c, Refused)
    case Fallback =>
      var found := FindKey(s.t.orders, user, input.key);
      MoveCall(s, c, if found.Some? then Answered(found.value) else Refused)
    case Enqueue(id) =>
      var done := MoveCall(s, c, Answered(id));
      if |s.queue| < QUEUE_CAPACITY then done.(queue := s.queue + [id], enqueued := s.enqueued + [id]) else done
    case _ => s
  }

  // ----- Wallet calls -----

  /** The write uses the balance and the version of the row that was read, however old it is. */
  function PostNext(m: Maths, s: System, p: nat): System
    requires p in s.posts
  {
    var call := s.posts[p];
    var gone := s.(posts := s.posts - {p});
    if call.user !in s.t.wallets then gone
    else if call.seen.None? then s.(posts := s.posts[p := call.(seen := Some(s.t.wallets[call.user]))])
    else
      var seen := call.seen.value;
      var balance := Moved(m, Narrow, seen.balance, call.amount, call.kind);
      if call.kind == Withdrawal && !m.covers(Narrow, seen.balance, call.amount) then gone
      else if s.t.wallets[call.user].version != seen.version then gone
      else if !IsBalance(balance) || !Fits(Nearest(call.amount)) then gone
      else gone.(t := s.t.(wallets := s.t.wallets[call.user := Wallet(balance, seen.version + 1)],
                           ledger := s.t.ledger + [Entry(call.user, Nearest(call.amount), call.kind, Text(call.text))]))
  }

  // ----- The whole system -----

  /** An event that cannot happen leaves the system as it is. */
  function Next(m: Maths, s: System, e: Event): System {
    match e
    case Take(w) =>
      if w in s.workers || s.queue == [] then s
      else s.(queue := s.queue[1..], workers := s.workers[w := Worker(s.queue[0], Fetch)])
    case EngineStep(w, scale, fail) =>
      if w !in s.workers || s.workers[w].order >= |s.t.orders| then s
      else if fail then Return(s, w, false)
      else EngineNext(m, s, w, scale)
    case Arrive(c, user, input) =>
      if c in s.calls then s else s.(calls := s.calls[c := PlaceCall(user, input, Lookup)])
    case PlaceStep(c, active, createdAt, fail) =>
      if c !in s.calls || s.calls[c].pc.Answered? || s.calls[c].pc.Refused? then s
      else if fail && !s.calls[c].pc.Enqueue? then MoveCall(s, c, Refused)
      else if s.calls[c].pc.InsertRow? && (s.calls[c].input.price.None? || s.calls[c].input.quantity.None?) then s
      else PlaceNext(m, s, c, active, createdAt)
    case Ask(p, user, amount, kind, text) =>
      if p in s.posts || amount <= 0.0 then s else s.(posts := s.posts[p := WalletCall(user, amount, kind, text, None)])
    case PostStep(p, fail) =>
      if p !in s.posts then s else if fail then s.(posts := s.posts - {p}) else PostNext(m, s, p)
    case Direct(commit) =>
      if commit.OpenWallet? || commit.Cancel? || commit.Expire? then s.(t := Step(m, s.t, commit)) else s
  }

  function Exec(m: Maths, seed: Seeds, es: seq<Event>): System {
    if es == [] then Start(seed) else Next(m, Exec(m, seed, es[..|es| - 1]), es[|es| - 1])
  }

  // ----- Refinement -----

  /** The transaction that an event commits, if it commits one. */
  function CommitOf(s: System, e: Event): Option<Commit> {
    match e
    case EngineStep(w, scale, fail) =>
      if w in s.workers && !fail && s.workers[w].order < |s.t.orders| && s.workers[w].pc.Execute?
      then Some(Fill(s.workers[w].order, s.workers[w].pc.candidate, scale)) else None
    case PlaceStep(c, _, createdAt, fail) =>
      if c in s.calls && !fail && s.calls[c].pc.InsertRow? && s.calls[c].input.price.Some? && s.calls[c].input.quantity.Some?
      then Some(Insert(NewOrder(s.calls[c].user, s.calls[c].input, createdAt))) else None
    case PostStep(p, fail) =>
      if p in s.posts && !fail && s.posts[p].seen.Some? && s.posts[p].user in s.t.wallets
         && s.t.wallets[s.posts[p].user].version == s.posts[p].seen.value.version
      then
        var call := s.posts[p];
        Some(Transfer(call.user, call.amount, call.kind, call.text)) else None
    case Direct(commit) => if commit.OpenWallet? || commit.Cancel? || commit.Expire? then Some(commit) else None
    case _ => None
  }

  // ----- What every event keeps -----

  predicate WorkersOk(orders: seq<Order>, workers: map<nat, Worker>) {
    forall w :: w in workers ==> WorkerOk(orders, workers[w])
  }

  predicate WorkerOk(orders: seq<Order>, w: Worker) {
    && w.order < |orders|
    && (w.pc.Execute? ==> w.pc.candidate < |orders| && Crosses(orders[w.order], orders[w.pc.candidate]))
  }

  predicate CallsOk(t: Tables, calls: map<nat, PlaceCall>) {
    forall c :: c in calls ==> CallOk(t, calls[c])
  }

  predicate CallOk(t: Tables, call: PlaceCall) {
    && (call.pc.InsertRow? ==>
          && Positive(call.input.price) && Positive(call.input.quantity)
          && (call.input.side == Sell ==> (call.user, call.input.asset) in t.holdings))
    && (call.pc.Enqueue? || call.pc.Answered? ==>
          call.pc.id < |t.orders| && t.orders[call.pc.id].user == call.user && t.orders[call.pc.id].key == call.input.key)
  }

  predicate PostsOk(wallets: map<int, Wallet>, posts: map<nat, WalletCall>) {
    forall p :: p in posts ==> PostOk(wallets, posts[p])
  }

  /** A row that was read is current exactly while its version is. */
  predicate PostOk(wallets: map<int, Wallet>, call: WalletCall) {
    && 0.0 < call.amount
    && (call.seen.Some? ==>
          && call.user in wallets
          && call.seen.value.version <= wallets[call.user].version
          && (call.seen.value.version == wallets[call.user].version ==> call.seen.value == wallets[call.user]))
  }

  predicate IdsOk(n: nat, ids: seq<nat>) {
    forall k :: 0 <= k < |ids| ==> ids[k] < n
  }

  /** No order has been enqueued twice, and the orders about to be enqueued are new and different. */
  predicate EnqueuedOnce(enqueued: seq<nat>, calls: map<nat, PlaceCall>) {
    && (forall j, k :: 0 <= j < k < |enqueued| ==> enqueued[j] != enqueued[k])
    && (forall c :: c in calls && calls[c].pc.Enqueue? ==> calls[c].pc.id !in enqueued)
    && (forall c, d :: c in calls && d in calls && c != d && calls[c].pc.Enqueue? && calls[d].pc.Enqueue?
          ==> calls[c].pc.id != calls[d].pc.id)
  }

  /** Open, with something left to trade. */
  predicate IsLive(o: Order) {
    o.IsOpen() && 0 < o.Remaining()
  }

  /** Of two live orders that cross, at least one has not been cleared. */
  predicate NoMissedMatch(orders: seq<Order>, cleared: set<nat>) {
    && (forall i :: i in cleared ==> i < |orders|)
    && (forall i, j :: i in cleared && j in cleared && IsLive(orders[i]) && IsLive(orders[j])
          ==> !Crosses(orders[i], orders[j]))
  }

  /** The bookkeeping of a system is right about these tables. */
  predicate Tracks(t: Tables, s: System) {
    && WorkersOk(t.orders, s.workers) && CallsOk(t, s.calls) && PostsOk(t.wallets, s.posts)
    && IdsOk(|t.orders|, s.queue) && IdsOk(|t.orders|, s.enqueued)
    && EnqueuedOnce(s.enqueued, s.calls) && NoMissedMatch(t.orders, s.cleared)
  }

  ghost predicate SysInv(m: Maths, s: System) {
    Inv(m, s.t) && Tracks(s.t, s)
  }

  // ----- Each transaction keeps what others have read true -----

  predicate WalletsAdvance(a: map<int, Wallet>, b: map<int, Wallet>) {
    forall u :: u in a ==> u in b && a[u].version <= b[u].version && (a[u].version == b[u].version ==> a[u] == b[u])
  }

  predicate Advances(t: Tables, u: Tables) {
    OrdersProgress(t, u) && t.holdings.Keys <= u.holdings.Keys && WalletsAdvance(t.wallets, u.wallets)
  }

  lemma StepAdvancesWallets(m: Maths, t: Tables, c: Commit)
    ensures WalletsAdvance(t.wallets, Step(m, t, c).wallets)
  {
    if Enabled(m, t, c) && c.Fill? {
      var tr := Match(t.orders, c.incoming, c.candidate);
      assert Step(m, t, c).wallets == PayBoth(m, t.wallets, tr);
    }
  }

  lemma StepAdvances(m: Maths, t: Tables, c: Commit)
    requires Inv(m, t)
    ensures Advances(t, Step(m, t, c))
  {
    StepProgress(m, t, c);
    StepKeepsHoldings(m, t, c);
    StepAdvancesWallets(m, t, c);
  }

  lemma TracksSurvives(t: Tables, u: Tables, s: System)
    requires Advances(t, u) && Tracks(t, s)
    ensures Tracks(u, s)
  {
    forall w | w in s.workers ensures WorkerOk(u.orders, s.workers[w]) {
      assert WorkerOk(t.orders, s.workers[w]);
    }
    forall c | c in s.calls ensures CallOk(u, s.calls[c]) {
      assert CallOk(t, s.calls[c]);
    }
    forall p | p in s.posts ensures PostOk(u.wallets, s.posts[p]) {
      assert PostOk(t.wallets, s.posts[p]);
    }
    forall i, j | i in s.cleared && j in s.cleared && IsLive(u.orders[i]) && IsLive(u.orders[j])
      ensures !Crosses(u.orders[i], u.orders[j])
    {
      assert Progress(t.orders[i], u.orders[i]) && Progress(t.orders[j], u.orders[j]);
    }
  }

  // ----- Refinement -----

  /** A write whose version check passes is a write computed from the current row. */
  lemma PostRefinesStep(m: Maths, s: System, p: nat)
    requires p in s.posts && PostOk(s.t.wallets, s.posts[p])
    ensures Next(m, s, PostStep(p, false)).t
         == match CommitOf(s, PostStep(p, false)) case Some(c) => Step(m, s.t, c) case None => s.t
  {
    var call := s.posts[p];
    if CommitOf(s, PostStep(p, false)).Some? {
      assert call.seen.value == s.t.wallets[call.user];
    }
  }

  lemma InsertRefinesStep(m: Maths, s: System, c: nat, active: Option<bool>, createdAt: int)
    requires c in s.calls && CallOk(s.t, s.calls[c])
    ensures var e := PlaceStep(c, active, createdAt, false);
      Next(m, s, e).t == match CommitOf(s, e) case Some(c) => Step(m, s.t, c) case None => s.t
  {
  }

  lemma EngineRefinesStep(m: Maths, s: System, w: nat, scale: Scale)
    requires w in s.workers && s.workers[w].order < |s.t.orders|
    ensures EngineNext(m, s, w, scale).t
         == if s.workers[w].pc.Execute? then Step(m, s.t, Fill(s.workers[w].order, s.workers[w].pc.candidate, scale)) else s.t
  {
  }

  /** Every event either leaves the tables alone or commits one transaction, computed from current rows. */
  lemma NextRefinesStep(m: Maths, s: System, e: Event)
    requires SysInv(m, s)
    ensures Next(m, s, e).t == match CommitOf(s, e) case Some(c) => Step(m, s.t, c) case None => s.t
  {
    match e
    case PostStep(p, fail) =>
      if p in s.posts && !fail {
        PostRefinesStep(m, s, p);
      }
    case PlaceStep(c, active, createdAt, fail) =>
      if c in s.calls && !fail {
        InsertRefinesStep(m, s, c, active, createdAt);
      }
    case EngineStep(w, scale, fail) =>
      if w in s.workers && s.workers[w].order < |s.t.orders| {
        EngineRefinesStep(m, s, w, scale);
      }
    case _ =>
  }

  // ----- Every event keeps the invariant -----

  lemma ReturnKeepsTracks(t: Tables, s: System, w: nat)
    requires Tracks(t, s) && w in s.workers
    requires var id := s.workers[w].order; IsLive(t.orders[id]) ==> Queue(t.orders, id) == []
    ensures Tracks(t, Return(s, w, true))
  {
    var id := s.workers[w].order;
    assert WorkerOk(t.orders, s.workers[w]);
    QueueIsQueue(t.orders, id);
    var cleared := s.cleared + {id};
    forall j | j in cleared && IsLive(t.orders[id]) && IsLive(t.orders[j])
      ensures !Crosses(t.orders[id], t.orders[j]) && !Crosses(t.orders[j], t.orders[id])
    {
      assert !Eligible(t.orders, id, j);
    }
    assert NoMissedMatch(t.orders, cleared);
  }

  lemma GotoKeepsTracks(t: Tables, s: System, w: nat, pc: EnginePc)
    requires Tracks(t, s) && w in s.workers && WorkerOk(t.orders, s.workers[w].(pc := pc))
    ensures Tracks(t, Goto(s, w, pc))
  {
  }

  lemma ChooseKeepsTracks(m: Maths, s: System, w: nat, scale: Scale)
    requires Tracks(s.t, s) && w in s.workers && s.workers[w].order < |s.t.orders| && s.workers[w].pc == Choose
    ensures Tracks(s.t, EngineNext(m, s, w, scale))
  {
    var id := s.workers[w].order;
    QueueIsQueue(s.t.orders, id);
    var queue := Queue(s.t.orders, id);
    if queue == [] {
      ReturnKeepsTracks(s.t, s, w);
    } else {
      assert queue[0] in queue;
      assert Eligible(s.t.orders, id, queue[0]);
      GotoKeepsTracks(s.t, s, w, Execute(queue[0]));
    }
  }

  lemma FillKeepsTracks(m: Maths, s: System, w: nat, c: Commit)
    requires SysInv(m, s) && w in s.workers && Enabled(m, s.t, c)
    ensures var u := After(m, s.t, c); Tracks(u, Goto(s, w, Refetch).(t := u))
  {
    var u := After(m, s.t, c);
    assert WorkerOk(s.t.orders, s.workers[w]);
    StepAdvances(m, s.t, c);
    TracksSurvives(s.t, u, s);
    GotoKeepsTracks(u, s, w, Refetch);
  }

  lemma ExecuteKeepsTracks(m: Maths, s: System, w: nat, scale: Scale)
    requires SysInv(m, s) && w in s.workers && s.workers[w].order < |s.t.orders| && s.workers[w].pc.Execute?
    ensures Tracks(EngineNext(m, s, w, scale).t, EngineNext(m, s, w, scale))
  {
    var c := Fill(s.workers[w].order, s.workers[w].pc.candidate, scale);
    assert WorkerOk(s.t.orders, s.workers[w]);
    if Enabled(m, s.t, c) {
      FillKeepsTracks(m, s, w, c);
    } else {
      GotoKeepsTracks(s.t, s, w, Recheck);
    }
  }

  lemma EngineKeepsTracks(m: Maths, s: System, w: nat, scale: Scale)
    requires SysInv(m, s) && w in s.workers && s.workers[w].order < |s.t.orders|
    ensures Tracks(EngineNext(m, s, w, scale).t, EngineNext(m, s, w, scale))
  {
    var id := s.workers[w].order;
    if s.workers[w].pc == Choose {
      ChooseKeepsTracks(m, s, w, scale);
    } else if s.workers[w].pc.Execute? {
      ExecuteKeepsTracks(m, s, w, scale);
    } else {
      assert OrderOk(s.t.orders[id]);
      GotoKeepsTracks(s.t, s, w, Fetch);
      GotoKeepsTracks(s.t, s, w, Choose);
      if !IsLive(s.t.orders[id]) {
        ReturnKeepsTracks(s.t, s, w);
      }
    }
  }

  lemma MoveKeepsTracks(t: Tables, s: System, c: nat, pc: PlacePc)
    requires Tracks(t, s) && c in s.calls && CallOk(t, s.calls[c].(pc := pc)) && !pc.Enqueue?
    ensures Tracks(t, MoveCall(s, c, pc))
  {
  }

  lemma InsertKeepsTracks(s: System, c: nat, o: Order)
    requires Tracks(s.t, s) && c in s.calls && o.user == s.calls[c].user && o.key == s.calls[c].input.key
    requires var u := s.t.(orders := s.t.orders + [o]); Tracks(u, s)
    ensures var u := s.t.(orders := s.t.orders + [o]); Tracks(u, MoveCall(s, c, Enqueue(|s.t.orders|)))
  {
    var u := s.t.(orders := s.t.orders + [o]);
    var calls := MoveCall(s, c, Enqueue(|s.t.orders|)).calls;
    forall d | d in calls && d != c && calls[d].pc.Enqueue? ensures calls[d].pc.id < |s.t.orders| {
      assert CallOk(s.t, s.calls[d]);
    }
    assert EnqueuedOnce(s.enqueued, calls);
  }

  lemma EnqueueKeepsTracks(t: Tables, s: System, c: nat)
    requires Tracks(t, s) && c in s.calls && s.calls[c].pc.Enqueue?
    ensures var id := s.calls[c].pc.id;
      var done := MoveCall(s, c, Answered(id));
      Tracks(t, done) && Tracks(t, done.(queue := s.queue + [id], enqueued := s.enqueued + [id]))
  {
    assert CallOk(t, s.calls[c]);
    MoveKeepsTracks(t, s, c, Answered(s.calls[c].pc.id));
  }

  lemma InsertRowKeepsTracks(m: Maths, s: System, c: nat, active: Option<bool>, createdAt: int)
    requires SysInv(m, s) && c in s.calls && s.calls[c].pc == InsertRow && CallOk(s.t, s.calls[c])
    ensures Tracks(PlaceNext(m, s, c, active, createdAt).t, PlaceNext(m, s, c, active, createdAt))
  {
    var call := s.calls[c];
    var o := NewOrder(call.user, call.input, createdAt);
    if PlaceNext(m, s, c, active, createdAt).t != s.t {
      assert Enabled(m, s.t, Insert(o));
      var u := s.t.(orders := s.t.orders + [o]);
      StepAdvances(m, s.t, Insert(o));
      TracksSurvives(s.t, u, s);
      InsertKeepsTracks(s, c, o);
    } else {
      MoveKeepsTracks(s.t, s, c, Fallback);
      MoveKeepsTracks(s.t, s, c, Refused);
    }
  }

  lemma LookupKeepsTracks(m: Maths, s: System, c: nat, active: Option<bool>, createdAt: int)
    requires Tracks(s.t, s) && c in s.calls && CallOk(s.t, s.calls[c])
    requires s.calls[c].pc == Lookup || s.calls[c].pc == Check || s.calls[c].pc == Fallback
    ensures Tracks(PlaceNext(m, s, c, active, createdAt).t, PlaceNext(m, s, c, active, createdAt))
  {
    var next := PlaceNext(m, s, c, active, createdAt).calls[c].pc;
    MoveKeepsTracks(s.t, s, c, next);
  }

  lemma PlaceKeepsTracks(m: Maths, s: System, c: nat, active: Option<bool>, createdAt: int)
    requires SysInv(m, s) && c in s.calls
    ensures CallOk(s.t, s.calls[c])
    ensures Tracks(PlaceNext(m, s, c, active, createdAt).t, PlaceNext(m, s, c, active, createdAt))
  {
    assert CallOk(s.t, s.calls[c]);
    match s.calls[c].pc
    case InsertRow => InsertRowKeepsTracks(m, s, c, active, createdAt);
    case Enqueue(_) => EnqueueKeepsTracks(s.t, s, c);
    case Answered(_) =>
    case Refused =>
    case _ => LookupKeepsTracks(m, s, c, active, createdAt);
  }

  lemma PostShape(m: Maths, s: System, p: nat)
    requires p in s.posts && PostOk(s.t.wallets, s.posts[p])
    ensures var u := PostNext(m, s, p);
      && u == s.(t := u.t, posts := u.posts)
      && (p in u.posts ==> u.t == s.t && u.posts == s.posts[p := s.posts[p].(seen := Some(s.t.wallets[s.posts[p].user]))]
                           && s.posts[p].user in s.t.wallets)
      && (p !in u.posts ==> u.posts == s.posts - {p})
  {
  }

  lemma ReadKeepsTracks(t: Tables, s: System, p: nat, posts: map<nat, WalletCall>)
    requires Tracks(t, s) && p in s.posts
    requires posts == s.posts - {p}
             || (s.posts[p].user in t.wallets && posts == s.posts[p := s.posts[p].(seen := Some(t.wallets[s.posts[p].user]))])
    ensures Tracks(t, s.(posts := posts))
  {
  }

  lemma PostKeepsTracks(m: Maths, s: System, p: nat)
    requires SysInv(m, s) && p in s.posts
    ensures Tracks(PostNext(m, s, p).t, PostNext(m, s, p))
  {
    var e, u := PostStep(p, false), PostNext(m, s, p);
    PostRefinesStep(m, s, p);
    PostShape(m, s, p);
    if CommitOf(s, e).Some? {
      StepAdvances(m, s.t, CommitOf(s, e).value);
      TracksSurvives(s.t, u.t, s);
    }
    ReadKeepsTracks(u.t, s, p, u.posts);
  }

  lemma TakeKeepsTracks(m: Maths, s: System, w: nat)
    requires Tracks(s.t, s)
    ensures Next(m, s, Take(w)).t == s.t && Tracks(s.t, Next(m, s, Take(w)))
  {
  }

  lemma ArriveKeepsTracks(m: Maths, s: System, c: nat, user: int, input: PlaceInput)
    requires Tracks(s.t, s)
    ensures var e := Arrive(c, user, input); Next(m, s, e).t == s.t && Tracks(s.t, Next(m, s, e))
  {
  }

  lemma AskKeepsTracks(m: Maths, s: System, p: nat, user: int, amount: real, kind: Kind, text: string)
    requires Tracks(s.t, s)
    ensures var e := Ask(p, user, amount, kind, text); Next(m, s, e).t == s.t && Tracks(s.t, Next(m, s, e))
  {
  }

  lemma DirectKeepsTracks(m: Maths, s: System, c: Commit)
    requires SysInv(m, s)
    ensures Tracks(Next(m, s, Direct(c)).t, Next(m, s, Direct(c)))
  {
    StepAdvances(m, s.t, c);
    TracksSurvives(s.t, Step(m, s.t, c), s);
  }

  lemma PlaceStepKeepsTracks(m: Maths, s: System, c: nat, active: Option<bool>, createdAt: int, fail: bool)
    requires SysInv(m, s)
    ensures var e := PlaceStep(c, active, createdAt, fail); Tracks(Next(m, s, e).t, Next(m, s, e))
  {
    if c in s.calls {
      PlaceKeepsTracks(m, s, c, active, createdAt);
      MoveKeepsTracks(s.t, s, c, Refused);
    }
  }

  lemma NextKeepsTracks(m: Maths, s: System, e: Event)
    requires SysInv(m, s)
    ensures Tracks(Next(m, s, e).t, Next(m, s, e))
  {
    match e
    case Take(w) => TakeKeepsTracks(m, s, w);
    case EngineStep(w, scale, fail) =>
      if w in s.workers && !fail {
        EngineKeepsTracks(m, s, w, scale);
      }
    case Arrive(c, user, input) => ArriveKeepsTracks(m, s, c, user, input);
    case PlaceStep(c, active, createdAt, fail) => PlaceStepKeepsTracks(m, s, c, active, createdAt, fail);
    case Ask(p, user, amount, kind, text) => AskKeepsTracks(m, s, p, user, amount, kind, text);
    case PostStep(p, fail) =>
      if p in s.posts {
        PostKeepsTracks(m, s, p);
      }
    case Direct(c) => DirectKeepsTracks(m, s, c);
  }

  lemma NextKeepsInv(m: Maths, s: System, e: Event)
    requires SysInv(m, s)
    ensures SysInv(m, Next(m, s, e))
  {
    NextKeepsTracks(m, s, e);
    NextRefinesStep(m, s, e);
    if CommitOf(s, e).Some? {
      StepKeepsInv(m, s.t, CommitOf(s, e).value);
    }
  }

  lemma {:induction false} ExecKeepsInv(m: Maths, seed: Seeds, es: seq<Event>)
    requires HoldingsOk(seed)
    ensures SysInv(m, Exec(m, seed, es))
  {
    if es == [] {
      RunKeepsInv(m, seed, []);
    } else {
      ExecKeepsInv(m, seed, es[..|es| - 1]);
      NextKeepsInv(m, Exec(m, seed, es[..|es| - 1]), es[|es| - 1]);
    }
  }

  // ----- The promises, over every schedule -----

  /** The transactions of a schedule, in the order in which they commit. */
  function Trace(m: Maths, seed: Seeds, es: seq<Event>): seq<Commit> {
    if es == [] then [] else
      var c := CommitOf(Exec(m, seed, es[..|es| - 1]), es[|es| - 1]);
      Trace(m, seed, es[..|es| - 1]) + if c.Some? then [c.value] else []
  }

  /** However it interleaves, the system reaches only tables that some run of transactions reaches. */
  lemma {:induction false} EveryScheduleIsARun(m: Maths, seed: Seeds, es: seq<Event>)
    requires HoldingsOk(seed)
    ensures Exec(m, seed, es).t == Run(m, seed, Trace(m, seed, es))
  {
    if es != [] {
      var rest, e := es[..|es| - 1], es[|es| - 1];
      EveryScheduleIsARun(m, seed, rest);
      ExecKeepsInv(m, seed, rest);
      NextRefinesStep(m, Exec(m, seed, rest), e);
      var c := CommitOf(Exec(m, seed, rest), e);
      if c.Some? {
        StepsAppend(m, Seed(seed), Trace(m, seed, rest), c.value);
      } else {
        assert Trace(m, seed, es) == Trace(m, seed, rest);
      }
    }
  }

  /** Two open orders that cross, each with something left to trade, are never both finished with. */
  lemma CrossingOrdersAreNotForgotten(m: Maths, seed: Seeds, es: seq<Event>, i: nat, j: nat)
    requires HoldingsOk(seed)
    requires var s := Exec(m, seed, es);
      && i < |s.t.orders| && j < |s.t.orders| && Crosses(s.t.orders[i], s.t.orders[j])
      && IsLive(s.t.orders[i]) && IsLive(s.t.orders[j])
    ensures i !in Exec(m, seed, es).cleared || j !in Exec(m, seed, es).cleared
  {
    ExecKeepsInv(m, seed, es);
  }

  /** Calls of one user with one key that succeed return one order, which is the only one with that key. */
  lemma SameKeySameOrder(m: Maths, seed: Seeds, es: seq<Event>, c: nat, i: nat)
    requires HoldingsOk(seed)
    requires var s := Exec(m, seed, es);
      && c in s.calls && s.calls[c].pc.Answered? && s.calls[c].input.key.Some?
      && i < |s.t.orders| && s.t.orders[i].user == s.calls[c].user && s.t.orders[i].key == s.calls[c].input.key
    ensures Exec(m, seed, es).calls[c].pc.id == i
  {
    ExecKeepsInv(m, seed, es);
    assert CallOk(Exec(m, seed, es).t, Exec(m, seed, es).calls[c]);
  }

  lemma EnqueuedAtMostOnce(m: Maths, seed: Seeds, es: seq<Event>)
    requires HoldingsOk(seed)
    ensures var enqueued := Exec(m, seed, es).enqueued;
      forall j, k :: 0 <= j < k < |enqueued| ==> enqueued[j] != enqueued[k]
  {
    ExecKeepsInv(m, seed, es);
  }

  // ----- Two moments of one schedule -----

  /** The transactions of a schedule stay where they are as it goes on. */
  lemma {:induction false} TraceExtends(m: Maths, seed: Seeds, es: seq<Event>, fs: seq<Event>)
    ensures Trace(m, seed, es) <= Trace(m, seed, es + fs)
  {
    if fs == [] {
      assert es + fs == es;
    } else {
      TraceExtends(m, seed, es, fs[..|fs| - 1]);
      assert (es + fs)[..|es + fs| - 1] == es + fs[..|fs| - 1];
    }
  }

  /** In every interleaving, closed orders stay as they are, fills only grow, and terms never change. */
  lemma OrdersOnlyProgressInSchedules(m: Maths, seed: Seeds, es: seq<Event>, fs: seq<Event>)
    requires HoldingsOk(seed)
    ensures OrdersProgress(Exec(m, seed, es).t, Exec(m, seed, es + fs).t)
  {
    EveryScheduleIsARun(m, seed, es);
    EveryScheduleIsARun(m, seed, es + fs);
    TraceExtends(m, seed, es, fs);
    LaterRunProgresses(m, seed, Trace(m, seed, es), Trace(m, seed, es + fs), Exec(m, seed, es).t, Exec(m, seed, es + fs).t);
  }
}
