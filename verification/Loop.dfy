/**
 When the loop of one `processOrder` ends, if nobody else writes: with statuses as the code
 stores them, on any tables whatever.
 */
module Loop {
  import opened Arithmetic
  import opened Tables
  import opened Orders
  import opened Holdings
  import opened Matching
  import opened Exchange
  import opened Schedule

  // ----- One turn -----

  function Turn(m: Maths, s: System, w: nat, scale: Scale): System {
    var e := EngineStep(w, scale, false);
    Next(m, Next(m, Next(m, Next(m, s, e), e), e), e)
  }

  /** At the top of the loop, with work to do. */
  predicate AtWork(s: System, w: nat) {
    && w in s.workers && s.workers[w].pc == Fetch && s.workers[w].order < |s.t.orders|
    && IsLive(s.t.orders[s.workers[w].order])
  }

  /** The best candidate is open, but nothing remains of it. */
  predicate IsStuck(s: System, w: nat) {
    AtWork(s, w) &&
    var queue := Queue(s.t.orders, s.workers[w].order);
    queue != [] && queue[0] < |s.t.orders| && s.t.orders[queue[0]].Remaining() <= 0
  }

  lemma StuckTurnChangesNothing(m: Maths, s: System, w: nat, scale: Scale)
    requires IsStuck(s, w)
    ensures Turn(m, s, w, scale) == s
  {
    var e := EngineStep(w, scale, false);
    var c := Queue(s.t.orders, s.workers[w].order)[0];
    var s1 := Next(m, s, e);
    var s2 := Next(m, s1, e);
    assert s1 == Goto(s, w, Choose) && s2 == Goto(s, w, Execute(c));
    var s3 := Next(m, s2, e);
    assert s3 == Goto(s, w, Recheck);
    assert s.workers[w := s.workers[w].(pc := Fetch)] == s.workers;
  }

  /** The loop has returned, or a fill has been committed and less remains of the order. */
  predicate HasMoved(s: System, u: System, w: nat)
    requires w in s.workers && s.workers[w].order < |s.t.orders|
  {
    || w !in u.workers
    || (&& u.workers[w] == s.workers[w] && u.workers[w].order < |u.t.orders|
        && |u.t.trades| == |s.t.trades| + 1
        && u.t.orders[u.workers[w].order].Remaining() < s.t.orders[u.workers[w].order].Remaining())
  }

  lemma FillTakes(m: Maths, t: Tables, i: nat, c: nat, scale: Scale)
    requires Enabled(m, t, Fill(i, c, scale))
    ensures var u := After(m, t, Fill(i, c, scale));
      |u.orders| == |t.orders| && |u.trades| == |t.trades| + 1 && u.orders[i].Remaining() < t.orders[i].Remaining()
  {
  }

  lemma OtherTurnsMove(m: Maths, s: System, w: nat, scale: Scale)
    requires AtWork(s, w) && !IsStuck(s, w)
    ensures HasMoved(s, Turn(m, s, w, scale), w)
  {
    var e, id := EngineStep(w, scale, false), s.workers[w].order;
    var queue := Queue(s.t.orders, id);
    QueueIsQueue(s.t.orders, id);
    var s1 := Next(m, s, e);
    var s2 := Next(m, s1, e);
    assert s1 == Goto(s, w, Choose);
    if queue == [] {
      assert w !in s2.workers;
    } else {
      assert queue[0] in queue;
      assert Eligible(s.t.orders, id, queue[0]) && Tradable(s.t.orders, id, queue[0]);
      assert s2 == Goto(s, w, Execute(queue[0]));
      AfterExecute(m, s, w, scale, queue[0]);
    }
  }

  lemma AfterExecute(m: Maths, s: System, w: nat, scale: Scale, c: nat)
    requires AtWork(s, w) && Tradable(s.t.orders, s.workers[w].order, c)
    ensures var e := EngineStep(w, scale, false);
      HasMoved(s, Next(m, Next(m, Goto(s, w, Execute(c)), e), e), w)
  {
    var e, fill := EngineStep(w, scale, false), Fill(s.workers[w].order, c, scale);
    var s3 := Next(m, Goto(s, w, Execute(c)), e);
    if Enabled(m, s.t, fill) {
      FillTakes(m, s.t, s.workers[w].order, c, scale);
      assert s3.t == After(m, s.t, fill) && s3.workers[w] == s.workers[w].(pc := Refetch);
    } else {
      assert w !in s3.workers;
    }
  }

  /**
   One turn of the loop, on any tables at all: it comes back to where it was if and only if
   nothing remains of the best candidate. Otherwise it returns or commits a fill.
   */
  lemma TurnSpinsExactly(m: Maths, s: System, w: nat, scale: Scale)
    requires AtWork(s, w)
    ensures Turn(m, s, w, scale) == s <==> IsStuck(s, w)
    ensures !IsStuck(s, w) ==> HasMoved(s, Turn(m, s, w, scale), w)
  {
    if IsStuck(s, w) {
      StuckTurnChangesNothing(m, s, w, scale);
    } else {
      OtherTurnsMove(m, s, w, scale);
    }
  }

  // ----- Many turns -----

  /** One loop on its own: no other writer, and no call that fails. */
  function Solo(m: Maths, s: System, w: nat, scale: Scale, n: nat): System {
    if n == 0 then s else Next(m, Solo(m, s, w, scale, n - 1), EngineStep(w, scale, false))
  }

  lemma SoloTurn(m: Maths, s: System, w: nat, scale: Scale, n: nat)
    ensures Solo(m, s, w, scale, n + 4) == Turn(m, Solo(m, s, w, scale, n), w, scale)
  {
    assert Solo(m, s, w, scale, n + 2) == Next(m, Solo(m, s, w, scale, n + 1), EngineStep(w, scale, false));
    assert Solo(m, s, w, scale, n + 3) == Next(m, Solo(m, s, w, scale, n + 2), EngineStep(w, scale, false));
  }

  predicate AtTop(s: System, w: nat) {
    w in s.workers && s.workers[w].pc == Fetch && s.workers[w].order < |s.t.orders|
  }

  /** What remains of the order that a worker is on. */
  function Left(s: System, w: nat): int {
    if AtTop(s, w) then s.t.orders[s.workers[w].order].Remaining() else 0
  }

  lemma SoloGoesOn(m: Maths, s: System, w: nat, scale: Scale, n: nat)
    ensures w !in Solo(m, s, w, scale, n).workers ==> w !in Solo(m, s, w, scale, n + 1).workers
  {
    var u := Solo(m, s, w, scale, n);
    assert Solo(m, s, w, scale, n + 1) == Next(m, u, EngineStep(w, scale, false));
  }

  lemma TurnFromTop(m: Maths, u: System, w: nat, scale: Scale)
    requires AtTop(u, w)
    ensures IsStuck(u, w) ==> Turn(m, u, w, scale) == u
    ensures !IsStuck(u, w) ==>
      var v := Turn(m, u, w, scale);
      w !in v.workers || (AtTop(v, w) && Left(v, w) < Left(u, w) && 0 < Left(u, w))
  {
    if AtWork(u, w) {
      TurnSpinsExactly(m, u, w, scale);
    } else {
      assert w !in Next(m, u, EngineStep(w, scale, false)).workers;
    }
  }

  /** What is known of one loop at the n-th step: is it over, stuck, at the top, and how much is left to do. */
  datatype Watch = Watch(over: nat -> bool, stuck: nat -> bool, top: nat -> bool, left: nat -> int)

  /** Over stays over, stuck stays stuck, and any other turn from the top ends the loop or leaves less to do. */
  predicate LawAt(l: Watch, n: nat) {
    && (l.over(n) ==> l.over(n + 1))
    && (l.stuck(n) ==> !l.over(n) && l.stuck(n + 4))
    && (l.top(n) && !l.stuck(n) ==> l.over(n + 4) || (l.top(n + 4) && l.left(n + 4) < l.left(n) && 0 < l.left(n)))
  }

  lemma {:induction false} OverStays(l: Watch, n: nat, later: nat)
    requires (forall k :: LawAt(l, k)) && l.over(n) && n <= later
    ensures l.over(later)
    decreases later
  {
    if n < later {
      OverStays(l, n, later - 1);
      assert LawAt(l, later - 1);
    }
  }

  lemma {:induction false} StuckStays(l: Watch, n: nat, turns: nat)
    requires (forall k :: LawAt(l, k)) && l.stuck(n)
    ensures l.stuck(n + 4 * turns)
    decreases turns
  {
    if turns > 0 {
      StuckStays(l, n, turns - 1);
      assert LawAt(l, n + 4 * (turns - 1));
      assert n + 4 * (turns - 1) + 4 == n + 4 * turns;
    }
  }

  lemma {:induction false} UnstuckEnds(l: Watch, n: nat) returns (end: nat)
    requires (forall k :: LawAt(l, k)) && l.top(n) && forall k :: !l.stuck(k)
    ensures l.over(end)
    decreases l.left(n)
  {
    assert LawAt(l, n);
    if l.over(n + 4) {
      end := n + 4;
    } else {
      end := UnstuckEnds(l, n + 4);
    }
  }

  lemma StuckIsNeverOver(l: Watch, n: nat, k: nat)
    requires (forall k :: LawAt(l, k)) && l.stuck(n)
    ensures !l.over(k)
  {
    StuckStays(l, n, k);
    assert LawAt(l, n + 4 * k);
    if l.over(k) {
      OverStays(l, k, n + 4 * k);
    }
  }

  lemma EndsExactly(l: Watch)
    requires (forall k :: LawAt(l, k)) && l.top(0)
    ensures (exists n :: l.over(n)) <==> (forall n :: !l.stuck(n))
  {
    if n: nat :| l.stuck(n) {
      forall k: nat ensures !l.over(k) {
        StuckIsNeverOver(l, n, k);
      }
    } else {
      var end := UnstuckEnds(l, 0);
    }
  }

  /** One loop as `Solo` runs it: it is over when the worker is gone. */
  ghost function Watched(m: Maths, s: System, w: nat, scale: Scale): Watch {
    Watch((n: nat) => w !in Solo(m, s, w, scale, n).workers,
          (n: nat) => IsStuck(Solo(m, s, w, scale, n), w),
          (n: nat) => AtTop(Solo(m, s, w, scale, n), w),
          (n: nat) => Left(Solo(m, s, w, scale, n), w))
  }

  lemma SoloKeepsLaw(m: Maths, s: System, w: nat, scale: Scale, n: nat)
    ensures LawAt(Watched(m, s, w, scale), n)
  {
    var u, v := Solo(m, s, w, scale, n), Solo(m, s, w, scale, n + 4);
    SoloGoesOn(m, s, w, scale, n);
    SoloTurn(m, s, w, scale, n);
    if AtTop(u, w) {
      TurnFromTop(m, u, w, scale);
    }
    LawHolds(Watched(m, s, w, scale), n, u, v, w, w in Solo(m, s, w, scale, n + 1).workers);
  }

  lemma LawHolds(l: Watch, n: nat, u: System, v: System, w: nat, goesOn: bool)
    requires l.over(n) == (w !in u.workers) && l.over(n + 4) == (w !in v.workers) && l.over(n + 1) == !goesOn
    requires l.stuck(n) == IsStuck(u, w) && l.stuck(n + 4) == IsStuck(v, w)
    requires l.top(n) == AtTop(u, w) && l.top(n + 4) == AtTop(v, w)
    requires l.left(n) == Left(u, w) && l.left(n + 4) == Left(v, w)
    requires goesOn ==> w in u.workers
    requires IsStuck(u, w) ==> v == u
    requires AtTop(u, w) && !IsStuck(u, w) ==>
      w !in v.workers || (AtTop(v, w) && Left(v, w) < Left(u, w) && 0 < Left(u, w))
    ensures LawAt(l, n)
  {
  }

  /**
   When `processOrder` ends, with the statuses that the code stores and on any tables: if and only
   if it never finds a candidate with nothing remaining in front while the order has work to do.
   */
  lemma LoopEndsExactly(m: Maths, s: System, w: nat, scale: Scale)
    requires AtTop(s, w)
    ensures var l := Watched(m, s, w, scale); (exists n :: l.over(n)) <==> (forall n :: !l.stuck(n))
  {
    var l := Watched(m, s, w, scale);
    forall n: nat ensures LawAt(l, n) {
      SoloKeepsLaw(m, s, w, scale, n);
    }
    assert l.top(0);
    EndsExactly(l);
  }

  // ----- Among other writers -----

  lemma PlaceLeavesWorkers(m: Maths, s: System, c: nat, active: Option<bool>, createdAt: int)
    requires c in s.calls
    requires s.calls[c].pc.InsertRow? ==> s.calls[c].input.price.Some? && s.calls[c].input.quantity.Some?
    ensures PlaceNext(m, s, c, active, createdAt).workers == s.workers
  {
  }

  lemma PostLeavesWorkers(m: Maths, s: System, p: nat)
    requires p in s.posts
    ensures PostNext(m, s, p).workers == s.workers
  {
  }

  lemma EngineLeavesOthers(m: Maths, s: System, v: nat, scale: Scale, w: nat)
    requires v in s.workers && w in s.workers && v != w && s.workers[v].order < |s.t.orders|
    ensures w in EngineNext(m, s, v, scale).workers && EngineNext(m, s, v, scale).workers[w] == s.workers[w]
  {
  }

  /** Nobody but the worker itself moves it. */
  lemma OthersLeaveWorker(m: Maths, s: System, e: Event, w: nat)
    requires w in s.workers && !(e.EngineStep? && e.w == w)
    ensures w in Next(m, s, e).workers && Next(m, s, e).workers[w] == s.workers[w]
  {
    match e
    case EngineStep(v, scale, _) =>
      if v in s.workers && s.workers[v].order < |s.t.orders| {
        EngineLeavesOthers(m, s, v, scale, w);
      }
    case PlaceStep(c, active, createdAt, _) =>
      if c in s.calls && (s.calls[c].pc.InsertRow? ==> s.calls[c].input.price.Some? && s.calls[c].input.quantity.Some?) {
        PlaceLeavesWorkers(m, s, c, active, createdAt);
      }
    case PostStep(p, _) =>
      if p in s.posts {
        PostLeavesWorkers(m, s, p);
      }
    case _ =>
  }

  predicate LeavesAlone(fs: seq<Event>, w: nat) {
    forall k :: 0 <= k < |fs| && fs[k].EngineStep? ==> fs[k].w != w
  }

  lemma {:induction false} WorkerWaits(m: Maths, seed: Seeds, es: seq<Event>, fs: seq<Event>, w: nat)
    requires LeavesAlone(fs, w) && w in Exec(m, seed, es).workers
    ensures w in Exec(m, seed, es + fs).workers && Exec(m, seed, es + fs).workers[w] == Exec(m, seed, es).workers[w]
  {
    if fs == [] {
      assert es + fs == es;
    } else {
      var before := fs[..|fs| - 1];
      WorkerWaits(m, seed, es, before, w);
      ExecLast(m, seed, es + before, es + fs, fs[|fs| - 1]);
      OthersLeaveWorker(m, Exec(m, seed, es + before), fs[|fs| - 1], w);
    }
  }

  lemma ExecLast(m: Maths, seed: Seeds, es: seq<Event>, fs: seq<Event>, e: Event)
    requires fs == es + [e]
    ensures Exec(m, seed, fs) == Next(m, Exec(m, seed, es), e)
  {
    assert fs[..|fs| - 1] == es;
  }

  /** A pair that could be traded with when it was chosen can be traded with as long as its two rows stay. */
  lemma PairStaysTradable(t: Tables, u: Tables, id: nat, c: nat)
    requires Tradable(t.orders, id, c) && id < |u.orders| && c < |u.orders|
    requires u.orders[id] == t.orders[id] && u.orders[c] == t.orders[c]
    ensures Tradable(u.orders, id, c)
  {
  }

  /**
   In every schedule: between choosing a candidate and finding that the pair cannot be traded,
   another transaction has changed one of the two orders, unless nothing remained of the candidate
   from the beginning. So a loop that goes round without a trade is stuck or has been interfered with.
   */
  lemma UnmatchedIsStuckOrInterference(m: Maths, seed: Seeds, es: seq<Event>, fs: seq<Event>, w: nat, scale: Scale)
    requires HoldingsOk(seed) && LeavesAlone(fs, w)
    requires w in Exec(m, seed, es).workers && Exec(m, seed, es).workers[w].pc.Execute?
    requires var s, id, c := Exec(m, seed, es).t, Exec(m, seed, es).workers[w].order, Exec(m, seed, es).workers[w].pc.candidate;
      id < |s.orders| && c < |s.orders| && Eligible(s.orders, id, c) && IsLive(s.orders[id])
    requires var u := Next(m, Exec(m, seed, es + fs), EngineStep(w, scale, false));
      w in u.workers && u.workers[w].pc == Recheck
    ensures var s, u := Exec(m, seed, es).t, Exec(m, seed, es + fs).t;
      var id, c := Exec(m, seed, es).workers[w].order, Exec(m, seed, es).workers[w].pc.candidate;
      && |s.orders| <= |u.orders|
      && (s.orders[c].Remaining() <= 0 || u.orders[id] != s.orders[id] || u.orders[c] != s.orders[c])
  {
    WorkerWaits(m, seed, es, fs, w);
    OrdersOnlyProgressInSchedules(m, seed, es, fs);
    Unmatched(m, Exec(m, seed, es).t, Exec(m, seed, es + fs), w, scale);
  }

  lemma Unmatched(m: Maths, t: Tables, v: System, w: nat, scale: Scale)
    requires w in v.workers && v.workers[w].pc.Execute? && OrdersProgress(t, v.t)
    requires var id, c := v.workers[w].order, v.workers[w].pc.candidate;
      id < |t.orders| && c < |t.orders| && Eligible(t.orders, id, c) && IsLive(t.orders[id])
    requires var u := Next(m, v, EngineStep(w, scale, false)); w in u.workers && u.workers[w].pc == Recheck
    ensures var id, c := v.workers[w].order, v.workers[w].pc.candidate;
      t.orders[c].Remaining() <= 0 || v.t.orders[id] != t.orders[id] || v.t.orders[c] != t.orders[c]
  {
    var id, c := v.workers[w].order, v.workers[w].pc.candidate;
    if 0 < t.orders[c].Remaining() && v.t.orders[id] == t.orders[id] && v.t.orders[c] == t.orders[c] {
      PairStaysTradable(t, v.t, id, c);
    }
  }
}
