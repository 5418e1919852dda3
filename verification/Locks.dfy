/**
 Row locks. A transaction takes its locks one by one, in a fixed order, and keeps them
 until it ends. A deadlock is a cycle of transactions that wait for each other.
 */
module Locks {

  datatype Row = OrderRow(id: nat) | WalletRow(user: int) | HoldingRow(user: int, asset: int)

  /** The transactions that lock rows, with the rows they name. */
  datatype Program =
    | Trade(buy: nat, sell: nat, buyer: int, seller: int, asset: int)
    | CancelOrder(order: nat)
    | PostToWallet(user: int)

  /** What a program locks: a trade takes the lower order first, then the buyer's wallet, the seller's, and their holdings. */
  function Wants(p: Program): seq<Row> {
    match p
    case Trade(buy, sell, buyer, seller, asset) =>
      (if buy <= sell then [OrderRow(buy), OrderRow(sell)] else [OrderRow(sell), OrderRow(buy)])
      + [WalletRow(buyer), WalletRow(seller)] + [HoldingRow(buyer, asset), HoldingRow(seller, asset)]
    case CancelOrder(order) => [OrderRow(order)]
    case PostToWallet(user) => [WalletRow(user)]
  }

  /** A running transaction has its first `held` locks. */
  datatype Txn = Txn(program: Program, held: nat)

  type LockState = map<nat, Txn>

  datatype Event = BeginTx(id: nat, program: Program) | Acquire(id: nat) | End(id: nat)

  predicate Holds(t: Txn, r: Row) {
    exists k :: 0 <= k < t.held && k < |Wants(t.program)| && Wants(t.program)[k] == r
  }

  predicate WaitsFor(s: LockState, a: nat, b: nat) {
    && a in s && b in s && s[a].held < |Wants(s[a].program)|
    && Holds(s[b], Wants(s[a].program)[s[a].held])
  }

  predicate WellFormed(p: Program) {
    p.Trade? ==> p.buy != p.sell && p.buyer != p.seller
  }

  /** One engine: a second trade does not begin while one is running. */
  predicate MayBegin(s: LockState, p: Program, engines: nat) {
    WellFormed(p) && (p.Trade? ==> |Trades(s)| < engines)
  }

  function Next(s: LockState, e: Event, engines: nat): LockState {
    match e
    case BeginTx(i, p) => if i !in s && MayBegin(s, p, engines) then s[i := Txn(p, 0)] else s
    case Acquire(i) =>
      if i in s && s[i].held < |Wants(s[i].program)|
         && (forall j :: j in s && j != i ==> !Holds(s[j], Wants(s[i].program)[s[i].held]))
      then s[i := s[i].(held := s[i].held + 1)] else s
    case End(i) => s - {i}
  }

  function Exec(es: seq<Event>, engines: nat): LockState {
    if es == [] then map[] else Next(Exec(es[..|es| - 1], engines), es[|es| - 1], engines)
  }

  predicate AllWellFormed(s: LockState) {
    forall i :: i in s ==> WellFormed(s[i].program) && s[i].held <= |Wants(s[i].program)|
  }

  lemma {:induction false} ExecIsWellFormed(es: seq<Event>, engines: nat)
    ensures AllWellFormed(Exec(es, engines))
  {
    if es != [] {
      ExecIsWellFormed(es[..|es| - 1], engines);
    }
  }

  // ----- Exclusion -----

  /** No row is held twice. */
  ghost predicate Exclusive(s: LockState) {
    forall i, j, r :: i in s && j in s && Holds(s[i], r) && Holds(s[j], r) ==> i == j
  }

  lemma HoldsOneMore(t: Txn, r: Row)
    requires t.held < |Wants(t.program)|
    ensures Holds(t.(held := t.held + 1), r) <==> Holds(t, r) || r == Wants(t.program)[t.held]
  {
    if r == Wants(t.program)[t.held] {
      assert t.held < t.(held := t.held + 1).held;
    }
  }

  lemma AcquiringKeepsExclusive(s: LockState, i: nat)
    requires Exclusive(s) && i in s && s[i].held < |Wants(s[i].program)|
    requires forall j :: j in s && j != i ==> !Holds(s[j], Wants(s[i].program)[s[i].held])
    ensures Exclusive(s[i := s[i].(held := s[i].held + 1)])
  {
    var t := s[i := s[i].(held := s[i].held + 1)];
    forall j, k, r | j in t && k in t && Holds(t[j], r) && Holds(t[k], r) ensures j == k {
      HoldsOneMore(s[i], r);
    }
  }

  lemma {:induction false} ExecIsExclusive(es: seq<Event>, engines: nat)
    ensures Exclusive(Exec(es, engines))
  {
    if es != [] {
      var s, e := Exec(es[..|es| - 1], engines), es[|es| - 1];
      ExecIsExclusive(es[..|es| - 1], engines);
      NextKeepsExclusive(s, e, engines);
    }
  }

  lemma NextKeepsExclusive(s: LockState, e: Event, engines: nat)
    requires Exclusive(s)
    ensures Exclusive(Next(s, e, engines))
  {
    match e
    case BeginTx(_, _) =>
    case Acquire(i) =>
      if Next(s, e, engines) != s {
        AcquiringKeepsExclusive(s, i);
      }
    case End(_) =>
  }

  /** Nobody waits for a holding: whoever reaches one has its owner's wallet, which its holder would need. */
  lemma HoldingsAreFree(s: LockState, a: nat, b: nat)
    requires AllWellFormed(s) && Exclusive(s) && WaitsFor(s, a, b)
    ensures !Wants(s[a].program)[s[a].held].HoldingRow?
  {
    var row := Wants(s[a].program)[s[a].held];
    if row.HoldingRow? {
      HoldsWalletToo(s[a].program, s[a].held, row);
      var k :| 0 <= k < s[b].held && k < |Wants(s[b].program)| && Wants(s[b].program)[k] == row;
      HoldsWalletToo(s[b].program, k, row);
      assert Holds(s[a], WalletRow(row.user)) && Holds(s[b], WalletRow(row.user));
      assert a == b;
      assert s[a].held != k;
      NoRowTwice(s[a].program, k, s[a].held);
    }
  }

  lemma NoRowTwice(p: Program, j: nat, k: nat)
    requires WellFormed(p) && j < k < |Wants(p)|
    ensures Wants(p)[j] != Wants(p)[k]
  {
  }

  /** The wallet of a holding's owner comes earlier in the same trade. */
  lemma HoldsWalletToo(p: Program, k: nat, row: Row)
    requires k < |Wants(p)| && Wants(p)[k] == row && row.HoldingRow?
    ensures exists j :: 0 <= j < k && Wants(p)[j] == WalletRow(row.user)
  {
    if k == 4 {
      assert Wants(p)[2] == WalletRow(row.user);
    } else {
      assert Wants(p)[3] == WalletRow(row.user);
    }
  }

  // ----- What is protected -----

  /** The rows that a transaction writes. */
  function Writes(p: Program): set<Row> {
    match p
    case Trade(buy, sell, buyer, seller, asset) =>
      {OrderRow(buy), OrderRow(sell), WalletRow(buyer), WalletRow(seller), HoldingRow(buyer, asset), HoldingRow(seller, asset)}
    case CancelOrder(order) => {OrderRow(order)}
    case PostToWallet(user) => {WalletRow(user)}
  }

  /** It locks exactly those, each once. */
  lemma LocksWhatItWrites(p: Program, row: Row)
    requires WellFormed(p)
    ensures row in Writes(p) <==> row in Wants(p)
    ensures |Wants(p)| == if p.Trade? then 6 else 1
  {
    if p.Trade? {
      var w := Wants(p);
      assert w[0] == OrderRow(if p.buy <= p.sell then p.buy else p.sell);
      assert w[1] == OrderRow(if p.buy <= p.sell then p.sell else p.buy);
      assert w[2..] == [WalletRow(p.buyer), WalletRow(p.seller), HoldingRow(p.buyer, p.asset), HoldingRow(p.seller, p.asset)];
      assert w == [w[0], w[1]] + w[2..];
    }
  }

  /** Two transactions that have all their locks never write the same row. */
  lemma WritersExclude(es: seq<Event>, engines: nat, i: nat, j: nat, row: Row)
    requires var s := Exec(es, engines);
      && i in s && j in s && i != j
      && s[i].held == |Wants(s[i].program)| && s[j].held == |Wants(s[j].program)|
    ensures !(row in Writes(Exec(es, engines)[i].program) && row in Writes(Exec(es, engines)[j].program))
  {
    var s := Exec(es, engines);
    ExecIsWellFormed(es, engines);
    ExecIsExclusive(es, engines);
    LocksWhatItWrites(s[i].program, row);
    LocksWhatItWrites(s[j].program, row);
    if row in Wants(s[i].program) && row in Wants(s[j].program) {
      assert Holds(s[i], row) && Holds(s[j], row);
    }
  }

  // ----- Cycles -----

  /** A walk along the wait-for relation that comes back to where it started. */
  predicate IsCycle(s: LockState, p: seq<nat>) {
    && 2 <= |p| && p[0] == p[|p| - 1]
    && forall k :: 0 <= k < |p| - 1 ==> WaitsFor(s, p[k], p[k + 1])
  }

  predicate IsBlocked(s: LockState, a: nat) {
    a in s && s[a].held < |Wants(s[a].program)|
  }

  /** The row that a blocked transaction waits for. */
  function Awaited(s: LockState, a: nat): Row
    requires IsBlocked(s, a)
  {
    Wants(s[a].program)[s[a].held]
  }

  lemma CycleIsBlocked(s: LockState, p: seq<nat>, k: nat)
    requires IsCycle(s, p) && k < |p|
    ensures IsBlocked(s, p[k])
  {
    assert k < |p| - 1 ==> WaitsFor(s, p[k], p[k + 1]);
    assert WaitsFor(s, p[0], p[1]);
  }

  /** Orders before wallets, each by number. */
  predicate Below(a: Row, b: Row) {
    match (a, b)
    case (OrderRow(i), OrderRow(j)) => i < j
    case (OrderRow(_), WalletRow(_)) => true
    case (WalletRow(u), WalletRow(v)) => u < v
    case (WalletRow(_), OrderRow(_)) => false
    case (_, HoldingRow(_, _)) => false
    case (HoldingRow(_, _), _) => false
  }

  lemma {:induction false} ClimbingIsStrict(rows: seq<Row>)
    requires 2 <= |rows| && forall k :: 0 <= k < |rows| - 1 ==> Below(rows[k], rows[k + 1])
    ensures Below(rows[0], rows[|rows| - 1])
  {
    if |rows| > 2 {
      ClimbingIsStrict(rows[..|rows| - 1]);
      assert Below(rows[|rows| - 2], rows[|rows| - 1]);
    }
  }

  /** Does the transaction in between take the two rows of adjoining edges in ascending order? */
  predicate EdgeClimbs(s: LockState, a: nat, b: nat) {
    IsBlocked(s, a) && IsBlocked(s, b) && Below(Awaited(s, a), Awaited(s, b))
  }

  /** Awaited rows cannot climb all the way round. */
  lemma CyclesCannotClimb(s: LockState, p: seq<nat>)
    requires IsCycle(s, p)
    ensures exists k :: 0 <= k < |p| - 1 && !EdgeClimbs(s, p[k], p[k + 1])
  {
    if forall k :: 0 <= k < |p| - 1 ==> EdgeClimbs(s, p[k], p[k + 1]) {
      forall k | 0 <= k < |p| ensures IsBlocked(s, p[k]) {
        CycleIsBlocked(s, p, k);
      }
      var rows := seq(|p|, k requires 0 <= k < |p| => Awaited(s, p[k]));
      forall k | 0 <= k < |rows| - 1 ensures Below(rows[k], rows[k + 1]) {
        assert EdgeClimbs(s, p[k], p[k + 1]);
      }
      ClimbingIsStrict(rows);
    }
  }

  lemma Ascends(p: Program, j: nat, k: nat)
    requires WellFormed(p) && j < k < |Wants(p)|
    ensures p.Trade? && Wants(p)[j] != Wants(p)[k]
    ensures !Wants(p)[k].HoldingRow? && (Wants(p)[k].OrderRow? || p.buyer < p.seller) ==> Below(Wants(p)[j], Wants(p)[k])
  {
  }

  lemma HeldBeforeAwaited(s: LockState, a: nat, b: nat)
    requires AllWellFormed(s) && WaitsFor(s, a, b) && IsBlocked(s, b)
    ensures s[b].program.Trade? && a != b
    ensures !Awaited(s, b).HoldingRow? && (Awaited(s, b).OrderRow? || s[b].program.buyer < s[b].program.seller)
      ==> EdgeClimbs(s, a, b)
  {
    var j :| 0 <= j < s[b].held && j < |Wants(s[b].program)| && Wants(s[b].program)[j] == Awaited(s, a);
    Ascends(s[b].program, j, s[b].held);
  }

  lemma CycleAvoidsHoldings(es: seq<Event>, engines: nat, p: seq<nat>, k: nat)
    requires IsCycle(Exec(es, engines), p) && k < |p|
    ensures IsBlocked(Exec(es, engines), p[k]) && !Awaited(Exec(es, engines), p[k]).HoldingRow?
  {
    var s := Exec(es, engines);
    ExecIsWellFormed(es, engines);
    ExecIsExclusive(es, engines);
    CycleIsBlocked(s, p, k);
    var next := if k < |p| - 1 then p[k + 1] else p[1];
    assert WaitsFor(s, p[0], p[1]) && (k < |p| - 1 ==> WaitsFor(s, p[k], p[k + 1]));
    HoldingsAreFree(s, p[k], next);
  }

  // ----- Results -----

  /** A cycle always passes through a wallet: order rows alone cannot deadlock, however many trades run. */
  lemma OrderRowsNeverDeadlock(es: seq<Event>, engines: nat, p: seq<nat>)
    requires IsCycle(Exec(es, engines), p)
    ensures exists k :: 0 <= k < |p| && IsBlocked(Exec(es, engines), p[k]) && Awaited(Exec(es, engines), p[k]).WalletRow?
  {
    var s := Exec(es, engines);
    ExecIsWellFormed(es, engines);
    CyclesCannotClimb(s, p);
    var k :| 0 <= k < |p| - 1 && !EdgeClimbs(s, p[k], p[k + 1]);
    CycleIsBlocked(s, p, k + 1);
    CycleAvoidsHoldings(es, engines, p, k + 1);
    HeldBeforeAwaited(s, p[k], p[k + 1]);
  }

  /** If the buyer's wallet always came first in number too, no number of engines could deadlock. */
  lemma OrderedWalletsNeverDeadlock(es: seq<Event>, engines: nat, p: seq<nat>)
    requires forall i :: i in Exec(es, engines) && Exec(es, engines)[i].program.Trade? ==>
      Exec(es, engines)[i].program.buyer < Exec(es, engines)[i].program.seller
    ensures !IsCycle(Exec(es, engines), p)
  {
    var s := Exec(es, engines);
    ExecIsWellFormed(es, engines);
    if IsCycle(s, p) {
      CyclesCannotClimb(s, p);
      var k :| 0 <= k < |p| - 1 && !EdgeClimbs(s, p[k], p[k + 1]);
      CycleIsBlocked(s, p, k + 1);
      CycleAvoidsHoldings(es, engines, p, k + 1);
      HeldBeforeAwaited(s, p[k], p[k + 1]);
      assert false;
    }
  }

  function Trades(s: LockState): set<nat> {
    set i | i in s && s[i].program.Trade?
  }

  lemma {:induction false} AtMostEngines(es: seq<Event>, engines: nat)
    ensures |Trades(Exec(es, engines))| <= engines
  {
    if es != [] {
      var s, e := Exec(es[..|es| - 1], engines), es[|es| - 1];
      AtMostEngines(es[..|es| - 1], engines);
      var t := Next(s, e, engines);
      if e.BeginTx? && t != s && e.program.Trade? {
        assert Trades(t) == Trades(s) + {e.id};
      } else if e.End? {
        assert Trades(t) == Trades(s) - {e.id};
      } else {
        assert Trades(t) == Trades(s);
      }
    }
  }

  /** One engine never deadlocks, with any number of cancellations, deposits and withdrawals around it. */
  lemma OneEngineNeverDeadlocks(es: seq<Event>, p: seq<nat>)
    ensures !IsCycle(Exec(es, 1), p)
  {
    var s := Exec(es, 1);
    ExecIsWellFormed(es, 1);
    AtMostEngines(es, 1);
    if IsCycle(s, p) {
      CycleIsBlocked(s, p, 1);
      HeldBeforeAwaited(s, p[0], p[1]);
      CycleIsBlocked(s, p, |p| - 2);
      CycleIsBlocked(s, p, |p| - 1);
      HeldBeforeAwaited(s, p[|p| - 2], p[|p| - 1]);
      var a, b := p[0], p[1];
      assert {a, b} <= Trades(s) && a != b;
      assert |{a, b}| == 2;
      SubsetIsSmaller({a, b}, Trades(s));
      assert false;
    }
  }

  lemma SubsetIsSmaller(a: set<nat>, b: set<nat>)
    requires a <= b
    ensures |a| <= |b|
  {
    assert b == a + (b - a);
  }

  const ONE := Trade(0, 1, 7, 8, 9)
  const TWO := Trade(2, 3, 8, 7, 9)

  function Pair(a: nat, b: nat): LockState {
    map[1 := Txn(ONE, a), 2 := Txn(TWO, b)]
  }

  /** Up to the buyers' wallets, the two trades do not get in each other's way. */
  lemma NoContention(a: nat, b: nat)
    requires a <= 3 && b <= 3
    ensures a < 3 ==> Next(Pair(a, b), Acquire(1), 2) == Pair(a + 1, b)
    ensures b < 3 ==> Next(Pair(a, b), Acquire(2), 2) == Pair(a, b + 1)
  {
    assert Wants(ONE) == [OrderRow(0), OrderRow(1), WalletRow(7), WalletRow(8), HoldingRow(7, 9), HoldingRow(8, 9)];
    assert Wants(TWO) == [OrderRow(2), OrderRow(3), WalletRow(8), WalletRow(7), HoldingRow(8, 9), HoldingRow(7, 9)];
  }

  function Begins(): seq<Event> {
    [BeginTx(1, ONE), BeginTx(2, TWO)]
  }

  /** Let the first trade take `a` locks and then the second one `b`. */
  function Schedule(a: nat, b: nat): seq<Event> {
    if b > 0 then Schedule(a, b - 1) + [Acquire(2)]
    else if a > 0 then Schedule(a - 1, 0) + [Acquire(1)]
    else Begins()
  }

  lemma BothBegin()
    ensures Exec(Begins(), 2) == Pair(0, 0)
  {
    var es := Begins();
    assert es[..1] == [BeginTx(1, ONE)] && es[..1][..0] == [];
    assert Exec(es[..1], 2) == map[1 := Txn(ONE, 0)];
    assert Trades(map[1 := Txn(ONE, 0)]) == {1};
  }

  lemma {:induction false} ReachPair(a: nat, b: nat)
    requires a <= 3 && b <= 3
    ensures Exec(Schedule(a, b), 2) == Pair(a, b)
    decreases b, a
  {
    var es := Schedule(a, b);
    if b > 0 {
      ReachPair(a, b - 1);
      NoContention(a, b - 1);
      assert es[..|es| - 1] == Schedule(a, b - 1);
    } else if a > 0 {
      ReachPair(a - 1, 0);
      NoContention(a - 1, 0);
      assert es[..|es| - 1] == Schedule(a - 1, 0);
    } else {
      BothBegin();
    }
  }

  /** Two engines can deadlock: each has its buyer's wallet and waits for the other's. */
  lemma TwoEnginesCanDeadlock()
    ensures IsCycle(Exec(Schedule(3, 3), 2), [1, 2, 1])
  {
    var s := Pair(3, 3);
    ReachPair(3, 3);
    assert Wants(ONE)[2] == WalletRow(7) && Wants(TWO)[2] == WalletRow(8);
    assert WaitsFor(s, 1, 2) && WaitsFor(s, 2, 1);
  }
}
