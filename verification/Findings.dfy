/**
 What the code's own arithmetic does to balances, statuses and audits: where it is as good
 as exact, and inputs at which it is not.
 */
module Findings {
  import opened Money
  import opened Arithmetic
  import opened Tables
  import opened Orders
  import opened Ledger
  import opened Matching
  import opened Exchange
  import opened Statuses
  import opened Schedule
  import opened Loop
  import opened Stalling
  import opened Audit
  import opened Binary
  import opened BinaryMoney
  import opened BigFloat

  // ----- Deposits and withdrawals -----

  /**
   Below 2^35 a deposit of any amount leaves at most one unit between balance and ledger row,
   and none if the amount is clear of a half unit.
   */
  lemma DepositsDriftLittle(balance: int, amount: real)
    requires 0 <= balance && 0.0 < amount && balance as real + amount < SMALL
    ensures var drift := Code().plus(Narrow, balance, amount) - balance - Nearest(amount);
      -1 <= drift <= 1 && (IsClear(amount) ==> drift == 0)
  {
    DepositDrift(Code(), balance, amount);
  }

  lemma WithdrawalsDriftLittle(balance: int, amount: real)
    requires 0 <= balance && 0.0 < amount && balance as real < SMALL && Code().covers(Narrow, balance, amount)
    ensures var drift := Code().minus(Narrow, balance, amount) - balance + Nearest(amount);
      -1 <= drift <= 1 && (IsClear(amount) ==> drift == 0)
  {
    WithdrawalDrift(Code(), balance, amount);
  }

  /** What the service makes of an amount typed with at most eight decimals. */
  ghost function Typed(units: int): real {
    Parsed(SERVICE_BITS, units) * UNITS_PER_ONE
  }

  lemma WholeUnits(balance: int, units: int, b: real, a: real, sum: real)
    requires 0 <= balance && 0 <= units && (balance + units) as real < SMALL
    requires Rounds(SERVICE_BITS, Value(balance), b) && Rounds(SERVICE_BITS, Value(units), a) && Rounds(SERVICE_BITS, b + a, sum)
    ensures Format(sum) == balance + units && Format(a) == units
    ensures -0.2 <= a * UNITS_PER_ONE - units as real <= 0.2
  {
    SmallPower(balance + units);
    DepositIsExact(balance, units, b, a, sum);
    SmallPower(units);
    SmallParsed(Value(units), a);
  }

  /** Such an amount never drifts: row and balance are exact. */
  lemma WholeUnitsNeverDrift(balance: int, units: int)
    requires 0 <= balance && 0 <= units && (balance + units) as real < SMALL
    ensures Plus(SERVICE_BITS, balance, Typed(units)) == balance + units && Nearest(Typed(units)) == units
    ensures IsClear(Typed(units))
  {
    var b, a := Parsed(SERVICE_BITS, balance), Parsed(SERVICE_BITS, units);
    var sum := Round(SERVICE_BITS, b + a);
    WholeUnits(balance, units, b, a, sum);
    ScaledBack(a);
    assert Plus(SERVICE_BITS, balance, Typed(units)) == Format(sum);
  }

  lemma ScaledBack(a: real)
    ensures a * UNITS_PER_ONE / UNITS_PER_ONE == a
  {
  }

  // ----- Amounts of at most eight decimals -----

  lemma WholeDifference(balance: int, units: int, b: real, a: real, rest: real)
    requires 0 <= balance && 0 <= units && balance as real < SMALL && units as real < SMALL
    requires Rounds(SERVICE_BITS, Value(balance), b) && Rounds(SERVICE_BITS, Value(units), a) && Rounds(SERVICE_BITS, b - a, rest)
    ensures a <= b <==> units <= balance
    ensures units <= balance ==> Format(rest) == balance - units
    ensures Format(a) == units && -0.2 <= a * UNITS_PER_ONE - units as real <= 0.2
    ensures 0.0 < a <==> 0 < units
  {
    SmallPower(balance);
    SmallPower(units);
    WithdrawalIsExact(balance, units, b, a, rest);
    WholeUnits(0, units, 0.0, a, Round(SERVICE_BITS, a));
    if units > 0 {
      SmallParsed(Value(units), a);
    }
  }

  /** The 64-bit comparison decides such amounts exactly, and what is left is exact. */
  lemma WholeUnitsAreCovered(m: Maths, balance: int, units: int)
    requires m == Code() && 0 <= balance && 0 <= units && balance as real < SMALL && units as real < SMALL
    ensures m.covers(Narrow, balance, Typed(units)) <==> units <= balance
    ensures units <= balance ==> m.minus(Narrow, balance, Typed(units)) == balance - units
    ensures Nearest(Typed(units)) == units && (0.0 < Typed(units) <==> 0 < units)
  {
    var b, a := Parsed(SERVICE_BITS, balance), Parsed(SERVICE_BITS, units);
    var rest := Round(SERVICE_BITS, b - a);
    WholeDifference(balance, units, b, a, rest);
    ScaledBack(a);
    assert Covers(SERVICE_BITS, balance, Typed(units)) <==> a <= b;
    assert Minus(SERVICE_BITS, balance, Typed(units)) == Format(rest);
  }

  /**
   A withdrawal of such an amount is possible exactly if the wallet is there and holds as much, and
   leaves exactly the difference.
   */
  lemma TypedWithdrawal(m: Maths, t: Tables, user: int, units: int, text: string)
    requires m == Code() && WalletsOk(t.wallets, t.ledger) && 0 <= units && units as real < SMALL
    requires user in t.wallets ==> t.wallets[user].balance as real < SMALL
    ensures var c := Transfer(user, Typed(units), Withdrawal, text);
      && (Enabled(m, t, c) <==> user in t.wallets && 0 < units <= t.wallets[user].balance)
      && (Enabled(m, t, c) ==>
            Step(m, t, c) == t.(wallets := t.wallets[user := Wallet(t.wallets[user].balance - units, t.wallets[user].version + 1)],
                                ledger := t.ledger + [Entry(user, units, Withdrawal, Text(text))]))
  {
    if user in t.wallets {
      WholeUnitsAreCovered(m, t.wallets[user].balance, units);
    }
  }

  /** A deposit of such an amount is possible exactly if the wallet is there, and adds exactly that. */
  lemma TypedDeposit(m: Maths, t: Tables, user: int, units: int, text: string)
    requires m == Code() && WalletsOk(t.wallets, t.ledger) && 0 <= units
    requires units as real < SMALL && (user in t.wallets ==> (t.wallets[user].balance + units) as real < SMALL)
    ensures var c := Transfer(user, Typed(units), Deposit, text);
      && (Enabled(m, t, c) <==> user in t.wallets && 0 < units)
      && (Enabled(m, t, c) ==>
            Step(m, t, c) == t.(wallets := t.wallets[user := Wallet(t.wallets[user].balance + units, t.wallets[user].version + 1)],
                                ledger := t.ledger + [Entry(user, units, Deposit, Text(text))]))
  {
    WholeUnitsAreCovered(m, 0, units);
    if user in t.wallets {
      WholeUnitsNeverDrift(t.wallets[user].balance, units);
    }
  }

  lemma DyadicValues(balance: int, m: int, x: real)
    requires 0 <= balance && Fits(balance) && balance % 390_625 == 0 && 0 <= m < 100_000_000_000_000
    requires x == (2 * (balance / 390_625) + m) as real / 512.0
    ensures Value(balance) + m as real * 195312.5 / UNITS_PER_ONE == x < Pow2(41)
    ensures x * UNITS_PER_ONE == balance as real + m as real * 195312.5
  {
    Literals();
    Pow2Doubles(40);
    assert Value(balance) == (2 * (balance / 390_625)) as real / 512.0;
  }

  lemma DyadicRounds(balance: int, m: int, b: real, v: real, sum: real)
    requires 0 <= balance && Fits(balance) && balance % 390_625 == 0 && 0 <= m < 100_000_000_000_000
    requires v == m as real * 195312.5 / UNITS_PER_ONE
    requires Rounds(SERVICE_BITS, Value(balance), b) && Rounds(SERVICE_BITS, b + v, sum)
    ensures Format(sum) == Nearest(balance as real + m as real * 195312.5)
  {
    var n := 2 * (balance / 390_625) + m;
    var x := n as real / 512.0;
    DyadicValues(balance, m, x);
    ParsesExactly(SERVICE_BITS, balance, b);
    DyadicIsExact(SERVICE_BITS, n, sum);
  }

  /** On multiples of 1/256, amounts of any multiple of 1/512 are added exactly. */
  lemma DyadicSum(balance: int, m: int)
    requires 0 <= balance && Fits(balance) && balance % 390_625 == 0 && 0 <= m < 100_000_000_000_000
    ensures Plus(SERVICE_BITS, balance, m as real * 195312.5) == Nearest(balance as real + m as real * 195312.5)
  {
    var b, v := Parsed(SERVICE_BITS, balance), m as real * 195312.5 / UNITS_PER_ONE;
    DyadicRounds(balance, m, b, v, Round(SERVICE_BITS, b + v));
  }

  /** There, a deposit drifts if and only if it is a half-unit tie onto an odd balance. */
  lemma DyadicDriftExactly(balance: int, m: int)
    requires 0 <= balance && Fits(balance) && balance % 390_625 == 0 && 0 <= m < 100_000_000_000_000
    ensures var amount := m as real * 195312.5;
      Plus(SERVICE_BITS, balance, amount) - balance - Nearest(amount)
      == if !IsTie(amount) || balance % 2 == 0 then 0 else if amount.Floor % 2 == 0 then 1 else -1
  {
    DyadicSum(balance, m);
    DriftExactly(balance, m as real * 195312.5);
  }

  /** A drift without a tie: 0.45 units onto 12000000000.00000013 move the balance by one and write a row of zero. */
  lemma DriftWithoutTie()
    ensures var amount := Round(SERVICE_BITS, 0.0000000045) * UNITS_PER_ONE;
      && Nearest(amount) == 0 && !IsTie(amount)
      && Plus(SERVICE_BITS, 1_200_000_000_000_000_013, amount) == 1_200_000_000_000_000_014
  {
    MorePowers();
    var f30, f91 := 1.0 / 1073741824.0, 1.0 / 2475880078570760549798248448.0;
    var b, v := 12884901888000000140.0 * f30, 11141460353568422474.0 * f91;
    RoundsTo(64, Value(1_200_000_000_000_000_013), 34, 12884901888000000140, Pow2(30), f30);
    RoundIs(64, Value(1_200_000_000_000_000_013), b);
    RoundsTo(64, 0.0000000045, -27, 11141460353568422474, Pow2(91), f91);
    RoundIs(64, 0.0000000045, v);
    var sum := 12884901888000000145.0 * f30;
    RoundsTo(64, b + v, 34, 12884901888000000145, Pow2(30), f30);
    RoundIs(64, b + v, sum);
    NearestIsClosest(v * UNITS_PER_ONE, 0);
    NearestIsClosest(sum * UNITS_PER_ONE, 1_200_000_000_000_000_014);
  }

  lemma MorePowers()
    ensures Pow2(30) == 1073741824.0 && Pow2(-30) == 1.0 / 1073741824.0 && Pow2(33) == 8589934592.0 && Pow2(34) == 17179869184.0
    ensures Pow2(91) == 2475880078570760549798248448.0 && Pow2(-91) == 1.0 / 2475880078570760549798248448.0
    ensures Pow2(-28) == 1.0 / 268435456.0 && Pow2(-27) == 1.0 / 134217728.0
  {
    Literals();
    Powers64();
    Pow2Inverse(30);
    assert Pow2(3) == 8.0;
    Pow2Adds(30, 3);
    Pow2Doubles(33);
    Pow2Doubles(90);
    Pow2Inverse(91);
  }

  // ----- An alarm about a healthy wallet -----

  function DepositOf(user: int, amount: real): Commit {
    Transfer(user, amount, Deposit, "")
  }

  /** A deposit that commits, seen from the wallet it goes to. */
  lemma DepositMoves(m: Maths, t: Tables, user: int, amount: real, stored: int, row: int)
    requires user in t.wallets && 0.0 < amount && Fits(row) && IsBalance(stored)
    requires m.plus(Narrow, t.wallets[user].balance, amount) == stored && Nearest(amount) == row
    ensures var u := Step(m, t, DepositOf(user, amount));
      user in u.wallets && u.wallets[user].balance == stored && Signed(u.ledger, user) == Signed(t.ledger, user) + row
  {
    assert Enabled(m, t, DepositOf(user, amount));
    AppendedSigned(t.ledger, Entry(user, row, Deposit, Text("")), user);
  }

  /** A run that leaves a wallet with this balance and rows of this sum. */
  predicate Reaches(m: Maths, seed: Seeds, user: int, cs: seq<Commit>, balance: int, rows: int) {
    var t := Run(m, seed, cs);
    user in t.wallets && t.wallets[user].balance == balance && Signed(t.ledger, user) == rows
  }

  lemma Opens(m: Maths, seed: Seeds, user: int)
    ensures Reaches(m, seed, user, [OpenWallet(user)], 0, 0)
  {
    StepsAppend(m, Seed(seed), [], OpenWallet(user));
    assert [] + [OpenWallet(user)] == [OpenWallet(user)];
  }

  lemma DepositReaches(m: Maths, seed: Seeds, user: int, cs: seq<Commit>, balance: int, rows: int, amount: real, stored: int, row: int)
    requires Reaches(m, seed, user, cs, balance, rows) && 0.0 < amount && Fits(row) && IsBalance(stored)
    requires m.plus(Narrow, balance, amount) == stored && Nearest(amount) == row
    ensures Reaches(m, seed, user, cs + [DepositOf(user, amount)], stored, rows + row)
  {
    StepsAppend(m, Seed(seed), cs, DepositOf(user, amount));
    DepositMoves(m, Run(m, seed, cs), user, amount, stored, row);
  }

  /** Two laws of the code's sums: multiples of 1/512 are added exactly, and so are whole units. */
  predicate DyadicLaw(m: Maths, balance: int, n: int) {
    0 <= balance && Fits(balance) && balance % 390_625 == 0 && 0 <= n < 100_000_000_000_000 ==>
      m.plus(Narrow, balance, n as real * 195312.5) == Nearest(balance as real + n as real * 195312.5)
  }

  ghost predicate WholeLaw(m: Maths, balance: int, units: int) {
    0 <= balance && 0 <= units && (balance + units) as real < SMALL ==>
      m.plus(Narrow, balance, Typed(units)) == balance + units && Nearest(Typed(units)) == units
  }

  ghost predicate ObeysLaws(m: Maths) {
    (forall balance, n :: DyadicLaw(m, balance, n)) && (forall balance, units :: WholeLaw(m, balance, units))
  }

  lemma CodeObeysLaws()
    ensures ObeysLaws(Code())
  {
    forall balance, n ensures DyadicLaw(Code(), balance, n) {
      if 0 <= balance && Fits(balance) && balance % 390_625 == 0 && 0 <= n < 100_000_000_000_000 {
        DyadicSum(balance, n);
      }
    }
    forall balance, units ensures WholeLaw(Code(), balance, units) {
      if 0 <= balance && 0 <= units && (balance + units) as real < SMALL {
        WholeUnitsNeverDrift(balance, units);
      }
    }
  }

  /** A deposit of 1/512 onto an odd multiple of 1/256: the tie moves the balance by one unit more than the row. */
  lemma TieDeposit(m: Maths, seed: Seeds, user: int, cs: seq<Commit>, balance: int, rows: int)
    requires ObeysLaws(m) && Reaches(m, seed, user, cs, balance, rows)
    requires 0 < balance < 10_000_000 && balance % 390_625 == 0 && balance % 2 == 1
    ensures Reaches(m, seed, user, cs + [DepositOf(user, 195312.5)], balance + 195_313, rows + 195_312)
  {
    assert DyadicLaw(m, balance, 1);
    NearestOfTie(balance + 195_312);
    NearestOfTie(195_312);
    assert balance as real + 195312.5 == (balance + 195_312) as real + 0.5;
    DepositReaches(m, seed, user, cs, balance, rows, 195312.5, balance + 195_313, 195_312);
  }

  lemma WholeDeposit(m: Maths, seed: Seeds, user: int, cs: seq<Commit>, balance: int, rows: int, units: int)
    requires ObeysLaws(m) && Reaches(m, seed, user, cs, balance, rows)
    requires 0 <= balance < 10_000_000 && 0 < units < 10_000_000
    ensures Reaches(m, seed, user, cs + [DepositOf(user, Typed(units))], balance + units, rows + units)
  {
    assert WholeLaw(m, balance, units);
    var amount := Typed(units);
    assert 0.0 < amount;
    DepositReaches(m, seed, user, cs, balance, rows, amount, balance + units, units);
  }

  function TwoDeposits(user: int, first: real): seq<Commit> {
    [OpenWallet(user)] + [DepositOf(user, first)] + [DepositOf(user, 195312.5)]
  }

  function FourDeposits(user: int, first: real, third: real): seq<Commit> {
    TwoDeposits(user, first) + [DepositOf(user, third)] + [DepositOf(user, 195312.5)]
  }

  lemma TwoReach(m: Maths, seed: Seeds, user: int, units: int)
    requires ObeysLaws(m) && 0 < units < 10_000_000 && units % 390_625 == 0 && units % 2 == 1
    ensures Reaches(m, seed, user, TwoDeposits(user, Typed(units)), units + 195_313, units + 195_312)
  {
    Opens(m, seed, user);
    WholeDeposit(m, seed, user, [OpenWallet(user)], 0, 0, units);
    TieDeposit(m, seed, user, [OpenWallet(user)] + [DepositOf(user, Typed(units))], units, units);
  }

  lemma TwoMoreReach(m: Maths, seed: Seeds, user: int, cs: seq<Commit>, balance: int, rows: int, units: int)
    requires ObeysLaws(m) && Reaches(m, seed, user, cs, balance, rows) && 0 <= balance && 0 < units
    requires balance + units < 10_000_000 && (balance + units) % 390_625 == 0 && (balance + units) % 2 == 1
    ensures Reaches(m, seed, user, cs + [DepositOf(user, Typed(units))] + [DepositOf(user, 195312.5)],
                    balance + units + 195_313, rows + units + 195_312)
  {
    WholeDeposit(m, seed, user, cs, balance, rows, units);
    TieDeposit(m, seed, user, cs + [DepositOf(user, Typed(units))], balance + units, rows + units);
  }

  /** Two ties, on balances that a first and a third deposit have made odd multiples of 1/256. */
  lemma AlarmFollows(m: Maths, seed: Seeds, user: int, first: int, third: int)
    requires ObeysLaws(m) && 0 < first < 1_000_000 && first % 390_625 == 0 && first % 2 == 1
    requires 0 < third < 1_000_000 && (first + 195_313 + third) % 390_625 == 0 && (first + 195_313 + third) % 2 == 1
    ensures Mismatch(m, Run(m, seed, FourDeposits(user, Typed(first), Typed(third))), user)
  {
    TwoReach(m, seed, user, first);
    TwoMoreReach(m, seed, user, TwoDeposits(user, Typed(first)), first + 195_313, first + 195_312, third);
    var rows := first + 195_312 + third + 195_312;
    assert m.alarm(rows + 2, rows);
  }

  /**
   Two ties on odd multiples of 1/256 leave a wallet two units above its rows, and the nightly job
   reports it.
   */
  lemma TwoTiesRaiseAlarm(seed: Seeds, user: int, first: int, third: int)
    requires 0 < first < 1_000_000 && first % 390_625 == 0 && first % 2 == 1
    requires 0 < third < 1_000_000 && (first + 195_313 + third) % 390_625 == 0 && (first + 195_313 + third) % 2 == 1
    ensures Mismatch(Code(), Run(Code(), seed, FourDeposits(user, Typed(first), Typed(third))), user)
  {
    CodeObeysLaws();
    AlarmFollows(Code(), seed, user, first, third);
  }

  /** One such wallet: deposits of 0.00390625, 0.001953125, 0.00585937 and 0.001953125. */
  lemma FourDepositsRaiseAlarm(seed: Seeds, user: int) returns (first: int, third: int)
    ensures first == 390_625 && third == 585_937
    ensures Mismatch(Code(), Run(Code(), seed, FourDeposits(user, Typed(first), Typed(third))), user)
  {
    first, third := 390_625, 585_937;
    TwoTiesRaiseAlarm(seed, user, first, third);
  }

  // ----- Statuses -----

  /** 0.1 and 2.1 do not make 2.2. */
  lemma LastFillIsMissed()
    ensures !Completes(10_000_000, 210_000_000, 220_000_000)
  {
    var f, q, t, sum := StatusCanMissTheLastFill();
    ParsedIs(ENGINE_BITS, 10_000_000, f);
    ParsedIs(ENGINE_BITS, 210_000_000, q);
    ParsedIs(ENGINE_BITS, 220_000_000, t);
    RoundIs(ENGINE_BITS, f + q, sum);
    CompletesIs(10_000_000, 210_000_000, 220_000_000, f, q, t, sum);
  }

  /** So an order for 2.2 with 0.1 filled stalls every order that reaches it and wants more than 2.1. */
  lemma MissedFillStalls(m: Maths, orders: seq<Order>, id: nat, queue: seq<nat>)
    requires m == Code()
    requires CanTrade(orders, id, queue) && 210_000_000 < orders[id].Remaining()
    requires orders[queue[0]].quantity == 220_000_000 && orders[queue[0]].filled == 10_000_000
    ensures Stalls(m, orders, id)
  {
    LastFillIsMissed();
    QueueIsQueue(orders, id);
    AvailableFirst(orders, queue, 0);
    assert Blocks(m, orders[queue[0]]) && Available(orders, queue[..0 + 1]) < orders[id].Remaining();
  }

  /** And the code gets there: three orders, one trade, and the third order stalls. */
  lemma CodeStalls(m: Maths, scale: Scale)
    requires m == Code()
    ensures 2 < |Run(m, Stock(), Trading(scale)).orders| && Stalls(m, Run(m, Stock(), Trading(scale)).orders, 2)
  {
    LastFillIsMissed();
    TradingStalls(m, scale);
  }

  /** One fill later, the loop of that order never ends. */
  lemma CodeLoopsForEver(m: Maths, s: System, w: nat, scale: Scale)
    requires m == Code() && w in s.workers && s.workers[w] == Worker(2, Fetch)
    requires s.t == Step(m, Run(m, Stock(), Trading(scale)), Fill(2, 0, scale))
    ensures IsStuck(s, w) && forall n :: !Watched(m, s, w, scale).over(n)
  {
    LastFillIsMissed();
    TradingTrades(m, scale);
    LastFillSticks(m, s, w, Run(m, Stock(), Trading(scale)), scale);
  }

  // ----- Quantities on which statuses are exact -----

  lemma CompletesOnGrid(filled: int, fill: int)
    requires 0 <= filled && 0 <= fill && Fits(filled + fill) && filled % 390_625 == 0 && fill % 390_625 == 0
    ensures Completes(filled, fill, filled + fill)
  {
    var f, q := Parsed(ENGINE_BITS, filled), Parsed(ENGINE_BITS, fill);
    MultiplesAdd(filled, fill);
    StatusIsExactOnDyadics(ENGINE_BITS, filled, fill, filled + fill, f, q, Parsed(ENGINE_BITS, filled + fill),
                           Round(ENGINE_BITS, f + q));
  }

  /** The code notices every last fill among multiples of 1/256. */
  lemma CodeNotices(m: Maths, step: GridStep)
    requires m == Code() && step == 390_625
    ensures NoticesOn(m, step)
  {
    forall filled, fill | 0 <= filled && 0 <= fill && Fits(filled + fill) && IsMultiple(filled, step) && IsMultiple(fill, step)
      ensures m.completes(filled, fill, filled + fill)
    {
      CompletesOnGrid(filled, fill);
    }
  }

  /**
   In every run of the code whose orders are for multiples of 1/256, whole numbers among them, an
   order is FILLED exactly when it is not cancelled and nothing remains, an open order has something
   remaining, and no `processOrder` stalls.
   */
  lemma CodeStatusesAreExact(m: Maths, step: GridStep, seed: Seeds, cs: seq<Commit>, id: nat)
    requires m == Code() && step == 390_625 && HoldingsOk(seed) && InsertsOnGrid(cs, step)
    requires id < |Run(m, seed, cs).orders|
    ensures var o := Run(m, seed, cs).orders[id];
      && (o.IsOpen() ==> 0 < o.Remaining())
      && (o.status == Filled <==> o.status != Cancelled && o.Remaining() == 0)
    ensures IsExactBook(m, Run(m, seed, cs).orders) && !Stalls(m, Run(m, seed, cs).orders, id)
  {
    CodeNotices(m, step);
    StatusesAreExact(m, step, seed, cs, id);
    RunsGiveExactBooks(m, step, seed, cs);
    RunKeepsInv(m, seed, cs);
    ExactBooksNeverStall(m, Run(m, seed, cs).orders, id);
  }

  // ----- Funds -----

  /** 0.9 is too little for 3 at 0.3. */
  lemma ExactFundsAreRefused()
    ensures !Covers(ENGINE_BITS, 90_000_000, CostWith(ENGINE_BITS, 30_000_000, 300_000_000))
  {
    var b, cost := ExactFundsCanSeemShort();
    RoundIs(ENGINE_BITS, Value(90_000_000), b);
    CostIs(ENGINE_BITS, 30_000_000, 300_000_000, cost);
  }

  /** Funds of exactly the cost, in the words of the engine's check: enough if the product of what was parsed is not too large. */
  lemma ExactFundsArePaid(balance: int, price: int, quantity: int)
    requires 0 <= balance && 0 <= price && 0 <= quantity && balance as real == Cost(price, quantity)
    ensures Times(Parsed(ENGINE_BITS, price), Parsed(ENGINE_BITS, quantity)) <= Value(balance) ==>
      Covers(ENGINE_BITS, balance, CostWith(ENGINE_BITS, price, quantity))
    ensures Fits(price) && Fits(quantity) && price % 390_625 == 0 && quantity % 390_625 == 0 ==>
      Covers(ENGINE_BITS, balance, CostWith(ENGINE_BITS, price, quantity))
  {
    var fp, fq, b := Parsed(ENGINE_BITS, price), Parsed(ENGINE_BITS, quantity), Parsed(ENGINE_BITS, balance);
    var cost := Round(ENGINE_BITS, Times(fp, fq));
    EqualFundsPass(balance, price, quantity, fp, fq, b, cost);
    if Fits(price) && Fits(quantity) && price % 390_625 == 0 && quantity % 390_625 == 0 {
      EqualFundsPassOnDyadics(balance, price, quantity, fp, fq, b, cost);
    }
  }

  // ----- Audits -----

  /** A single permitted unit of difference is reported: 1.00000001 against 1. */
  lemma OneUnitIsReported()
    ensures Alarm(100_000_001, 100_000_000)
  {
    var b, s, diff, limit := OneUnitCanRaiseAlarm();
    ParsedIs(SERVICE_BITS, 100_000_001, b);
    ParsedIs(SERVICE_BITS, 100_000_000, s);
    ParsedIs(SERVICE_BITS, 1, limit);
    RoundIs(SERVICE_BITS, b - s, diff);
    NonNegative(SERVICE_BITS, Value(1), limit);
    AlarmIs(100_000_001, 100_000_000, b, s, diff, limit);
  }

  /** Farther from a half unit than five roundings with 64 bits. */
  predicate IsFar(price: int, quantity: int) {
    5.0 * Times(Pow2(-64), Cost(price, quantity)) < FromHalf(Cost(price, quantity))
  }

  /** The settlement job looks for the amount that the engine posted, for every cost that far from a half unit. */
  lemma JobsAgreeFarFromHalf(price: int, quantity: int)
    requires 0 <= price && 0 <= quantity && IsFar(price, quantity)
    ensures Nearest(Code().cost(Narrow, price, quantity)) == Nearest(Code().cost(Wide, price, quantity))
         == Nearest(Cost(price, quantity))
  {
    var d, e := Pow2(-64), Pow2(-128);
    CostNonNegative(price, quantity);
    NarrowEpsilon(d);
    Pow2Positive(-128);
    Pow2Monotone(-128, -64);
    ComputesWith(SERVICE_BITS, price, quantity);
    ComputesWith(ENGINE_BITS, price, quantity);
    MulBounds(e, 0.0, d, Cost(price, quantity));
    CostAgrees(SERVICE_BITS, price, quantity, CostWith(SERVICE_BITS, price, quantity) / UNITS_PER_ONE, d);
    CostAgrees(ENGINE_BITS, price, quantity, CostWith(ENGINE_BITS, price, quantity) / UNITS_PER_ONE, e);
  }

  lemma {:induction false} FarTradesAgree(trades: seq<Trade>)
    requires forall k :: 0 <= k < |trades| ==>
      0 <= trades[k].price && 0 <= trades[k].quantity && IsFar(trades[k].price, trades[k].quantity)
    ensures Disagreements(Code(), trades) == 0
  {
    if trades != [] {
      var last := trades[|trades| - 1];
      JobsAgreeFarFromHalf(last.price, last.quantity);
      FarTradesAgree(trades[..|trades| - 1]);
    }
  }

  /** After any run of the code whose trades are all that far from a half unit, the job reports nothing. */
  lemma FarTradesVerify(seed: Seeds, cs: seq<Commit>)
    requires HoldingsOk(seed)
    requires forall k :: 0 <= k < |Run(Code(), seed, cs).trades| ==>
      IsFar(Run(Code(), seed, cs).trades[k].price, Run(Code(), seed, cs).trades[k].quantity)
    ensures Missing(Code(), Run(Code(), seed, cs).ledger, Run(Code(), seed, cs).trades, {}) == 0
  {
    var t := Run(Code(), seed, cs);
    RunKeepsInv(Code(), seed, cs);
    SettlementsAlwaysVerify(Code(), seed, cs);
    forall k | 0 <= k < |t.trades| ensures 0 <= t.trades[k].price && 0 <= t.trades[k].quantity {
      assert TradeOk(t.orders, t.trades[k]);
    }
    FarTradesAgree(t.trades);
  }

  /** A healthy trade that is reported: of 0.00000002 at 0.25 the engine posts nothing, and the job looks for one unit. */
  lemma JobsDisagreeOnTie()
    ensures Nearest(CostWith(ENGINE_BITS, 25_000_000, 2)) == 0 && Nearest(CostWith(SERVICE_BITS, 25_000_000, 2)) == 1
  {
    NarrowQuarter();
    WideQuarter();
  }

  /** The job reports that trade twice, although both its rows are there. */
  lemma HealthyTradeIsReported(m: Maths, tr: Trade)
    requires m == Code() && tr.price == 25_000_000 && tr.quantity == 2
    ensures Missing(m, [DebitRow(m, tr), CreditRow(m, tr)], [tr], {}) == 2
  {
    JobsDisagreeOnTie();
    OneTradeMissing(m, tr, [DebitRow(m, tr), CreditRow(m, tr)]);
  }

  lemma OneTradeMissing(m: Maths, tr: Trade, ledger: seq<Entry>)
    requires ledger == [DebitRow(m, tr), CreditRow(m, tr)]
    requires tr.Row(m) == 0 && Nearest(m.cost(Narrow, tr.price, tr.quantity)) == 1
    ensures Missing(m, ledger, [tr], {}) == 2
  {
    assert [tr][..0] == [];
    NothingToFind(ledger, tr.buyer, Withdrawal, 1, tr.buy);
    NothingToFind(ledger, tr.seller, Deposit, 1, tr.sell);
  }

  lemma QuarterPowers()
    ensures Pow2(89) == 618970019642690137449562112.0 && Pow2(-89) == 1.0 / 618970019642690137449562112.0
    ensures Pow2(91) == 4.0 * Pow2(89) && Pow2(-91) == Pow2(-89) / 4.0
    ensures Pow2(153) == 11417981541647679048466287755595961091061972992.0
    ensures Pow2(-153) == 1.0 / 11417981541647679048466287755595961091061972992.0
    ensures Pow2(155) == 4.0 * Pow2(153) && Pow2(-155) == Pow2(-153) / 4.0
    ensures Pow2(-26) == 1.0 / 67108864.0 && Pow2(-25) == 1.0 / 33554432.0
    ensures Pow2(-28) == 1.0 / 268435456.0 && Pow2(-27) == 1.0 / 134217728.0
  {
    Literals();
    Powers64();
    Pow2Doubles(89);
    Pow2Doubles(90);
    Pow2Adds(90, 63);
    Pow2Doubles(153);
    Pow2Doubles(154);
    Pow2Inverse(89);
    Pow2Inverse(91);
    Pow2Inverse(153);
    Pow2Inverse(155);
    Pow2Doubles(-26);
  }

  lemma QuarterParses(p: nat)
    requires 60 <= p
    ensures Rounds(p, Value(25_000_000), 0.25)
  {
    ParsesExactly(p, 25_000_000, Round(p, Value(25_000_000)));
  }

  lemma NarrowQuarter()
    ensures Nearest(CostWith(SERVICE_BITS, 25_000_000, 2)) == 1
  {
    var cost := NarrowProduct();
    CostIs(SERVICE_BITS, 25_000_000, 2, cost);
  }

  lemma NarrowProduct() returns (cost: real)
    ensures ComputesCost(SERVICE_BITS, 25_000_000, 2, cost) && Format(cost) == 1
  {
    QuarterPowers();
    QuarterParses(64);
    var low := 1.0 / 618970019642690137449562112.0;
    var q := 12379400392853802749.0 * low;
    cost := 12379400392853802749.0 * (low / 4.0);
    RoundsTo(64, Value(2), -25, 12379400392853802749, Pow2(89), low);
    RoundsTo(64, Times(0.25, q), -27, 12379400392853802749, Pow2(91), low / 4.0);
    NearestIsClosest(cost * UNITS_PER_ONE, 1);
  }

  lemma WideQuarter()
    ensures Nearest(CostWith(ENGINE_BITS, 25_000_000, 2)) == 0
  {
    var cost := WideProduct();
    CostIs(ENGINE_BITS, 25_000_000, 2, cost);
  }

  lemma WideProduct() returns (cost: real)
    ensures ComputesCost(ENGINE_BITS, 25_000_000, 2, cost) && Format(cost) == 0
  {
    QuarterPowers();
    QuarterParses(128);
    var low := 1.0 / 11417981541647679048466287755595961091061972992.0;
    var q := 228359630832953580969325755111919221821.0 * low;
    cost := 228359630832953580969325755111919221821.0 * (low / 4.0);
    RoundsTo(128, Value(2), -25, 228359630832953580969325755111919221821, Pow2(153), low);
    RoundsTo(128, Times(0.25, q), -27, 228359630832953580969325755111919221821, Pow2(155), low / 4.0);
    NearestIsClosest(cost * UNITS_PER_ONE, 0);
  }

  /** And without a tie: a trade of 100000.56999999 at 0.07000001, for 7000.04090000. */
  lemma JobsDisagreeWithoutTie()
    ensures !IsTie(Cost(7_000_001, 10_000_056_999_999))
    ensures Nearest(CostWith(SERVICE_BITS, 7_000_001, 10_000_056_999_999))
         == Nearest(CostWith(ENGINE_BITS, 7_000_001, 10_000_056_999_999)) + 1
  {
    var cost := AuditCanMissPostedCost();
    CostIs(SERVICE_BITS, 7_000_001, 10_000_056_999_999, cost);
    WideCostIsExact(7_000_001, 10_000_056_999_999);
  }

  lemma WideCostIsExact(price: int, quantity: int)
    requires 0 <= price && 0 <= quantity && Cost(price, quantity) < NUMERIC_LIMIT as real && !IsTie(Cost(price, quantity))
    ensures Nearest(CostWith(ENGINE_BITS, price, quantity)) == Nearest(Cost(price, quantity))
  {
    ComputesWith(ENGINE_BITS, price, quantity);
    CostIsExact(ENGINE_BITS, price, quantity, CostWith(ENGINE_BITS, price, quantity) / UNITS_PER_ONE);
  }
}
