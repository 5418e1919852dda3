/**
 The code computes in binary: with 64 bits in the services and the nightly jobs, with 128
 bits in the engine. Everything about runs is proved for any arithmetic that errs no more
 than that; module BigFloat shows that the code's own arithmetic is one.
 */
module Arithmetic {
  import opened Money

  datatype Bits = Narrow | Wide

  /** What each computation on stored numbers comes out as. Amounts are in units. */
  datatype Functions = Functions(
    /** The balance that is stored after adding an amount. */
    plus: (Bits, int, real) -> int,
    minus: (Bits, int, real) -> int,
    /** Is a balance or a holding at least this much? */
    covers: (Bits, int, real) -> bool,
    /** Price times quantity, before formatting. */
    cost: (Bits, int, int) -> real,
    /** What placing an order asks for: a price times a quantity as they were typed. */
    required: (real, real) -> real,
    /** Do what was filled and a new fill make up the whole quantity? */
    completes: (int, int, int) -> bool,
    /** Are a balance and a sum of rows too far apart? */
    alarm: (int, int) -> bool)

  predicate IsNear(x: real, y: real, error: real) {
    -error <= x - y <= error
  }

  // ----- 64 bits -----

  /** 2^35, in units. */
  const SMALL := 3_435_973_836_800_000_000.0

  predicate IsSmall(n: int) {
    -SMALL < n as real < SMALL
  }

  /** How far a 64-bit sum may be off, given the largest number in it: twice as far for each power of two. */
  function Slack(top: real): real {
    if top < SMALL then 0.28
    else if top < 2.0 * SMALL then 0.56
    else if top < 4.0 * SMALL then 1.12
    else if top < 8.0 * SMALL then 2.24
    else if top < 16.0 * SMALL then 4.48
    else 8.96
  }

  ghost predicate NarrowPlusIsSound(f: Functions) {
    forall balance, amount :: 0 <= balance && Fits(balance) && 0.0 < amount < NUMERIC_LIMIT as real ==>
      IsNear(f.plus(Narrow, balance, amount) as real, balance as real + amount, 0.5 + Slack(balance as real + amount))
  }

  ghost predicate NarrowMinusIsSound(f: Functions) {
    forall balance, amount :: 0 <= balance && Fits(balance) && 0.0 < amount && f.covers(Narrow, balance, amount) ==>
      IsNear(f.minus(Narrow, balance, amount) as real, balance as real - amount, 0.5 + Slack(balance as real))
  }

  ghost predicate NarrowCoversIsSound(f: Functions) {
    forall balance, amount :: 0 <= balance && Fits(balance) && 0.0 <= amount ==>
      && (amount + Slack(balance as real) <= balance as real ==> f.covers(Narrow, balance, amount))
      && (f.covers(Narrow, balance, amount) ==> amount <= balance as real + Slack(balance as real))
  }

  ghost predicate RequiredIsSound(f: Functions) {
    forall price, quantity :: 0.0 <= price && 0.0 <= quantity ==>
      IsNear(f.required(price, quantity), Asked(price, quantity), Asked(price, quantity) * 0.0000000000000000001)
  }

  // ----- 128 bits -----

  ghost predicate WidePlusIsSound(f: Functions) {
    forall balance, amount :: 0 <= balance && Fits(balance) && 0.0 <= amount < 2.0 * NUMERIC_LIMIT as real ==>
      IsNear(f.plus(Wide, balance, amount) as real, balance as real + amount, 0.500000001)
  }

  ghost predicate WideMinusIsSound(f: Functions) {
    forall balance, amount :: 0 <= balance && Fits(balance) && 0.0 <= amount && f.covers(Wide, balance, amount) ==>
      IsNear(f.minus(Wide, balance, amount) as real, balance as real - amount, 0.500000001)
  }

  ghost predicate WideCoversIsSound(f: Functions) {
    forall balance, amount :: 0 <= balance && Fits(balance) && 0.0 <= amount ==>
      && (amount + 0.000000001 <= balance as real ==> f.covers(Wide, balance, amount))
      && (f.covers(Wide, balance, amount) ==> amount <= balance as real + 0.000000001)
  }

  ghost predicate WideCostIsSound(f: Functions) {
    forall price, quantity :: 0 <= price && 0 <= quantity ==>
      IsNear(f.cost(Wide, price, quantity), Cost(price, quantity),
             Cost(price, quantity) * 0.00000000000000000000000000001)
  }

  /** A status is never early; it may be late, but not after a single fill. */
  ghost predicate StatusIsSound(f: Functions) {
    && (forall filled, fill, total ::
          0 <= filled && 0 <= fill && filled + fill < total && Fits(total) ==> !f.completes(filled, fill, total))
    && (forall total :: 0 <= total ==> f.completes(0, total, total))
  }

  ghost predicate AlarmIsSound(f: Functions) {
    && (forall balance :: !f.alarm(balance, balance))
    && (forall balance, rows | IsSmall(balance) && IsSmall(rows) ::
          balance - rows >= 2 || rows - balance >= 2 ==> f.alarm(balance, rows))
  }

  ghost predicate Sound(f: Functions) {
    && NarrowPlusIsSound(f) && NarrowMinusIsSound(f) && NarrowCoversIsSound(f) && RequiredIsSound(f)
    && WidePlusIsSound(f) && WideMinusIsSound(f) && WideCoversIsSound(f) && WideCostIsSound(f)
    && StatusIsSound(f) && AlarmIsSound(f)
  }

  type Maths = f: Functions | Sound(f) ghost witness SomeSound()

  /** Exact decimals, for comparison. */
  function Exact(): Functions {
    Functions((bits, balance, amount) => Nearest(balance as real + amount),
              (bits, balance, amount) => Nearest(balance as real - amount),
              (bits, balance, amount) => amount <= balance as real,
              (bits, price, quantity) => Cost(price, quantity),
              (price, quantity) => Asked(price, quantity),
              (filled, fill, total) => total <= filled + fill,
              (balance, rows) => balance - rows > 1 || rows - balance > 1)
  }

  ghost function SomeSound(): (f: Functions)
    ensures Sound(f)
  {
    ExactIsSound();
    Exact()
  }

  lemma ExactIsSound()
    ensures Sound(Exact())
  {
    ExactSums();
    ExactCost();
    var f := Exact();
    assert StatusIsSound(f) && AlarmIsSound(f);
    ExactIsClose(f);
    ExactAsked();
  }

  lemma AskedNonNegative(price: real, quantity: real)
    requires 0.0 <= price && 0.0 <= quantity
    ensures 0.0 <= Asked(price, quantity)
  {
    assert 0.0 <= price * quantity;
  }

  lemma ExactAsked()
    ensures RequiredIsSound(Exact())
  {
    forall price, quantity | 0.0 <= price && 0.0 <= quantity
      ensures IsNear(Exact().required(price, quantity), Asked(price, quantity), Asked(price, quantity) * 0.0000000000000000001)
    {
      AskedNonNegative(price, quantity);
    }
  }

  lemma ExactIsClose(f: Functions)
    requires forall bits, balance, amount :: IsNear(f.plus(bits, balance, amount) as real, balance as real + amount, 0.5)
    requires forall bits, balance, amount :: IsNear(f.minus(bits, balance, amount) as real, balance as real - amount, 0.5)
    requires forall bits, balance, amount :: f.covers(bits, balance, amount) <==> amount <= balance as real
    requires forall bits, price, quantity :: 0 <= price && 0 <= quantity ==>
      0.0 <= f.cost(bits, price, quantity) == Cost(price, quantity)
    ensures NarrowPlusIsSound(f) && NarrowMinusIsSound(f) && NarrowCoversIsSound(f)
    ensures WidePlusIsSound(f) && WideMinusIsSound(f) && WideCoversIsSound(f) && WideCostIsSound(f)
  {
  }

  lemma ExactSums()
    ensures forall bits, balance, amount :: IsNear(Exact().plus(bits, balance, amount) as real, balance as real + amount, 0.5)
    ensures forall bits, balance, amount :: IsNear(Exact().minus(bits, balance, amount) as real, balance as real - amount, 0.5)
    ensures forall bits, balance, amount :: Exact().covers(bits, balance, amount) <==> amount <= balance as real
  {
  }

  lemma ExactCost()
    ensures forall bits, price, quantity :: 0 <= price && 0 <= quantity ==>
      0.0 <= Exact().cost(bits, price, quantity) == Cost(price, quantity)
  {
    forall price, quantity | 0 <= price && 0 <= quantity ensures 0.0 <= Cost(price, quantity) {
      CostNonNegative(price, quantity);
    }
  }

  // ----- Postings of the services -----

  /** Farther from a half unit than 64-bit sums err. Every amount of at most eight decimals is. */
  predicate IsClear(amount: real) {
    -0.2 <= amount - Nearest(amount) as real <= 0.2
  }

  /**
   How many units one posting can put between a balance and its rows: below 2^35 none for a clear
   amount and one for any other, below 2^36 one, and then 2, 3, 5 and 9 for each power of two.
   */
  function Allowance(top: real, amount: real): nat {
    if top < SMALL && IsClear(amount) then 0 else (1.0 + Slack(top)).Floor
  }

  lemma AllowanceTable(top: real, amount: real)
    ensures top < 34_359_738_368.0 * UNITS_PER_ONE && -0.2 <= amount - Nearest(amount) as real <= 0.2 ==>
      Allowance(top, amount) == 0
    ensures Allowance(top, amount)
         <= if top < 68_719_476_736.0 * UNITS_PER_ONE then 1
            else if top < 137_438_953_472.0 * UNITS_PER_ONE then 2
            else if top < 274_877_906_944.0 * UNITS_PER_ONE then 3
            else if top < 549_755_813_888.0 * UNITS_PER_ONE then 5
            else 9
  {
  }

  lemma DepositDrift(m: Maths, balance: int, amount: real)
    requires 0 <= balance && Fits(balance) && 0.0 < amount && Fits(Nearest(amount))
    ensures var drift := m.plus(Narrow, balance, amount) - balance - Nearest(amount);
      -(Allowance(balance as real + amount, amount) as int) <= drift <= Allowance(balance as real + amount, amount)
  {
    assert IsNear(m.plus(Narrow, balance, amount) as real, balance as real + amount, 0.5 + Slack(balance as real + amount));
  }

  lemma WithdrawalDrift(m: Maths, balance: int, amount: real)
    requires 0 <= balance && Fits(balance) && 0.0 < amount && m.covers(Narrow, balance, amount)
    ensures var drift := m.minus(Narrow, balance, amount) - balance + Nearest(amount);
      -(Allowance(balance as real, amount) as int) <= drift <= Allowance(balance as real, amount)
  {
    assert IsNear(m.minus(Narrow, balance, amount) as real, balance as real - amount, 0.5 + Slack(balance as real));
  }

  // ----- Postings of a trade -----

  /** The ledger row of a trade. */
  function Row(m: Maths, price: int, quantity: int): int {
    Nearest(m.cost(Wide, price, quantity))
  }

  /** A number of sixteen decimals has no other such number within 10^-8 units of a tie. */
  lemma NearlyRounding(n: int, x: real, k: int)
    requires x == n as real / UNITS_PER_ONE && IsNear(k as real, x, 0.500000005)
    ensures IsRounding(x, k)
  {
    assert k as real - x == (k * 100_000_000 - n) as real / UNITS_PER_ONE;
  }

  lemma CostIsNear(m: Maths, price: int, quantity: int)
    requires 0 <= price && 0 <= quantity && Fits(Row(m, price, quantity))
    ensures IsNear(m.cost(Wide, price, quantity), Cost(price, quantity), 0.000000002)
    ensures 0.0 <= m.cost(Wide, price, quantity) < 2.0 * NUMERIC_LIMIT as real
  {
    CostNonNegative(price, quantity);
    assert IsNear(m.cost(Wide, price, quantity), Cost(price, quantity),
                  Cost(price, quantity) * 0.00000000000000000000000000001);
  }

  /** The row, the debit and the credit of a trade are each the cost, rounded one way or the other. */
  lemma TradeRounds(m: Maths, price: int, quantity: int, balance: int)
    requires 0 <= price && 0 <= quantity && Fits(Row(m, price, quantity)) && 0 <= balance && Fits(balance)
    ensures var cost := m.cost(Wide, price, quantity);
      && IsRounding(Cost(price, quantity), Row(m, price, quantity))
      && IsRounding(Cost(price, quantity), m.plus(Wide, balance, cost) - balance)
      && (m.covers(Wide, balance, cost) ==> IsRounding(Cost(price, quantity), balance - m.minus(Wide, balance, cost)))
  {
    var cost, n := m.cost(Wide, price, quantity), price * quantity;
    CostIsNear(m, price, quantity);
    NearlyRounding(n, Cost(price, quantity), Row(m, price, quantity));
    assert IsNear(m.plus(Wide, balance, cost) as real, balance as real + cost, 0.500000001);
    NearlyRounding(n, Cost(price, quantity), m.plus(Wide, balance, cost) - balance);
    if m.covers(Wide, balance, cost) {
      assert IsNear(m.minus(Wide, balance, cost) as real, balance as real - cost, 0.500000001);
      NearlyRounding(n, Cost(price, quantity), balance - m.minus(Wide, balance, cost));
    }
  }
}
