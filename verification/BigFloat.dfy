/**
 The arithmetic of the code as functions: what big.Float makes of each computation with 64
 bits in the services and 128 in the engine. It is sound, so everything proved for sound
 arithmetic holds of the code; and it shows what sound arithmetic can do wrong.
 */
module BigFloat {
  import opened Money
  import opened Arithmetic
  import opened Binary
  import opened BinaryMoney

  function Precision(bits: Bits): nat {
    if bits == Narrow then SERVICE_BITS else ENGINE_BITS
  }

  /** A stored number, parsed. */
  ghost function Parsed(p: nat, units: int): real {
    Round(p, Value(units))
  }

  ghost function Plus(p: nat, balance: int, amount: real): int {
    Format(Round(p, Parsed(p, balance) + amount / UNITS_PER_ONE))
  }

  ghost function Minus(p: nat, balance: int, amount: real): int {
    Format(Round(p, Parsed(p, balance) - amount / UNITS_PER_ONE))
  }

  ghost predicate Covers(p: nat, balance: int, amount: real) {
    amount / UNITS_PER_ONE <= Parsed(p, balance)
  }

  ghost function CostWith(p: nat, price: int, quantity: int): real {
    Round(p, Times(Parsed(p, price), Parsed(p, quantity))) * UNITS_PER_ONE
  }

  ghost function Required(price: real, quantity: real): real {
    Round(SERVICE_BITS, (price / UNITS_PER_ONE) * (quantity / UNITS_PER_ONE)) * UNITS_PER_ONE
  }

  ghost predicate Completes(filled: int, fill: int, total: int) {
    Parsed(ENGINE_BITS, total) <= Round(ENGINE_BITS, Parsed(ENGINE_BITS, filled) + Parsed(ENGINE_BITS, fill))
  }

  /** Is the absolute value of `diff` above the limit? */
  predicate Exceeds(diff: real, limit: real) {
    limit < if diff < 0.0 then -diff else diff
  }

  ghost predicate Alarm(balance: int, rows: int) {
    Exceeds(Round(SERVICE_BITS, Parsed(SERVICE_BITS, balance) - Parsed(SERVICE_BITS, rows)), Parsed(SERVICE_BITS, 1))
  }

  ghost function CodeFunctions(): Functions {
    Functions((bits: Bits, balance: int, amount: real) => Plus(Precision(bits), balance, amount),
              (bits: Bits, balance: int, amount: real) => Minus(Precision(bits), balance, amount),
              (bits: Bits, balance: int, amount: real) => Covers(Precision(bits), balance, amount),
              (bits: Bits, price: int, quantity: int) => CostWith(Precision(bits), price, quantity),
              (price: real, quantity: real) => Required(price, quantity),
              (filled: int, fill: int, total: int) => Completes(filled, fill, total),
              (balance: int, rows: int) => Alarm(balance, rows))
  }

  /** The code's arithmetic, which is sound. */
  ghost function Code(): Maths {
    CodeIsSound();
    CodeFunctions()
  }

  // ----- 64 bits -----

  /** The power of two above a sum. */
  function Power(top: real): int {
    if top < SMALL then 35 else if top < 2.0 * SMALL then 36 else if top < 4.0 * SMALL then 37
    else if top < 8.0 * SMALL then 38 else if top < 16.0 * SMALL then 39 else 40
  }

  lemma SmallPowers()
    ensures Pow2(35) == 34359738368.0 && Pow2(36) == 68719476736.0 && Pow2(37) == 137438953472.0
    ensures Pow2(38) == 274877906944.0 && Pow2(39) == 549755813888.0 && Pow2(40) == 1099511627776.0
    ensures Pow2(41) == 2199023255552.0
  {
    Literals();
    Pow2Doubles(40);
    Pow2Doubles(39);
    Pow2Doubles(38);
    Pow2Doubles(37);
    Pow2Doubles(36);
    Pow2Doubles(35);
  }

  /** Three roundings below that power, in units. */
  lemma SlackPower(top: real)
    ensures 3.0 * Pow2(Power(top) - 65) * UNITS_PER_ONE <= Slack(top)
  {
    Literals();
    Pow2Doubles(-30);
    Pow2Doubles(-29);
    Pow2Doubles(-28);
    Pow2Doubles(-27);
    Pow2Doubles(-26);
  }

  lemma BelowPower(top: real)
    requires top < 2.0 * NUMERIC_LIMIT as real
    ensures top / UNITS_PER_ONE + 1.0 < Pow2(Power(top) + 1)
    ensures top < NUMERIC_LIMIT as real ==> top / UNITS_PER_ONE < Pow2(Power(top))
  {
    SmallPowers();
  }

  lemma PowerMonotone(x: real, y: real)
    requires x <= y < 2.0 * NUMERIC_LIMIT as real && x < NUMERIC_LIMIT as real
    ensures x / UNITS_PER_ONE < Pow2(Power(y))
  {
    BelowPower(x);
    Pow2Monotone(Power(x), Power(y));
  }

  lemma FormatsWithin(y: real, x: real, error: real)
    requires -error <= y - x / UNITS_PER_ONE <= error
    ensures IsNear(Format(y) as real, x, 0.5 + error * UNITS_PER_ONE)
  {
    assert -(error * UNITS_PER_ONE) <= y * UNITS_PER_ONE - x <= error * UNITS_PER_ONE;
  }

  lemma PlusIsNear(balance: int, amount: real)
    requires 0 <= balance && Fits(balance) && 0.0 < amount < NUMERIC_LIMIT as real
    ensures IsNear(Plus(SERVICE_BITS, balance, amount) as real, balance as real + amount,
                   0.5 + Slack(balance as real + amount))
  {
    var top := balance as real + amount;
    var k, b, v := Power(top), Parsed(SERVICE_BITS, balance), amount / UNITS_PER_ONE;
    SlackPower(top);
    BelowPower(top);
    PowerMonotone(balance as real, top);
    SumIsNear(balance, v, b, Round(SERVICE_BITS, b + v), k);
    FormatsWithin(Round(SERVICE_BITS, b + v), top, 3.0 * Pow2(k - 65));
  }

  lemma MinusIsNear(balance: int, amount: real)
    requires 0 <= balance && Fits(balance) && 0.0 < amount && Covers(SERVICE_BITS, balance, amount)
    ensures IsNear(Minus(SERVICE_BITS, balance, amount) as real, balance as real - amount,
                   0.5 + Slack(balance as real))
  {
    var top := balance as real;
    var k, b, v := Power(top), Parsed(SERVICE_BITS, balance), amount / UNITS_PER_ONE;
    SlackPower(top);
    BelowPower(top);
    DifferenceIsNear(balance, v, b, Round(SERVICE_BITS, b - v), k);
    FormatsWithin(Round(SERVICE_BITS, b - v), balance as real - amount, 3.0 * Pow2(k - 65));
  }

  // ----- 128 bits -----

  lemma WidePlusIsNear(balance: int, amount: real)
    requires 0 <= balance && Fits(balance) && 0.0 <= amount < 2.0 * NUMERIC_LIMIT as real
    ensures IsNear(Plus(ENGINE_BITS, balance, amount) as real, balance as real + amount, 0.500000001)
  {
    var b, v := Parsed(ENGINE_BITS, balance), amount / UNITS_PER_ONE;
    FineBalance(balance, b);
    FineRounding(b + v, Round(ENGINE_BITS, b + v));
    FormatsWithin(Round(ENGINE_BITS, b + v), balance as real + amount, 0.000000000000000002);
  }

  lemma WideMinusIsNear(balance: int, amount: real)
    requires 0 <= balance && Fits(balance) && 0.0 <= amount && Covers(ENGINE_BITS, balance, amount)
    ensures IsNear(Minus(ENGINE_BITS, balance, amount) as real, balance as real - amount, 0.500000001)
  {
    var b, v := Parsed(ENGINE_BITS, balance), amount / UNITS_PER_ONE;
    FineBalance(balance, b);
    FineRounding(b - v, Round(ENGINE_BITS, b - v));
    FormatsWithin(Round(ENGINE_BITS, b - v), balance as real - amount, 0.000000000000000002);
  }

  lemma WideCoversIsRight(balance: int, amount: real)
    requires 0 <= balance && Fits(balance)
    ensures amount + 0.000000001 <= balance as real ==> Covers(ENGINE_BITS, balance, amount)
    ensures Covers(ENGINE_BITS, balance, amount) ==> amount <= balance as real + 0.000000001
  {
    FineBalance(balance, Parsed(ENGINE_BITS, balance));
  }

  lemma ComputesWith(p: nat, price: int, quantity: int)
    ensures ComputesCost(p, price, quantity, CostWith(p, price, quantity) / UNITS_PER_ONE)
    ensures Format(CostWith(p, price, quantity) / UNITS_PER_ONE) == Nearest(CostWith(p, price, quantity))
  {
    var fp, fq := Parsed(p, price), Parsed(p, quantity);
    assert Rounds(p, Times(fp, fq), CostWith(p, price, quantity) / UNITS_PER_ONE);
  }

  lemma WideCostIsNear(price: int, quantity: int)
    requires 0 <= price && 0 <= quantity
    ensures IsNear(CostWith(ENGINE_BITS, price, quantity), Cost(price, quantity),
                   Cost(price, quantity) * 0.00000000000000000000000000001)
  {
    var c, d := Cost(price, quantity), Pow2(0 - ENGINE_BITS);
    var k := c / UNITS_PER_ONE;
    ComputesWith(ENGINE_BITS, price, quantity);
    CostNonNegative(price, quantity);
    FineEpsilon(ENGINE_BITS, d);
    CostError(ENGINE_BITS, price, quantity, CostWith(ENGINE_BITS, price, quantity) / UNITS_PER_ONE, k, d, Times(d, k));
    MulBounds(d, 0.0, 0.000000000000000000000000000001, k);
    RelativeBound(c, k, Times(d, k), CostWith(ENGINE_BITS, price, quantity));
  }

  lemma RelativeBound(c: real, k: real, dk: real, z: real)
    requires k == c / UNITS_PER_ONE && 0.0 <= k && 0.0 <= dk <= 0.000000000000000000000000000001 * k
    requires -(5.0 * dk) <= z / UNITS_PER_ONE - k <= 5.0 * dk
    ensures IsNear(z, c, c * 0.00000000000000000000000000001)
  {
  }

  // ----- Soundness -----

  lemma StatusesAreSound()
    ensures StatusIsSound(CodeFunctions())
  {
    var f := CodeFunctions();
    forall filled, fill, total | 0 <= filled && 0 <= fill && filled + fill < total && Fits(total)
      ensures !f.completes(filled, fill, total)
    {
      NeverEarly(filled, fill, total);
    }
    forall total | 0 <= total ensures f.completes(0, total, total) {
      FirstFill(total);
    }
  }

  lemma NeverEarly(filled: int, fill: int, total: int)
    requires 0 <= filled && 0 <= fill && filled + fill < total && Fits(total)
    ensures !Completes(filled, fill, total)
  {
    var f, q, t := Parsed(ENGINE_BITS, filled), Parsed(ENGINE_BITS, fill), Parsed(ENGINE_BITS, total);
    StatusIsNeverEarly(ENGINE_BITS, filled, fill, total, f, q, t, Round(ENGINE_BITS, f + q));
  }

  lemma FirstFill(total: int)
    requires 0 <= total
    ensures Completes(0, total, total)
  {
    var f, q := Parsed(ENGINE_BITS, 0), Parsed(ENGINE_BITS, total);
    FirstFillIsNoticed(ENGINE_BITS, total, f, q, q, Round(ENGINE_BITS, f + q));
  }

  lemma AlarmsAreSound()
    ensures AlarmIsSound(CodeFunctions())
  {
    var f := CodeFunctions();
    forall balance ensures !f.alarm(balance, balance) {
      NoAlarm(balance);
    }
    forall balance, rows | IsSmall(balance) && IsSmall(rows) && (balance - rows >= 2 || rows - balance >= 2)
      ensures f.alarm(balance, rows)
    {
      SureAlarm(balance, rows);
    }
  }

  lemma NoAlarm(balance: int)
    ensures !Alarm(balance, balance)
  {
    NonNegative(SERVICE_BITS, Value(1), Parsed(SERVICE_BITS, 1));
  }

  lemma SmallPower(n: int)
    requires IsSmall(n)
    ensures -Pow2(35) < Value(n) < Pow2(35)
  {
    SmallPowers();
  }

  lemma FarExceeds(balance: int, rows: int, b: real, s: real, diff: real, limit: real)
    requires IsSmall(balance) && IsSmall(rows) && (balance - rows >= 2 || rows - balance >= 2)
    requires Rounds(SERVICE_BITS, Value(balance), b) && Rounds(SERVICE_BITS, Value(rows), s)
    requires Rounds(SERVICE_BITS, b - s, diff) && Rounds(SERVICE_BITS, Value(1), limit)
    ensures Exceeds(diff, limit)
  {
    SmallPower(balance);
    SmallPower(rows);
    SmallLimit(limit);
    ReconciliationDecides(balance, rows, b, s, diff, limit);
  }

  lemma SureAlarm(balance: int, rows: int)
    requires IsSmall(balance) && IsSmall(rows) && (balance - rows >= 2 || rows - balance >= 2)
    ensures Alarm(balance, rows)
  {
    var b, s, limit := Parsed(SERVICE_BITS, balance), Parsed(SERVICE_BITS, rows), Parsed(SERVICE_BITS, 1);
    FarExceeds(balance, rows, b, s, Round(SERVICE_BITS, b - s), limit);
  }

  lemma ParsedIs(p: nat, units: int, y: real)
    requires Rounds(p, Value(units), y)
    ensures Parsed(p, units) == y
  {
    RoundIs(p, Value(units), y);
  }

  lemma AlarmIs(balance: int, rows: int, b: real, s: real, diff: real, limit: real)
    requires Parsed(SERVICE_BITS, balance) == b && Parsed(SERVICE_BITS, rows) == s
    requires Round(SERVICE_BITS, b - s) == diff && Parsed(SERVICE_BITS, 1) == limit
    ensures Alarm(balance, rows) <==> Exceeds(diff, limit)
  {
  }

  lemma CompletesIs(filled: int, fill: int, total: int, f: real, q: real, t: real, sum: real)
    requires Parsed(ENGINE_BITS, filled) == f && Parsed(ENGINE_BITS, fill) == q
    requires Parsed(ENGINE_BITS, total) == t && Round(ENGINE_BITS, f + q) == sum
    ensures Completes(filled, fill, total) <==> t <= sum
  {
  }

  lemma CostIs(p: nat, price: int, quantity: int, cost: real)
    requires ComputesCost(p, price, quantity, cost)
    ensures CostWith(p, price, quantity) == cost * UNITS_PER_ONE && Nearest(CostWith(p, price, quantity)) == Format(cost)
  {
    var fp, fq :| Rounds(p, Value(price), fp) && Rounds(p, Value(quantity), fq) && Rounds(p, Times(fp, fq), cost);
    RoundIs(p, Value(price), fp);
    RoundIs(p, Value(quantity), fq);
    RoundIs(p, Times(fp, fq), cost);
  }

  lemma NarrowPlusHolds()
    ensures NarrowPlusIsSound(CodeFunctions())
  {
    var f := CodeFunctions();
    forall balance, amount | 0 <= balance && Fits(balance) && 0.0 < amount < NUMERIC_LIMIT as real
      ensures IsNear(f.plus(Narrow, balance, amount) as real, balance as real + amount,
                     0.5 + Slack(balance as real + amount))
    {
      PlusIsNear(balance, amount);
    }
  }

  lemma NarrowMinusHolds()
    ensures NarrowMinusIsSound(CodeFunctions())
  {
    var f := CodeFunctions();
    forall balance, amount | 0 <= balance && Fits(balance) && 0.0 < amount && f.covers(Narrow, balance, amount)
      ensures IsNear(f.minus(Narrow, balance, amount) as real, balance as real - amount, 0.5 + Slack(balance as real))
    {
      MinusIsNear(balance, amount);
    }
  }

  lemma CoversIsRight(balance: int, amount: real)
    requires 0 <= balance && Fits(balance)
    ensures amount + Slack(balance as real) <= balance as real ==> Covers(SERVICE_BITS, balance, amount)
    ensures Covers(SERVICE_BITS, balance, amount) ==> amount <= balance as real + Slack(balance as real)
  {
    var top := balance as real;
    var k := Power(top);
    BelowPower(top);
    SlackPower(top);
    RoundError(SERVICE_BITS, Value(balance), Parsed(SERVICE_BITS, balance), k);
    Pow2Positive(k - 65);
  }

  lemma NarrowCoversHolds()
    ensures NarrowCoversIsSound(CodeFunctions())
  {
    var f := CodeFunctions();
    forall balance, amount | 0 <= balance && Fits(balance) && 0.0 <= amount
      ensures amount + Slack(balance as real) <= balance as real ==> f.covers(Narrow, balance, amount)
      ensures f.covers(Narrow, balance, amount) ==> amount <= balance as real + Slack(balance as real)
    {
      CoversIsRight(balance, amount);
    }
  }

  lemma RequiredIsNear(price: real, quantity: real)
    requires 0.0 <= price && 0.0 <= quantity
    ensures IsNear(Required(price, quantity), Asked(price, quantity), Asked(price, quantity) * 0.0000000000000000001)
  {
    var x, d := (price / UNITS_PER_ONE) * (quantity / UNITS_PER_ONE), Pow2(-64);
    AskedNonNegative(price, quantity);
    assert x * UNITS_PER_ONE == Asked(price, quantity);
    NarrowEpsilon(d);
    RelativeError(SERVICE_BITS, x, Round(SERVICE_BITS, x), d);
    MulBounds(d, 0.0, 0.000000000000000000055, x);
    assert Times(d, x) == Times(x, d);
  }

  lemma RequiredHolds()
    ensures RequiredIsSound(CodeFunctions())
  {
    var f := CodeFunctions();
    forall price, quantity | 0.0 <= price && 0.0 <= quantity
      ensures IsNear(f.required(price, quantity), Asked(price, quantity), Asked(price, quantity) * 0.0000000000000000001)
    {
      RequiredIsNear(price, quantity);
    }
  }

  lemma WidePlusHolds()
    ensures WidePlusIsSound(CodeFunctions())
  {
    var f := CodeFunctions();
    forall balance, amount | 0 <= balance && Fits(balance) && 0.0 <= amount < 2.0 * NUMERIC_LIMIT as real
      ensures IsNear(f.plus(Wide, balance, amount) as real, balance as real + amount, 0.500000001)
    {
      WidePlusIsNear(balance, amount);
    }
  }

  lemma WideMinusHolds()
    ensures WideMinusIsSound(CodeFunctions())
  {
    var f := CodeFunctions();
    forall balance, amount | 0 <= balance && Fits(balance) && 0.0 <= amount && f.covers(Wide, balance, amount)
      ensures IsNear(f.minus(Wide, balance, amount) as real, balance as real - amount, 0.500000001)
    {
      WideMinusIsNear(balance, amount);
    }
  }

  lemma WideCoversHolds()
    ensures WideCoversIsSound(CodeFunctions())
  {
    var f := CodeFunctions();
    forall balance, amount | 0 <= balance && Fits(balance) && 0.0 <= amount
      ensures amount + 0.000000001 <= balance as real ==> f.covers(Wide, balance, amount)
      ensures f.covers(Wide, balance, amount) ==> amount <= balance as real + 0.000000001
    {
      WideCoversIsRight(balance, amount);
    }
  }

  lemma WideCostHolds()
    ensures WideCostIsSound(CodeFunctions())
  {
    var f := CodeFunctions();
    forall price, quantity | 0 <= price && 0 <= quantity
      ensures IsNear(f.cost(Wide, price, quantity), Cost(price, quantity),
                     Cost(price, quantity) * 0.00000000000000000000000000001)
    {
      WideCostIsNear(price, quantity);
    }
  }

  /** The code's arithmetic errs no more than the theorems about runs allow. */
  lemma CodeIsSound()
    ensures Sound(CodeFunctions())
  {
    NarrowPlusHolds();
    NarrowMinusHolds();
    NarrowCoversHolds();
    RequiredHolds();
    WidePlusHolds();
    WideMinusHolds();
    WideCoversHolds();
    WideCostHolds();
    StatusesAreSound();
    AlarmsAreSound();
  }
}
