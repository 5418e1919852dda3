/**
 The binary arithmetic underneath the exact model: the services compute with 64 bits and
 the engine with 128. This module says where deposits, withdrawals, costs, balances,
 statuses and the nightly comparisons agree with exact decimals, and where they do not.
 */
module BinaryMoney {
  import opened Money
  import opened Binary

  // ----- Deposits and withdrawals -----

  lemma DepositIsExact(balance: int, amount: int, b: real, a: real, sum: real)
    requires 0 <= balance && 0 <= amount && Value(balance + amount) < Pow2(35)
    requires Rounds(SERVICE_BITS, Value(balance), b) && Rounds(SERVICE_BITS, Value(amount), a)
    requires Rounds(SERVICE_BITS, b + a, sum)
    ensures Format(sum) == balance + amount && Format(a) == amount
  {
    Literals();
    Pow2Doubles(35);
    Pow2Doubles(-30);
    Pow2Doubles(-29);
    Pow2Positive(35);
    Pow2Monotone(35, SERVICE_BITS - 27);
    Pow2Monotone(0, 35);
    RoundError(SERVICE_BITS, Value(balance), b, 35);
    RoundError(SERVICE_BITS, Value(amount), a, 35);
    NonNegative(SERVICE_BITS, Value(balance), b);
    NonNegative(SERVICE_BITS, Value(amount), a);
    RoundError(SERVICE_BITS, b + a, sum, 36);
    assert Value(balance) + Value(amount) == Value(balance + amount);
    FormatsAs(sum, balance + amount, Pow2(-28));
    RoundTrip(SERVICE_BITS, amount, a);
  }

  /** Sufficiency is decided exactly, and what is left is stored exactly. */
  lemma WithdrawalIsExact(balance: int, amount: int, b: real, a: real, rest: real)
    requires 0 <= balance && 0 <= amount && Value(balance) < Pow2(35) && Value(amount) < Pow2(35)
    requires Rounds(SERVICE_BITS, Value(balance), b) && Rounds(SERVICE_BITS, Value(amount), a)
    ensures b < a <==> balance < amount
    ensures amount <= balance && Rounds(SERVICE_BITS, b - a, rest) ==> Format(rest) == balance - amount
  {
    Literals();
    Pow2Doubles(-30);
    Pow2Doubles(-29);
    Pow2Doubles(35);
    Pow2Monotone(0, 35);
    RoundError(SERVICE_BITS, Value(balance), b, 35);
    RoundError(SERVICE_BITS, Value(amount), a, 35);
    assert Value(balance) - Value(amount) == Value(balance - amount);
    if balance == amount {
      RoundsIsAFunction(SERVICE_BITS, Value(balance), b, a);
    }
    if amount <= balance && Rounds(SERVICE_BITS, b - a, rest) {
      RoundError(SERVICE_BITS, b - a, rest, 36);
      FormatsAs(rest, balance - amount, Pow2(-28));
    }
  }

  /** However many decimals the amount has, a 64-bit sum is off by three roundings of its largest number at most. */
  lemma SumIsNear(balance: int, v: real, b: real, y: real, k: int)
    requires 0 <= balance && 0.0 <= v && 0 <= k && Value(balance) < Pow2(k) && Value(balance) + v + 1.0 < Pow2(k + 1)
    requires k <= 60 && Rounds(SERVICE_BITS, Value(balance), b) && Rounds(SERVICE_BITS, b + v, y)
    ensures -3.0 * Pow2(k - 65) <= y - (Value(balance) + v) <= 3.0 * Pow2(k - 65)
  {
    RoundError(SERVICE_BITS, Value(balance), b, k);
    NonNegative(SERVICE_BITS, Value(balance), b);
    Pow2Monotone(k - 65, 0);
    RoundError(SERVICE_BITS, b + v, y, k + 1);
    Pow2Doubles(k - 65);
  }

  lemma DifferenceIsNear(balance: int, v: real, b: real, y: real, k: int)
    requires 0 <= balance && 0.0 <= v && 0 <= k <= 60 && Value(balance) < Pow2(k)
    requires Rounds(SERVICE_BITS, Value(balance), b) && v <= b && Rounds(SERVICE_BITS, b - v, y)
    ensures -3.0 * Pow2(k - 65) <= y - (Value(balance) - v) <= 3.0 * Pow2(k - 65)
  {
    RoundError(SERVICE_BITS, Value(balance), b, k);
    Pow2Monotone(k - 65, 0);
    Pow2Monotone(0, k);
    Pow2Doubles(k);
    RoundError(SERVICE_BITS, b - v, y, k + 1);
    Pow2Doubles(k - 65);
  }

  // ----- Trade cost -----

  /** A number of sixteen decimals that is not a tie is at least 10^-16 away from every tie. */
  lemma AwayFromTies(n: int, x: real, z: real)
    requires x == n as real / UNITS_PER_ONE && !IsTie(x)
    requires -0.00000001 < z - x < 0.00000001
    ensures Nearest(z) == Nearest(x)
  {
    var below, rest := n / 100_000_000, n % 100_000_000;
    assert x == below as real + rest as real / UNITS_PER_ONE;
    assert x.Floor == below;
    assert rest != 50_000_000;
    var nearest := if rest < 50_000_000 then below else below + 1;
    NearestIsClosest(z, nearest);
    NearestIsClosest(x, nearest);
  }

  /** What the engine and the audit compute as the cost of a trade, with p bits. */
  ghost predicate ComputesCost(p: nat, price: int, quantity: int, cost: real) {
    exists fp, fq :: Rounds(p, Value(price), fp) && Rounds(p, Value(quantity), fq) && Rounds(p, Times(fp, fq), cost)
  }

  lemma FineEpsilon(p: nat, d: real)
    requires 120 <= p && d == Pow2(0 - p)
    ensures 0.0 < d <= 0.000000000000000000000000000001
  {
    Literals();
    Pow2Positive(0 - p);
    Pow2Monotone(0 - p, -120);
    var fine := 1.0 / 1073741824.0;
    Pow2Splits(-30, 30, fine, fine);
    Pow2Splits(-60, 30, fine * fine, fine);
    Pow2Splits(-90, 30, fine * fine * fine, fine);
  }

  lemma ValueOfProduct(price: int, quantity: int, x: real, y: real)
    requires x == Value(price) && y == Value(quantity)
    ensures Times(x, y) == Cost(price, quantity) / UNITS_PER_ONE
  {
    var p, q := price as real, quantity as real;
    assert (price * quantity) as real == p * q;
  }

  lemma CostError(p: nat, price: int, quantity: int, cost: real, k: real, d: real, bound: real)
    requires 0 <= price && 0 <= quantity && k == Cost(price, quantity) / UNITS_PER_ONE
    requires d == Pow2(0 - p) && 0.0 <= d <= 0.01 && Times(d, k) <= bound && ComputesCost(p, price, quantity, cost)
    ensures -(5.0 * bound) <= cost - k <= 5.0 * bound
  {
    var x, y := Value(price), Value(quantity);
    var fp, fq :| Rounds(p, x, fp) && Rounds(p, y, fq) && Rounds(p, Times(fp, fq), cost);
    ValueOfProduct(price, quantity, x, y);
    ProductIsNear(p, x, y, fp, fq, k, cost, d);
  }

  /** With 120 bits the error is far below 10^-16, over the whole range of the columns. */
  lemma FineCost(p: nat, price: int, quantity: int, cost: real)
    requires 120 <= p && 0 <= price && 0 <= quantity && Cost(price, quantity) < NUMERIC_LIMIT as real
    requires ComputesCost(p, price, quantity, cost)
    ensures -0.000000000000000005 <= cost - Cost(price, quantity) / UNITS_PER_ONE <= 0.000000000000000005
  {
    var k, d := Cost(price, quantity) / UNITS_PER_ONE, Pow2(0 - p);
    CostNonNegative(price, quantity);
    FineEpsilon(p, d);
    MulBounds(d, 0.0, 0.000000000000000000000000000001, k);
    CostError(p, price, quantity, cost, k, d, 0.000000000000000001);
  }

  /** The distance of a cost from the nearest half unit. */
  function FromHalf(x: real): real {
    var gap := x - (x.Floor as real + 0.5);
    if gap < 0.0 then -gap else gap
  }

  lemma FarFromHalf(x: real, z: real, error: real)
    requires -error <= z - x <= error && error < FromHalf(x)
    ensures Nearest(z) == Nearest(x)
  {
    var n := Nearest(x);
    assert FromHalf(x) <= 0.5;
    assert -0.5 < z - n as real < 0.5;
    NearestIsClosest(z, n);
  }

  /** At any precision and any size: a cost is formatted as the exact one is if it is far enough from a half unit. */
  lemma CostAgrees(p: nat, price: int, quantity: int, cost: real, d: real)
    requires 0 <= price && 0 <= quantity && d == Pow2(0 - p) && 0.0 <= d <= 0.01 && ComputesCost(p, price, quantity, cost)
    requires 5.0 * Times(d, Cost(price, quantity)) < FromHalf(Cost(price, quantity))
    ensures Format(cost) == Nearest(Cost(price, quantity))
  {
    var c, k := Cost(price, quantity), Cost(price, quantity) / UNITS_PER_ONE;
    CostNonNegative(price, quantity);
    CostError(p, price, quantity, cost, k, d, Times(d, k));
    ScalesOut(d, c, k);
    FarFromHalf(c, cost * UNITS_PER_ONE, 5.0 * Times(d, c));
  }

  lemma ScalesOut(d: real, c: real, k: real)
    requires k == c / UNITS_PER_ONE
    ensures Times(d, c) == Times(d, k) * UNITS_PER_ONE
  {
  }

  /** With 120 bits or more, the cost that comes out is the exactly rounded cost, unless that is a tie. */
  lemma CostIsExact(p: nat, price: int, quantity: int, cost: real)
    requires 120 <= p && 0 <= price && 0 <= quantity
    requires Cost(price, quantity) < NUMERIC_LIMIT as real && !IsTie(Cost(price, quantity))
    requires ComputesCost(p, price, quantity, cost)
    ensures Format(cost) == Nearest(Cost(price, quantity))
  {
    FineCost(p, price, quantity, cost);
    AwayFromTies(price * quantity, Cost(price, quantity), cost * UNITS_PER_ONE);
  }

  // ----- Balances after a trade -----

  /** Adding a whole balance moves no amount onto a tie or off it. */
  lemma TieShift(balance: int, x: real)
    ensures IsTie(balance as real + x) <==> IsTie(x)
  {
    FloorShift(balance, x);
  }

  lemma FineBalance(balance: int, b: real)
    requires 0 <= balance && Fits(balance) && Rounds(ENGINE_BITS, Value(balance), b)
    ensures -0.000000000000000001 <= b - Value(balance) <= 0.000000000000000001 && 0.0 <= b
  {
    ParsedError(ENGINE_BITS, balance, b, Pow2(39 - ENGINE_BITS));
    FinePower(39 - ENGINE_BITS);
  }

  lemma FineRounding(x: real, y: real)
    requires 0.0 <= x < 4000000000000.0 && Rounds(ENGINE_BITS, x, y)
    ensures -0.000000000000000001 <= y - x <= 0.000000000000000001
  {
    Literals();
    Pow2Doubles(40);
    Pow2Doubles(41);
    RoundError(ENGINE_BITS, x, y, 42);
    FinePower(41 - ENGINE_BITS);
  }

  lemma FinePower(e: int)
    requires e <= -60
    ensures Pow2(e) <= 0.000000000000000001
  {
    Literals();
    var fine := 1.0 / 1073741824.0;
    Pow2Splits(-30, 30, fine, fine);
    Pow2Monotone(e, -60);
  }

  /** A rounded sum that is off by less than 10^-17 formats as the exact one does. */
  lemma FormatsNearTie(n: int, x: real, z: real)
    requires x == n as real / UNITS_PER_ONE && !IsTie(x)
    requires -0.00000000000000001 <= z - x / UNITS_PER_ONE <= 0.00000000000000001
    ensures Format(z) == Nearest(x)
  {
    AwayFromTies(n, x, z * UNITS_PER_ONE);
  }

  /** A balance, a cost of sixteen decimals, and how far their binary forms may be from them. */
  ghost predicate Posted(balance: int, n: int, c: real, b: real, cost: real) {
    && 0 <= balance && Fits(balance) && 0.0 <= c < NUMERIC_LIMIT as real && c == n as real / UNITS_PER_ONE
    && 0.0 <= b && -0.000000000000000001 <= b - Value(balance) <= 0.000000000000000001
    && 0.0 <= cost && -0.000000000000000005 <= cost - c / UNITS_PER_ONE <= 0.000000000000000005
  }

  lemma BinaryPosting(balance: int, price: int, quantity: int, b: real, cost: real)
    requires 0 <= balance && Fits(balance) && 0 <= price && 0 <= quantity
    requires Cost(price, quantity) < NUMERIC_LIMIT as real
    requires Rounds(ENGINE_BITS, Value(balance), b) && ComputesCost(ENGINE_BITS, price, quantity, cost)
    ensures Posted(balance, price * quantity, Cost(price, quantity), b, cost)
  {
    CostNonNegative(price, quantity);
    FineCost(ENGINE_BITS, price, quantity, cost);
    FineBalance(balance, b);
    CostComputedNonNegative(ENGINE_BITS, price, quantity, cost);
  }

  lemma CostComputedNonNegative(p: nat, price: int, quantity: int, cost: real)
    requires 0 <= price && 0 <= quantity && ComputesCost(p, price, quantity, cost)
    ensures 0.0 <= cost
  {
    var fp, fq :| Rounds(p, Value(price), fp) && Rounds(p, Value(quantity), fq) && Rounds(p, Times(fp, fq), cost);
    NonNegative(p, Value(price), fp);
    NonNegative(p, Value(quantity), fq);
    TimesNonNegative(fp, fq);
    NonNegative(p, Times(fp, fq), cost);
  }

  lemma CreditIsExact(balance: int, n: int, c: real, b: real, cost: real, sum: real)
    requires Posted(balance, n, c, b, cost) && !IsTie(c) && Rounds(ENGINE_BITS, b + cost, sum)
    ensures Format(sum) == Nearest(balance as real + c)
  {
    FineRounding(b + cost, sum);
    TieShift(balance, c);
    FormatsNearTie(balance * 100_000_000 + n, balance as real + c, sum);
  }

  lemma DebitIsExact(balance: int, n: int, c: real, b: real, cost: real, rest: real)
    requires Posted(balance, n, c, b, cost) && !IsTie(c) && cost <= b && Rounds(ENGINE_BITS, b - cost, rest)
    ensures Format(rest) == Nearest(balance as real - c)
  {
    FineRounding(b - cost, rest);
    NearestNegated(c);
    TieShift(balance, -c);
    FormatsNearTie(balance * 100_000_000 - n, balance as real - c, rest);
  }

  lemma ToldApart(balance: int, n: int, c: real, b: real, cost: real)
    requires Posted(balance, n, c, b, cost)
    ensures balance as real < c ==> b < cost
    ensures c < balance as real ==> cost < b
  {
    assert balance as real - c == (balance * 100_000_000 - n) as real / UNITS_PER_ONE;
  }

  /** Funds that differ from the cost, by however little, are told apart from it correctly. */
  lemma FundsAreToldApart(balance: int, price: int, quantity: int, b: real, cost: real)
    requires 0 <= balance && Fits(balance) && 0 <= price && 0 <= quantity && Cost(price, quantity) < NUMERIC_LIMIT as real
    requires Rounds(ENGINE_BITS, Value(balance), b) && ComputesCost(ENGINE_BITS, price, quantity, cost)
    ensures balance as real < Cost(price, quantity) ==> b < cost
    ensures Cost(price, quantity) < balance as real ==> cost < b
  {
    BinaryPosting(balance, price, quantity, b, cost);
    ToldApart(balance, price * quantity, Cost(price, quantity), b, cost);
  }

  /**
   Funds equal to the cost are accepted if and only if parsing has not made the product of the two
   numbers larger than the cost, or rounding takes that back.
   */
  lemma EqualFundsPass(balance: int, price: int, quantity: int, fp: real, fq: real, b: real, cost: real)
    requires 0 <= balance && 0 <= price && 0 <= quantity && balance as real == Cost(price, quantity)
    requires Rounds(ENGINE_BITS, Value(price), fp) && Rounds(ENGINE_BITS, Value(quantity), fq)
    requires Rounds(ENGINE_BITS, Times(fp, fq), cost) && Rounds(ENGINE_BITS, Value(balance), b)
    ensures Times(fp, fq) <= Value(balance) ==> cost <= b
    ensures cost <= b <==> Times(fp, fq) <= Value(balance) || cost == b
  {
    NonNegative(ENGINE_BITS, Value(price), fp);
    NonNegative(ENGINE_BITS, Value(quantity), fq);
    TimesNonNegative(fp, fq);
    if Times(fp, fq) <= Value(balance) {
      RoundsMonotone(ENGINE_BITS, Times(fp, fq), Value(balance), cost, b);
    }
    if Value(balance) <= Times(fp, fq) {
      RoundsMonotone(ENGINE_BITS, Value(balance), Times(fp, fq), b, cost);
    }
  }

  lemma ValuesMultiply(price: int, quantity: int, balance: int)
    requires balance as real == Cost(price, quantity)
    ensures Times(Value(price), Value(quantity)) == Value(balance)
  {
    ValueOfProduct(price, quantity, Value(price), Value(quantity));
  }

  /** Prices and quantities that are multiples of 1/256 are paid by exactly their cost. */
  lemma EqualFundsPassOnDyadics(balance: int, price: int, quantity: int, fp: real, fq: real, b: real, cost: real)
    requires 0 <= balance && 0 <= price && Fits(price) && 0 <= quantity && Fits(quantity)
    requires balance as real == Cost(price, quantity) && price % 390_625 == 0 && quantity % 390_625 == 0
    requires Rounds(ENGINE_BITS, Value(price), fp) && Rounds(ENGINE_BITS, Value(quantity), fq)
    requires Rounds(ENGINE_BITS, Times(fp, fq), cost) && Rounds(ENGINE_BITS, Value(balance), b)
    ensures cost == b
  {
    ParsesExactly(ENGINE_BITS, price, fp);
    ParsesExactly(ENGINE_BITS, quantity, fq);
    ValuesMultiply(price, quantity, balance);
    RoundsIsAFunction(ENGINE_BITS, Value(balance), cost, b);
  }

  /** The balances that a trade stores are the exactly rounded ones, unless the cost is a tie. */
  lemma TradeBalancesAreExact(balance: int, price: int, quantity: int, b: real, cost: real, rest: real, sum: real)
    requires 0 <= balance && Fits(balance) && 0 <= price && 0 <= quantity
    requires Cost(price, quantity) < NUMERIC_LIMIT as real && !IsTie(Cost(price, quantity))
    requires Rounds(ENGINE_BITS, Value(balance), b) && ComputesCost(ENGINE_BITS, price, quantity, cost)
    ensures cost <= b && Rounds(ENGINE_BITS, b - cost, rest) ==> Format(rest) == Nearest(balance as real - Cost(price, quantity))
    ensures Rounds(ENGINE_BITS, b + cost, sum) ==> Format(sum) == Nearest(balance as real + Cost(price, quantity))
  {
    var c, n := Cost(price, quantity), price * quantity;
    BinaryPosting(balance, price, quantity, b, cost);
    if cost <= b && Rounds(ENGINE_BITS, b - cost, rest) {
      DebitIsExact(balance, n, c, b, cost, rest);
    }
    if Rounds(ENGINE_BITS, b + cost, sum) {
      CreditIsExact(balance, n, c, b, cost, sum);
    }
  }

  /** Funds that match the cost to the last digit can be refused: 0.9 does not pay for 3 at 0.3. */
  lemma ExactFundsCanSeemShort() returns (b: real, cost: real)
    ensures Cost(30_000_000, 300_000_000) == 90_000_000.0
    ensures Rounds(ENGINE_BITS, Value(90_000_000), b) && ComputesCost(ENGINE_BITS, 30_000_000, 300_000_000, cost)
    ensures b < cost
  {
    BigPowers();
    Pow2Doubles(126);
    Pow2Doubles(127);
    Pow2Doubles(128);
    Pow2Inverse(128);
    Pow2Inverse(129);
    var fine := 1.0 / 340282366920938463463374607431768211456.0;
    assert Pow2(-128) == fine && Pow2(-129) == fine / 2.0;
    b := 306254130228844617117037146688591390310.0 * fine;
    RoundsTo(128, Value(90_000_000), 0, 306254130228844617117037146688591390310, Pow2(128), fine);
    var fp, fq := 204169420152563078078024764459060926874.0 * (fine / 2.0), 3.0;
    RoundsTo(128, Value(30_000_000), -1, 204169420152563078078024764459060926874, Pow2(129), fine / 2.0);
    RoundsTo(128, Value(300_000_000), 2, 255211775190703847597530955573826158592, Pow2(126), 4.0 * fine);
    cost := 306254130228844617117037146688591390311.0 * fine;
    RoundsTo(128, Times(fp, fq), 0, 306254130228844617117037146688591390311, Pow2(128), fine);
  }

  // ----- Order status -----

  /** A fill that leaves a unit or more is never taken for the last one. */
  lemma StatusIsNeverEarly(p: nat, filled: int, fill: int, total: int, f: real, q: real, t: real, sum: real)
    requires 70 <= p && 0 <= filled && 0 <= fill && filled + fill < total && Fits(total)
    requires Rounds(p, Value(filled), f) && Rounds(p, Value(fill), q) && Rounds(p, Value(total), t)
    requires Rounds(p, f + q, sum)
    ensures sum < t
  {
    var error := Pow2(39 - p);
    SmallError(p, error);
    ParsedError(p, filled, f, error);
    ParsedError(p, fill, q, error);
    ParsedError(p, total, t, error);
    SumError(p, f + q, sum, error);
    OneUnitApart(Value(filled), Value(fill), Value(total), f, q, t, sum, error);
  }

  lemma SmallError(p: nat, error: real)
    requires 70 <= p && error == Pow2(39 - p)
    ensures 0.0 < error < 0.000000001
  {
    Literals();
    Pow2Doubles(-31);
    Pow2Monotone(39 - p, -31);
    Pow2Positive(39 - p);
  }

  lemma ParsedError(p: nat, units: int, y: real, error: real)
    requires 0 <= units && Fits(units) && Rounds(p, Value(units), y) && error == Pow2(39 - p)
    ensures -error <= y - Value(units) <= error && 0.0 <= y
  {
    Literals();
    RoundError(p, Value(units), y, 40);
    NonNegative(p, Value(units), y);
  }

  lemma SumError(p: nat, x: real, y: real, error: real)
    requires 0.0 <= x < 2000000000000.0 && Rounds(p, x, y) && error == Pow2(39 - p)
    ensures -2.0 * error <= y - x <= 2.0 * error
  {
    Literals();
    Pow2Doubles(40);
    Pow2Doubles(39 - p);
    RoundError(p, x, y, 41);
  }

  lemma OneUnitApart(v: real, w: real, whole: real, f: real, q: real, t: real, sum: real, error: real)
    requires v + w + 0.00000001 <= whole && 0.0 < error < 0.000000001
    requires -error <= f - v <= error && -error <= q - w <= error && -error <= t - whole <= error
    requires -2.0 * error <= sum - (f + q) <= 2.0 * error
    ensures sum < t
  {
  }

  lemma BigPowers()
    ensures Pow2(126) == 85070591730234615865843651857942052864.0 && Pow2(131) == 32.0 * Pow2(126)
    ensures Pow2(126) * Pow2(-126) == 1.0 && Pow2(131) * Pow2(-131) == 1.0
    ensures Pow2(-4) == 0.0625 && Pow2(-3) == 0.125 && Pow2(1) == 2.0 && Pow2(2) == 4.0
  {
    Literals();
    Pow2Adds(40, 40);
    Pow2Adds(80, 40);
    assert Pow2(5) == 32.0 by { assert Pow2(3) == 8.0; }
    Pow2Adds(120, 5);
    Pow2Doubles(125);
    Pow2Adds(126, 5);
    Pow2Inverse(126);
    Pow2Inverse(131);
  }

  /**
   The last fill can go unnoticed: an order for 2.2 that has filled 0.1 and then fills 2.1 adds
   up to less than 2.2 in 128 bits, so it stays PARTIALLY_FILLED with nothing remaining.
   */
  lemma StatusCanMissTheLastFill() returns (f: real, q: real, t: real, sum: real)
    ensures Rounds(ENGINE_BITS, Value(10_000_000), f) && Rounds(ENGINE_BITS, Value(210_000_000), q)
    ensures Rounds(ENGINE_BITS, Value(220_000_000), t) && Rounds(ENGINE_BITS, f + q, sum)
    ensures sum < t
  {
    BigPowers();
    var fine := 1.0 / 85070591730234615865843651857942052864.0;
    assert Pow2(-126) == fine && Pow2(-131) == fine / 32.0;
    f := 272225893536750770770699685945414569165.0 * (fine / 32.0);
    RoundsTo(128, Value(10_000_000), -3, 272225893536750770770699685945414569165, Pow2(131), fine / 32.0);
    q := 178648242633492693318271668901678311014.0 * fine;
    RoundsTo(128, Value(210_000_000), 2, 178648242633492693318271668901678311014, Pow2(126), fine);
    t := 187155301806516154904856034087472516301.0 * fine;
    RoundsTo(128, Value(220_000_000), 2, 187155301806516154904856034087472516301, Pow2(126), fine);
    sum := 187155301806516154904856034087472516300.0 * fine;
    RoundsTo(128, f + q, 2, 187155301806516154904856034087472516300, Pow2(126), fine);
  }

  /**
   A last fill is noticed whenever the two parsed numbers add up to the whole quantity or more,
   before the sum is rounded.
   */
  lemma LastFillIsNoticedAbove(p: nat, total: int, f: real, q: real, t: real, sum: real)
    requires 1 <= p && 0 <= total && Value(total) <= f + q
    requires Rounds(p, Value(total), t) && Rounds(p, f + q, sum)
    ensures t <= sum
  {
    RoundsMonotone(p, Value(total), f + q, t, sum);
  }

  /** Stored numbers compare in binary as they do in decimals. */
  lemma ComparisonsAreExact(p: nat, a: int, b: int, x: real, y: real)
    requires 70 <= p && 0 <= a && Fits(a) && 0 <= b && Fits(b) && Rounds(p, Value(a), x) && Rounds(p, Value(b), y)
    ensures x < y <==> a < b
    ensures x == y <==> a == b
  {
    var error := Pow2(39 - p);
    SmallError(p, error);
    ParsedError(p, a, x, error);
    ParsedError(p, b, y, error);
    if a == b {
      RoundsIsAFunction(p, Value(a), x, y);
    }
  }

  /** An order that its first trade fills completely is always marked FILLED. */
  lemma FirstFillIsNoticed(p: nat, total: int, f: real, q: real, t: real, sum: real)
    requires 1 <= p && 0 <= total
    requires Rounds(p, Value(0), f) && Rounds(p, Value(total), q) && Rounds(p, Value(total), t)
    requires Rounds(p, f + q, sum)
    ensures sum == t
  {
    RoundsIsAFunction(p, Value(total), q, t);
    RoundingIsIdempotent(p, Value(total), q);
    RoundsIsAFunction(p, q, sum, q);
  }

  lemma ParsesExactly(p: nat, units: int, y: real)
    requires 60 <= p && 0 <= units < 2 * NUMERIC_LIMIT && units % 390_625 == 0 && Rounds(p, Value(units), y)
    ensures y == Value(units)
  {
    Literals();
    Pow2Doubles(40);
    assert Value(units) == (2 * (units / 390_625)) as real / 512.0;
    DyadicIsExact(p, 2 * (units / 390_625), y);
  }

  lemma MultiplesAdd(a: int, b: int)
    requires a % 390_625 == 0 && b % 390_625 == 0
    ensures (a + b) % 390_625 == 0
  {
  }

  lemma ValuesAdd(a: int, b: int)
    ensures Value(a) + Value(b) == Value(a + b)
    ensures Value(a) <= Value(b) <==> a <= b
  {
  }

  /** Whole quantities, and all multiples of 1/256, get the status that exact decimals give. */
  lemma StatusIsExactOnDyadics(p: nat, filled: int, fill: int, total: int, f: real, q: real, t: real, sum: real)
    requires 60 <= p && 0 <= filled && Fits(filled) && 0 <= fill && Fits(fill) && 0 <= total && Fits(total)
    requires filled % 390_625 == 0 && fill % 390_625 == 0 && total % 390_625 == 0
    requires Rounds(p, Value(filled), f) && Rounds(p, Value(fill), q) && Rounds(p, Value(total), t)
    requires Rounds(p, f + q, sum)
    ensures t <= sum <==> total <= filled + fill
  {
    ParsesExactly(p, filled, f);
    ParsesExactly(p, fill, q);
    ParsesExactly(p, total, t);
    MultiplesAdd(filled, fill);
    ValuesAdd(filled, fill);
    ParsesExactly(p, filled + fill, sum);
    ValuesAdd(total, filled + fill);
  }

  // ----- The nightly comparisons -----

  /** Below 2^35 and of whatever sign, equal numbers are never reported and numbers two units apart always are. */
  lemma ReconciliationDecides(balance: int, rows: int, b: real, s: real, diff: real, limit: real)
    requires -Pow2(35) < Value(balance) < Pow2(35) && -Pow2(35) < Value(rows) < Pow2(35)
    requires Rounds(SERVICE_BITS, Value(balance), b) && Rounds(SERVICE_BITS, Value(rows), s)
    requires Rounds(SERVICE_BITS, b - s, diff) && Rounds(SERVICE_BITS, Value(1), limit)
    ensures balance == rows ==> -limit <= diff <= limit
    ensures balance - rows >= 2 ==> diff > limit
    ensures rows - balance >= 2 ==> diff < -limit
  {
    NonNegative(SERVICE_BITS, Value(1), limit);
    if balance == rows {
      RoundsIsAFunction(SERVICE_BITS, Value(balance), b, s);
    } else {
      SmallParsed(Value(balance), b);
      SmallParsed(Value(rows), s);
      SmallDifference(b - s, diff, Value(balance), Value(rows), b, s);
      SmallLimit(limit);
      FarApart(Value(balance), Value(rows), b, s, diff, limit);
    }
  }

  lemma SmallParsed(x: real, y: real)
    requires -Pow2(35) < x < Pow2(35) && Rounds(SERVICE_BITS, x, y)
    ensures -0.000000001 <= y - x <= 0.000000001
  {
    Literals();
    SignedError(SERVICE_BITS, x, y, 35);
  }

  lemma SmallDifference(x: real, y: real, v: real, w: real, b: real, s: real)
    requires x == b - s && -Pow2(35) < v < Pow2(35) && -Pow2(35) < w < Pow2(35)
    requires -0.000000001 <= b - v <= 0.000000001 && -0.000000001 <= s - w <= 0.000000001 && Rounds(SERVICE_BITS, x, y)
    ensures -0.000000004 <= y - x <= 0.000000004
  {
    Literals();
    Pow2Doubles(-30);
    Pow2Doubles(-29);
    Pow2Doubles(35);
    Pow2Doubles(36);
    Pow2Monotone(0, 35);
    SignedError(SERVICE_BITS, x, y, 37);
  }

  lemma SmallLimit(limit: real)
    requires Rounds(SERVICE_BITS, Value(1), limit)
    ensures -0.000000001 <= limit - 0.00000001 <= 0.000000001
  {
    Literals();
    Pow2Monotone(-65, -30);
    RoundError(SERVICE_BITS, Value(1), limit, 0);
  }

  lemma FarApart(v: real, w: real, b: real, s: real, diff: real, limit: real)
    requires -0.000000001 <= b - v <= 0.000000001 && -0.000000001 <= s - w <= 0.000000001
    requires -0.000000004 <= diff - (b - s) <= 0.000000004 && -0.000000001 <= limit - 0.00000001 <= 0.000000001
    ensures v - w >= 0.00000002 ==> diff > limit
    ensures w - v >= 0.00000002 ==> diff < -limit
  {
  }

  /** One unit apart, which exact decimals tolerate, can be reported: 1.00000001 against 1. */
  lemma OneUnitCanRaiseAlarm() returns (b: real, s: real, diff: real, limit: real)
    ensures Rounds(SERVICE_BITS, Value(100_000_001), b) && Rounds(SERVICE_BITS, Value(100_000_000), s)
    ensures Rounds(SERVICE_BITS, b - s, diff) && Rounds(SERVICE_BITS, Value(1), limit)
    ensures diff > limit
  {
    Powers64();
    var fine, finer := 1.0 / 9223372036854775808.0, 1.0 / 1237940039285380274899124224.0;
    assert Pow2(-63) == fine && Pow2(-90) == finer;
    b, s := 9223372129088496177.0 * fine, 9223372036854775808.0 * fine;
    RoundsTo(64, Value(100_000_001), 1, 9223372129088496177, Pow2(63), fine);
    RoundsTo(64, Value(100_000_000), 1, 9223372036854775808, Pow2(63), fine);
    diff, limit := 12379400392914501632.0 * finer, 12379400392853802749.0 * finer;
    RoundsTo(64, b - s, -26, 12379400392914501632, Pow2(90), finer);
    RoundsTo(64, Value(1), -26, 12379400392853802749, Pow2(90), finer);
  }

  /** For costs below 256 that are no tie, the settlement check recomputes the amount that the engine posted. */
  lemma AuditCostIsExact(price: int, quantity: int, cost: real)
    requires 0 <= price && 0 <= quantity
    requires Cost(price, quantity) < 256.0 * UNITS_PER_ONE && !IsTie(Cost(price, quantity))
    requires ComputesCost(SERVICE_BITS, price, quantity, cost)
    ensures Format(cost) == Nearest(Cost(price, quantity))
  {
    var c, d := Cost(price, quantity), Pow2(-64);
    CostNonNegative(price, quantity);
    NarrowEpsilon(d);
    FiveRoundings(c, d);
    HalvesAreFar(price * quantity, c);
    CostAgrees(SERVICE_BITS, price, quantity, cost, d);
  }

  lemma NarrowEpsilon(d: real)
    requires d == Pow2(-64)
    ensures 0.0 <= d <= 0.000000000000000000055
  {
    Powers64();
    Pow2Doubles(-64);
    Pow2Positive(-64);
  }

  lemma FiveRoundings(c: real, d: real)
    requires 0.0 <= c <= 25_600_000_000.0 && 0.0 <= d <= 0.000000000000000000055
    ensures 5.0 * Times(d, c) < 0.00000001
  {
    MulBounds(d, 0.0, 0.000000000000000000055, c);
  }

  lemma HalvesAreFar(n: int, x: real)
    requires x == n as real / UNITS_PER_ONE && !IsTie(x)
    ensures 0.00000001 <= FromHalf(x)
  {
    var below, rest := n / 100_000_000, n % 100_000_000;
    assert x == below as real + rest as real / UNITS_PER_ONE;
    assert x.Floor == below;
    assert rest != 50_000_000;
  }

  /** Farther up it can look for an amount that nobody posted: here one unit too much. */
  lemma AuditCanMissPostedCost() returns (cost: real)
    ensures !IsTie(Cost(7_000_001, 10_000_056_999_999))
    ensures ComputesCost(SERVICE_BITS, 7_000_001, 10_000_056_999_999, cost)
    ensures Format(cost) == Nearest(Cost(7_000_001, 10_000_056_999_999)) + 1
  {
    var f67, f47, f51 := 1.0 / 147573952589676412928.0, 1.0 / 140737488355328.0, 1.0 / 2251799813685248.0;
    var price, quantity := 10330178157016874802.0 * f67, 14073829055899755162.0 * f47;
    cost := 15762690794420374726.0 * f51;
    ParsedPrice(f67);
    ParsedQuantity(f47);
    RoundedCost(f67, f47, f51);
    CloseToTie();
    NearestIsClosest(cost * UNITS_PER_ONE, 700004090001);
  }

  lemma CloseToTie()
    ensures var c := Cost(7_000_001, 10_000_056_999_999); !IsTie(c) && Nearest(c) == 700004090000
  {
    var c := Cost(7_000_001, 10_000_056_999_999);
    assert c == 700004090000.49999999;
    assert c.Floor == 700004090000;
  }

  lemma ParsedPrice(f67: real)
    requires f67 == 1.0 / 147573952589676412928.0
    ensures Rounds(SERVICE_BITS, Value(7_000_001), 10330178157016874802.0 * f67)
  {
    Powers64();
    assert Pow2(-67) == f67;
    RoundsTo(64, Value(7_000_001), -3, 10330178157016874802, Pow2(67), f67);
  }

  lemma ParsedQuantity(f47: real)
    requires f47 == 1.0 / 140737488355328.0
    ensures Rounds(SERVICE_BITS, Value(10_000_056_999_999), 14073829055899755162.0 * f47)
  {
    Powers64();
    assert Pow2(-47) == f47;
    RoundsTo(64, Value(10_000_056_999_999), 17, 14073829055899755162, Pow2(47), f47);
  }

  lemma RoundedCost(f67: real, f47: real, f51: real)
    requires f67 == 1.0 / 147573952589676412928.0 && f47 == 1.0 / 140737488355328.0 && f51 == 1.0 / 2251799813685248.0
    ensures Rounds(SERVICE_BITS, Times(10330178157016874802.0 * f67, 14073829055899755162.0 * f47), 15762690794420374726.0 * f51)
  {
    Powers64();
    assert Pow2(-51) == f51;
    var price, quantity := 10330178157016874802.0 * f67, 14073829055899755162.0 * f47;
    RoundsTo(64, Times(price, quantity), 13, 15762690794420374726, Pow2(51), f51);
  }

  lemma Powers64()
    ensures Pow2(63) * Pow2(-63) == 1.0 && Pow2(63) == 9223372036854775808.0
    ensures Pow2(90) * Pow2(-90) == 1.0 && Pow2(90) == 1237940039285380274899124224.0
    ensures Pow2(67) * Pow2(-67) == 1.0 && Pow2(67) == 147573952589676412928.0
    ensures Pow2(47) * Pow2(-47) == 1.0 && Pow2(47) == 140737488355328.0
    ensures Pow2(51) * Pow2(-51) == 1.0 && Pow2(51) == 2251799813685248.0
    ensures Pow2(-27) == 1.0 / 134217728.0 && Pow2(-26) == 1.0 / 67108864.0
    ensures Pow2(-4) == 0.0625 && Pow2(-3) == 0.125 && Pow2(0) == 1.0 && Pow2(1) == 2.0
    ensures Pow2(12) == 4096.0 && Pow2(13) == 8192.0 && Pow2(16) == 65536.0 && Pow2(17) == 131072.0
  {
    Literals();
    assert Pow2(7) == 128.0 && Pow2(3) == 8.0 && Pow2(2) == 4.0;
    Pow2Adds(10, 2);
    Pow2Adds(10, 3);
    Pow2Adds(13, 3);
    Pow2Adds(10, 7);
    Pow2Adds(40, 7);
    Pow2Doubles(47);
    Pow2Adds(48, 3);
    Pow2Adds(51, 12);
    Pow2Adds(40, 10);
    Pow2Adds(50, 40);
    Pow2Adds(50, 17);
    Pow2Inverse(63);
    Pow2Inverse(90);
    Pow2Inverse(67);
    Pow2Inverse(47);
    Pow2Inverse(51);
    Pow2Doubles(-28);
    Pow2Doubles(-27);
  }
}
