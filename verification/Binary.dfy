/**
 Binary floating point with p bits, rounded to nearest with ties to even: the errors of
 one rounding and of a rounded product, and the round trip from eight decimals and back.
 */
module Binary {
  import opened Money

  const SERVICE_BITS := 64
  const ENGINE_BITS := 128

  function Pow2(e: int): real
    decreases if e < 0 then -e else e
  {
    if e == 0 then 1.0 else if e > 0 then 2.0 * Pow2(e - 1) else Pow2(e + 1) / 2.0
  }

  /** `y` is `x` rounded to `p` significant bits, ties to even. */
  ghost predicate Rounds(p: nat, x: real, y: real) {
    if x == 0.0 then y == 0.0 else if x < 0.0 then RoundsPositive(p, -x, -y) else RoundsPositive(p, x, y)
  }

  /** The same, of a positive number. */
  ghost predicate RoundsPositive(p: nat, x: real, y: real) {
    exists e: int :: InBinade(x, e) && y == RoundIn(p, x, e)
  }

  predicate InBinade(x: real, e: int) {
    Pow2(e - 1) <= x < Pow2(e)
  }

  function Times(a: real, b: real): real {
    a * b
  }

  function RoundIn(p: nat, x: real, e: int): real {
    Times(Nearest(Times(x, Pow2(p - e))) as real, Pow2(e - p))
  }

  /** The decimal value of a number of units. */
  function Value(units: int): real {
    units as real / UNITS_PER_ONE
  }

  function Format(y: real): int {
    Nearest(y * UNITS_PER_ONE)
  }

  // ----- Powers of two -----

  lemma {:induction false} Pow2Positive(e: int)
    ensures 0.0 < Pow2(e)
    decreases if e < 0 then -e else e
  {
    if e > 0 { Pow2Positive(e - 1); } else if e < 0 { Pow2Positive(e + 1); }
  }

  lemma Pow2Doubles(e: int)
    ensures Pow2(e + 1) == 2.0 * Pow2(e)
  {
  }

  lemma {:induction false} Pow2Adds(a: int, n: nat)
    ensures Pow2(a + n) == Pow2(a) * Pow2(n)
  {
    if n > 0 {
      Pow2Adds(a, n - 1);
      Pow2Doubles(a + n - 1);
    }
  }

  lemma Pow2Inverse(e: int)
    ensures Pow2(e) * Pow2(-e) == 1.0
  {
    if e >= 0 { Pow2Adds(-e, e); } else { Pow2Adds(e, -e); }
  }

  lemma {:induction false} Pow2Monotone(a: int, b: int)
    requires a <= b
    ensures Pow2(a) <= Pow2(b)
    decreases b - a
  {
    if a < b {
      Pow2Monotone(a, b - 1);
      Pow2Doubles(b - 1);
      Pow2Positive(b - 1);
    }
  }

  lemma {:induction false} Pow2Splits(a: int, p: nat, high: real, low: real)
    requires high == Pow2(a) && low == Pow2(0 - p)
    ensures Pow2(a - p) == Times(high, low)
    decreases p
  {
    if p > 0 {
      var twice := 2.0 * low;
      Pow2Doubles(0 - p);
      Pow2Splits(a, p - 1, high, twice);
      Pow2Doubles(a - p);
      assert high * twice == 2.0 * (high * low);
    }
  }

  lemma Pow2Scales(a: int, b: int, x: real, y: real)
    requires x == Pow2(a) && y == Pow2(b)
    ensures Pow2(a + b) == Times(x, y)
  {
    if b >= 0 {
      Pow2Adds(a, b);
    } else {
      Pow2Splits(a, -b, x, y);
    }
  }

  lemma Associates(a: real, b: real, c: real, ab: real)
    requires Times(b, c) == 1.0 && ab == Times(a, b)
    ensures Times(ab, c) == a
  {
    assert a * b * c == a * (b * c);
  }

  lemma Reciprocal(e: int, high: real, low: real)
    requires high == Pow2(-e) && low == Pow2(e)
    ensures Times(low, high) == 1.0
  {
    Pow2Scales(e, -e, low, high);
  }

  // ----- Rounding error -----

  lemma MulBounds(a: real, low: real, high: real, scale: real)
    requires low <= a <= high && 0.0 <= scale
    ensures Times(low, scale) <= Times(a, scale) <= Times(high, scale)
  {
  }

  lemma ScaledError(u: real, n: real, scale: real, x: real)
    requires 0.0 < scale && Times(u, scale) == x && -0.5 <= u - n <= 0.5
    ensures -scale / 2.0 <= Times(n, scale) - x <= scale / 2.0
  {
    var d := n - u;
    MulBounds(d, -0.5, 0.5, scale);
    assert Times(u + d, scale) == Times(u, scale) + Times(d, scale);
  }

  /** At most half a unit in the last place. */
  lemma RoundInError(p: nat, x: real, e: int)
    ensures -Pow2(e - p - 1) <= RoundIn(p, x, e) - x <= Pow2(e - p - 1)
  {
    var high, low := Pow2(p - e), Pow2(e - p);
    var u := Times(x, high);
    Reciprocal(p - e, low, high);
    Associates(x, high, low, u);
    Pow2Positive(e - p);
    ScaledError(u, Nearest(u) as real, low, x);
    Pow2Doubles(e - p - 1);
  }

  /** Below 2^k the error is at most 2^(k-p-1). */
  lemma RoundError(p: nat, x: real, y: real, k: int)
    requires 0.0 <= x < Pow2(k) && Rounds(p, x, y)
    ensures -Pow2(k - p - 1) <= y - x <= Pow2(k - p - 1)
  {
    Pow2Positive(k - p - 1);
    if x != 0.0 {
      var e: int :| InBinade(x, e) && y == RoundIn(p, x, e);
      if k < e {
        Pow2Monotone(k, e - 1);
      }
      RoundInError(p, x, e);
      Pow2Monotone(e - p - 1, k - p - 1);
    }
  }

  /** Of either sign. */
  lemma SignedError(p: nat, x: real, y: real, k: int)
    requires -Pow2(k) < x < Pow2(k) && Rounds(p, x, y)
    ensures -Pow2(k - p - 1) <= y - x <= Pow2(k - p - 1)
  {
    if x < 0.0 {
      assert Rounds(p, -x, -y);
      RoundError(p, -x, -y, k);
    } else {
      RoundError(p, x, y, k);
    }
  }

  lemma BinadeIsUnique(x: real, d: int, e: int)
    requires InBinade(x, d) && InBinade(x, e)
    ensures d == e
  {
    if d < e {
      Pow2Monotone(d, e - 1);
    } else if e < d {
      Pow2Monotone(e, d - 1);
    }
  }

  lemma RoundsIsAFunction(p: nat, x: real, y: real, z: real)
    requires Rounds(p, x, y) && Rounds(p, x, z)
    ensures y == z
  {
    if x < 0.0 {
      var d: int :| InBinade(-x, d) && -y == RoundIn(p, -x, d);
      var e: int :| InBinade(-x, e) && -z == RoundIn(p, -x, e);
      BinadeIsUnique(-x, d, e);
    } else if x > 0.0 {
      var d: int :| InBinade(x, d) && y == RoundIn(p, x, d);
      var e: int :| InBinade(x, e) && z == RoundIn(p, x, e);
      BinadeIsUnique(x, d, e);
    }
  }

  /** `x'` is `x` up to a relative error of `d`. */
  predicate IsRelativelyNear(x: real, x': real, d: real) {
    -Times(x, d) <= x' - x <= Times(x, d)
  }

  /** The error is also small relative to the number: at most 2^-p of it. */
  lemma RelativeError(p: nat, x: real, y: real, d: real)
    requires 0.0 <= x && Rounds(p, x, y) && d == Pow2(0 - p)
    ensures IsRelativelyNear(x, y, d)
  {
    if x != 0.0 {
      var e: int :| InBinade(x, e) && y == RoundIn(p, x, e);
      RoundInError(p, x, e);
      HalfUlpIsRelative(p, x, e, d);
    }
  }

  lemma HalfUlpIsRelative(p: nat, x: real, e: int, d: real)
    requires InBinade(x, e) && d == Pow2(0 - p)
    ensures Pow2(e - p - 1) <= Times(x, d)
  {
    var low := Pow2(e - 1);
    Pow2Splits(e - 1, p, low, d);
    Pow2Positive(0 - p);
    MulBounds(low, low, x, d);
  }

  // ----- Literal powers -----

  lemma Literals()
    ensures Pow2(10) == 1024.0 && Pow2(-10) == 1.0 / 1024.0
    ensures Pow2(-28) == 1.0 / 268435456.0 && Pow2(-30) == 1.0 / 1073741824.0
    ensures Pow2(40) == 1099511627776.0
  {
    assert Pow2(5) == 32.0 by { assert Pow2(3) == 8.0; }
    Pow2Adds(5, 5);
    Pow2Adds(10, 10);
    Pow2Adds(20, 20);
    Pow2Inverse(10);
    Pow2Adds(-10, 10);
    Pow2Adds(-20, 10);
    Pow2Adds(-30, 10);
    Pow2Adds(-30, 20);
    assert Pow2(-30) * Pow2(20) == Pow2(-10);
    assert Pow2(2) == 4.0;
    Pow2Adds(-30, 2);
  }

  // ----- Parsing and formatting -----

  /** A result within half a unit formats as that unit. */
  lemma FormatsAs(y: real, units: int, error: real)
    requires -error <= y - Value(units) <= error && error * UNITS_PER_ONE < 0.5
    ensures Format(y) == units
  {
    MulBounds(y - Value(units), -error, error, UNITS_PER_ONE);
    NearestIsClosest(y * UNITS_PER_ONE, units);
  }

  /** Eight decimals survive p bits below 2^(p-27). */
  lemma RoundTrip(p: nat, units: int, y: real)
    requires 0 <= units && Value(units) < Pow2(p - 27) && Rounds(p, Value(units), y)
    ensures Format(y) == units
  {
    RoundError(p, Value(units), y, p - 27);
    Literals();
    FormatsAs(y, units, Pow2(-28));
  }

  /** At 128 bits that is every value of a NUMERIC(20,8) column. */
  lemma NumericRoundTrip(units: int, y: real)
    requires 0 <= units && Fits(units) && Rounds(ENGINE_BITS, Value(units), y)
    ensures Format(y) == units
  {
    Literals();
    Pow2Monotone(40, ENGINE_BITS - 27);
    RoundTrip(ENGINE_BITS, units, y);
  }

  lemma RoundsTo(p: nat, x: real, e: int, n: int, high: real, low: real)
    requires 0.0 < x && InBinade(x, e) && high == Pow2(p - e) && low == Pow2(e - p)
    requires -0.5 < Times(x, high) - n as real < 0.5
    ensures Rounds(p, x, Times(n as real, low))
  {
    NearestIsClosest(Times(x, high), n);
    assert RoundIn(p, x, e) == Times(n as real, low);
  }

  /** The bound is sharp at 64 bits: two units above 2^37 a balance already comes back one unit short. */
  lemma RoundTripBreaks() returns (y: real)
    ensures Value(13743895347200000002) - Pow2(SERVICE_BITS - 27) == 0.00000002
    ensures Rounds(SERVICE_BITS, Value(13743895347200000002), y) && Format(y) == 13743895347200000001
  {
    Literals();
    Pow2Adds(-3, 40);
    assert Pow2(-3) == 0.125 && Pow2(37) == 137438953472.0;
    Pow2Doubles(37);
    assert Pow2(5) == 32.0 by { assert Pow2(3) == 8.0; }
    Pow2Adds(10, 10);
    Pow2Adds(20, 5);
    Pow2Doubles(25);
    Pow2Inverse(26);
    var fine := 1.0 / 67108864.0;
    assert Pow2(26) == 67108864.0 && Pow2(-26) == fine;
    y := 9223372036854775809.0 * fine;
    RoundsTo(64, Value(13743895347200000002), 38, 9223372036854775809, Pow2(26), fine);
    NearestIsClosest(y * UNITS_PER_ONE, 13743895347200000001);
  }

  lemma NonNegative(p: nat, x: real, y: real)
    requires 0.0 <= x && Rounds(p, x, y)
    ensures 0.0 <= y
  {
    if x != 0.0 {
      var e: int :| InBinade(x, e) && y == RoundIn(p, x, e);
      RoundInNonNegative(p, x, e, Pow2(p - e), Pow2(e - p));
    }
  }

  lemma RoundInNonNegative(p: nat, x: real, e: int, high: real, low: real)
    requires 0.0 <= x && high == Pow2(p - e) && low == Pow2(e - p)
    ensures 0.0 <= RoundIn(p, x, e)
  {
    var u := Times(x, high);
    Pow2Positive(p - e);
    Pow2Positive(e - p);
    TimesNonNegative(x, high);
    NearestOfUnits(0);
    NearestMonotone(0.0, u);
    TimesNonNegative(Nearest(u) as real, low);
    RoundInIs(p, x, e, u, low);
  }

  lemma TimesNonNegative(a: real, b: real)
    requires 0.0 <= a && 0.0 <= b
    ensures 0.0 <= Times(a, b)
  {
  }

  // ----- Errors of products -----

  lemma CrossTerm(x: real, y: real, f: real, d: real)
    requires 0.0 <= x && -(y * d) <= f <= y * d
    ensures -(d * (x * y)) <= x * f <= d * (x * y)
  {
    MulBounds(f, -(y * d), y * d, x);
    assert (y * d) * x == d * (x * y);
    assert -(y * d) * x == -((y * d) * x);
  }

  lemma SecondOrderTerm(x: real, y: real, e: real, f: real, d: real)
    requires 0.0 <= x && 0.0 <= y && 0.0 <= d <= 0.01 && -(x * d) <= e <= x * d && -(y * d) <= f <= y * d
    ensures -(0.01 * (d * (x * y))) <= e * f <= 0.01 * (d * (x * y))
    ensures 0.0 <= d * (x * y)
  {
    SmallProduct(e, f, x * d, y * d);
    assert (x * d) * (y * d) == d * (d * (x * y));
    MulBounds(x, 0.0, x, y);
    MulBounds(d, 0.0, 0.01, x * y);
    MulBounds(d, 0.0, 0.01, d * (x * y));
  }

  /** Relative errors multiply out to little more than their sum. */
  lemma ProductError(x: real, y: real, e: real, f: real, d: real)
    requires 0.0 <= x && 0.0 <= y && 0.0 <= d <= 0.01
    requires -(x * d) <= e <= x * d && -(y * d) <= f <= y * d
    ensures -(3.0 * (d * (x * y))) <= (x + e) * (y + f) - x * y <= 3.0 * (d * (x * y))
  {
    CrossTerm(x, y, f, d);
    CrossTerm(y, x, e, d);
    Swapped(x, y, d);
    SecondOrderTerm(x, y, e, f, d);
    Expands(x, y, e, f);
    ThreeTerms(x * f, y * e, e * f, d * (x * y), (x + e) * (y + f) - x * y);
  }

  lemma Swapped(x: real, y: real, d: real)
    ensures d * (y * x) == d * (x * y)
  {
  }

  lemma ThreeTerms(a: real, b: real, c: real, bound: real, sum: real)
    requires 0.0 <= bound && -bound <= a <= bound && -bound <= b <= bound && -(0.01 * bound) <= c <= 0.01 * bound
    requires sum == a + b + c
    ensures -(3.0 * bound) <= sum <= 3.0 * bound
  {
  }

  lemma Expands(x: real, y: real, e: real, f: real)
    ensures (x + e) * (y + f) - x * y == x * f + y * e + e * f
  {
  }

  /** The product of two factors that are each off by `d`. */
  lemma FactorErrors(x: real, y: real, x': real, y': real, k: real, w: real, d: real)
    requires k == Times(x, y) && w == Times(x', y')
    requires 0.0 <= x && 0.0 <= y && 0.0 <= d <= 0.01 && IsRelativelyNear(x, x', d) && IsRelativelyNear(y, y', d)
    ensures -(3.0 * Times(d, k)) <= w - k <= 3.0 * Times(d, k)
  {
    var e, f := x' - x, y' - y;
    ProductError(x, y, e, f, d);
    assert Times(x + e, y + f) == w;
    assert Times(d, Times(x, y)) == Times(d, k);
  }

  lemma SmallProduct(e: real, f: real, a: real, b: real)
    requires -a <= e <= a && -b <= f <= b
    ensures -(a * b) <= e * f <= a * b
  {
    assert 0.0 <= (a - e) * (b - f) + (a + e) * (b + f) == 2.0 * (a * b + e * f);
    assert 0.0 <= (a - e) * (b + f) + (a + e) * (b - f) == 2.0 * (a * b - e * f);
  }

  lemma LastError(k: real, w: real, d: real)
    requires 0.0 <= k && 0.0 <= d <= 0.01 && w - k <= 3.0 * Times(d, k)
    ensures Times(w, d) <= 2.0 * Times(d, k)
  {
    MulBounds(d, 0.0, 0.01, k);
    var twice := 2.0 * k;
    assert w <= twice;
    MulBounds(w, w, twice, d);
    assert Times(twice, d) == 2.0 * Times(d, k);
  }

  /** One more rounding on top of the error of the factors. */
  lemma LastRounding(k: real, w: real, z: real, d: real)
    requires 0.0 <= k && 0.0 <= d <= 0.01
    requires -(3.0 * Times(d, k)) <= w - k <= 3.0 * Times(d, k) && IsRelativelyNear(w, z, d)
    ensures -(5.0 * Times(d, k)) <= z - k <= 5.0 * Times(d, k)
  {
    LastError(k, w, d);
  }

  lemma RoundedFactors(p: nat, x: real, y: real, x': real, y': real, k: real, w: real, d: real)
    requires 0.0 <= x && 0.0 <= y && k == Times(x, y) && w == Times(x', y') && d == Pow2(0 - p) && 0.0 <= d <= 0.01
    requires Rounds(p, x, x') && Rounds(p, y, y')
    ensures -(3.0 * Times(d, k)) <= w - k <= 3.0 * Times(d, k) && 0.0 <= w
  {
    RelativeError(p, x, x', d);
    RelativeError(p, y, y', d);
    FactorErrors(x, y, x', y', k, w, d);
    NonNegative(p, x, x');
    NonNegative(p, y, y');
    ProductNonNegative(x', y', w);
  }

  lemma ProductNonNegative(x: real, y: real, k: real)
    requires 0.0 <= x && 0.0 <= y && k == Times(x, y)
    ensures 0.0 <= k
  {
  }

  /** A product of parsed numbers is off by at most five times the relative error of one rounding. */
  lemma ProductIsNear(p: nat, x: real, y: real, x': real, y': real, k: real, z: real, d: real)
    requires 0.0 <= x && 0.0 <= y && k == Times(x, y) && d == Pow2(0 - p) && 0.0 <= d <= 0.01
    requires Rounds(p, x, x') && Rounds(p, y, y') && Rounds(p, Times(x', y'), z)
    ensures -(5.0 * Times(d, k)) <= z - k <= 5.0 * Times(d, k)
  {
    var w := Times(x', y');
    RoundedFactors(p, x, y, x', y', k, w, d);
    RelativeError(p, w, z, d);
    ProductNonNegative(x, y, k);
    LastRounding(k, w, z, d);
  }

  // ----- Rounding twice -----

  function IntPow2(n: nat): (m: int)
    ensures m as real == Pow2(n)
  {
    if n == 0 then 1 else 2 * IntPow2(n - 1)
  }

  lemma MulStrict(a: real, b: real, scale: real)
    requires a < b && 0.0 < scale
    ensures Times(a, scale) < Times(b, scale)
  {
  }

  /** Scaled to an integer, a number of p bits lies between 2^(p-1) and 2^p. */
  lemma ScaledBinade(p: nat, x: real, e: int, u: real, high: real)
    requires InBinade(x, e) && high == Pow2(p - e) && u == Times(x, high)
    ensures Pow2(p - 1) <= u < Pow2(p)
  {
    var low, top := Pow2(e - 1), Pow2(e);
    Pow2Positive(p - e);
    MulBounds(low, low, x, high);
    MulStrict(x, top, high);
    Pow2Scales(e - 1, p - e, low, high);
    Pow2Scales(e, p - e, top, high);
  }

  lemma RoundInIs(p: nat, x: real, e: int, u: real, low: real)
    requires low == Pow2(e - p) && u == Times(x, Pow2(p - e))
    ensures RoundIn(p, x, e) == Times(Nearest(u) as real, low)
  {
  }

  /** A multiple of the unit in the last place of its binade needs no rounding. */
  lemma Representable(p: nat, y: real, e: int, n: int, m: real, low: real)
    requires 0.0 < y && InBinade(y, e) && low == Pow2(e - p) && m == n as real && y == Times(m, low)
    ensures Rounds(p, y, y)
  {
    var high := Pow2(p - e);
    Reciprocal(e - p, high, low);
    Associates(m, low, high, y);
    NearestOfUnits(n);
    RoundInIs(p, y, e, m, low);
    assert RoundIn(p, y, e) == y;
  }

  /** Rounding twice is rounding once. */
  lemma RoundingIsIdempotent(p: nat, x: real, y: real)
    requires 1 <= p && 0.0 <= x && Rounds(p, x, y)
    ensures Rounds(p, y, y)
  {
    if x != 0.0 {
      var e: int :| InBinade(x, e) && y == RoundIn(p, x, e);
      RoundInIsRepresentable(p, x, e, y, Pow2(e - p), Times(x, Pow2(p - e)));
    }
  }

  lemma RoundInIsRepresentable(p: nat, x: real, e: int, y: real, low: real, u: real)
    requires 1 <= p && InBinade(x, e) && y == RoundIn(p, x, e) && low == Pow2(e - p) && u == Times(x, Pow2(p - e))
    ensures Rounds(p, y, y)
  {
    var n := Nearest(u);
    var m := n as real;
    ScaledBinade(p, x, e, u, Pow2(p - e));
    RoundedMantissa(p, u);
    RoundInIs(p, x, e, u, low);
    RoundedBinade(p, e, n, m, low, y);
  }

  lemma RoundedMantissa(p: nat, u: real)
    requires 1 <= p && Pow2(p - 1) <= u < Pow2(p)
    ensures IntPow2(p - 1) <= Nearest(u) <= IntPow2(p)
  {
    NearestOfUnits(IntPow2(p - 1));
    NearestOfUnits(IntPow2(p));
    NearestMonotone(IntPow2(p - 1) as real, u);
    NearestMonotone(u, IntPow2(p) as real);
  }

  lemma MantissaBinade(p: nat, e: int, m: real, low: real, y: real)
    requires low == Pow2(e - p) && Pow2(p - 1) <= m <= Pow2(p) && y == Times(m, low)
    ensures Pow2(e - 1) <= y <= Pow2(e)
    ensures m < Pow2(p) ==> y < Pow2(e)
  {
    var half, full := Pow2(p - 1), Pow2(p);
    Pow2Positive(e - p);
    Pow2Scales(p - 1, e - p, half, low);
    Pow2Scales(p, e - p, full, low);
    assert Pow2(e - 1) == Times(half, low) && Pow2(e) == Times(full, low);
    MulBounds(m, half, full, low);
    if m < full {
      MulStrict(m, full, low);
    }
  }

  lemma RoundedBinade(p: nat, e: int, n: int, m: real, low: real, y: real)
    requires 1 <= p && IntPow2(p - 1) <= n <= IntPow2(p) && m == n as real && low == Pow2(e - p) && y == Times(m, low)
    ensures Rounds(p, y, y)
  {
    MantissaBinade(p, e, m, low, y);
    Pow2Positive(e - 1);
    if n < IntPow2(p) {
      Representable(p, y, e, n, m, low);
    } else {
      var half, twice := IntPow2(p - 1) as real, 2.0 * low;
      Pow2Doubles(e - p);
      Pow2Doubles(e);
      Pow2Doubles(e - 1);
      assert Times(half, twice) == Times(2.0 * half, low);
      TopOfBinade(p, e, m, low, y);
      Representable(p, y, e + 1, IntPow2(p - 1), half, twice);
    }
  }

  lemma TopOfBinade(p: nat, e: int, m: real, low: real, y: real)
    requires m == Pow2(p) && low == Pow2(e - p) && y == Times(m, low)
    ensures y == Pow2(e)
  {
    Pow2Scales(p, e - p, m, low);
  }

  // ----- Rounding as a function -----

  /** The exponent of a number: how often it must be halved or doubled to lie between a half and one. */
  function Exponent(x: real): (e: int)
    requires 0.0 < x
    ensures InBinade(x, e)
    decreases if x >= 1.0 then x.Floor else if x >= 0.5 then 0 else (1.0 / x).Floor
  {
    if x >= 1.0 then
      Exponent(x / 2.0) + 1
    else if x < 0.5 then
      HalvesInverse(x);
      Exponent(2.0 * x) - 1
    else 0
  }

  lemma HalvesInverse(x: real)
    requires 0.0 < x < 0.5
    ensures 2.0 < 1.0 / x && 1.0 / (2.0 * x) == (1.0 / x) / 2.0
  {
    assert (1.0 / x) * x == 1.0;
    assert (1.0 / (2.0 * x)) * (2.0 * x) == 1.0;
  }

  /** Every number can be rounded. */
  lemma RoundingExists(p: nat, x: real)
    ensures exists y :: Rounds(p, x, y)
  {
    var e := if x == 0.0 then 0 else Exponent(if x < 0.0 then -x else x);
    var y := if x == 0.0 then 0.0 else if x < 0.0 then -RoundIn(p, -x, e) else RoundIn(p, x, e);
    assert Rounds(p, x, y);
  }

  ghost function Round(p: nat, x: real): (y: real)
    ensures Rounds(p, x, y)
  {
    RoundingExists(p, x);
    var y :| Rounds(p, x, y);
    y
  }

  /** To know one rounding is to know the result. */
  lemma RoundIs(p: nat, x: real, y: real)
    requires Rounds(p, x, y)
    ensures Round(p, x) == y
  {
    RoundsIsAFunction(p, x, Round(p, x), y);
  }

  // ----- Rounding keeps order -----

  lemma RoundInMonotone(p: nat, x: real, y: real, e: int)
    requires x <= y
    ensures RoundIn(p, x, e) <= RoundIn(p, y, e)
  {
    var high, low := Pow2(p - e), Pow2(e - p);
    Pow2Positive(p - e);
    Pow2Positive(e - p);
    MulBounds(x, x, y, high);
    NearestMonotone(Times(x, high), Times(y, high));
    MulBounds(Nearest(Times(x, high)) as real, Nearest(Times(x, high)) as real, Nearest(Times(y, high)) as real, low);
  }

  /** A rounded number stays between the powers of two around it. */
  lemma RoundInBetween(p: nat, x: real, e: int)
    requires 1 <= p && InBinade(x, e)
    ensures Pow2(e - 1) <= RoundIn(p, x, e) <= Pow2(e)
  {
    var u, low := Times(x, Pow2(p - e)), Pow2(e - p);
    ScaledBinade(p, x, e, u, Pow2(p - e));
    RoundedMantissa(p, u);
    RoundInIs(p, x, e, u, low);
    MantissaBinade(p, e, Nearest(u) as real, low, RoundIn(p, x, e));
  }

  lemma RoundsMonotone(p: nat, x: real, y: real, x': real, y': real)
    requires 1 <= p && 0.0 <= x <= y && Rounds(p, x, x') && Rounds(p, y, y')
    ensures x' <= y'
  {
    NonNegative(p, y, y');
    if x != 0.0 {
      var d: int :| InBinade(x, d) && x' == RoundIn(p, x, d);
      var e: int :| InBinade(y, e) && y' == RoundIn(p, y, e);
      if d == e {
        RoundInMonotone(p, x, y, e);
      } else {
        BinadesGrow(x, y, d, e);
        RoundInBetween(p, x, d);
        RoundInBetween(p, y, e);
        Pow2Monotone(d, e - 1);
      }
    }
  }

  lemma BinadesGrow(x: real, y: real, d: int, e: int)
    requires x <= y && InBinade(x, d) && InBinade(y, e) && d != e
    ensures d < e
  {
    if e < d {
      Pow2Monotone(e, d - 1);
    }
  }

  // ----- Values that need no rounding -----

  lemma ScaledDyadic(m: int, p: nat, e: int, high: real)
    requires 9 <= p - e && high == Pow2(p - e)
    ensures Times(m as real / 512.0, high) == (m * IntPow2(p - e - 9)) as real
  {
    var part := IntPow2(p - e - 9);
    Pow2Adds(p - e - 9, 9);
    assert Pow2(9) == 512.0;
    assert high == part as real * 512.0;
    assert (m * part) as real == m as real * part as real;
  }

  /** A multiple of 1/512 in the range of the columns is parsed exactly. */
  lemma DyadicIsExact(p: nat, m: int, y: real)
    requires 60 <= p && 0 <= m && m as real / 512.0 < Pow2(41) && Rounds(p, m as real / 512.0, y)
    ensures y == m as real / 512.0
  {
    var x := m as real / 512.0;
    if m != 0 {
      var e: int :| InBinade(x, e) && y == RoundIn(p, x, e);
      if 41 < e {
        Pow2Monotone(41, e - 1);
        assert false;
      }
      var high, low, n := Pow2(p - e), Pow2(e - p), m * IntPow2(p - e - 9);
      ScaledDyadic(m, p, e, high);
      NearestOfUnits(n);
      RoundInIs(p, x, e, n as real, low);
      Reciprocal(p - e, low, high);
      Associates(x, high, low, n as real);
    }
  }
}
