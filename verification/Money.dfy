/**
 Fixed-point money. A stored NUMERIC(20,8) value is an integer count of units of
 10^-8; an amount that has not been formatted yet is a real number of units.
 */
module Money {

  /** NUMERIC(20,8) holds twelve digits before the point and eight after it. */
  const NUMERIC_LIMIT: int := 100_000_000_000_000_000_000

  const UNITS_PER_ONE: real := 100_000_000.0

  predicate Fits(n: int) {
    -NUMERIC_LIMIT < n < NUMERIC_LIMIT
  }

  predicate IsTie(x: real) {
    x - x.Floor as real == 0.5
  }

  /** `%.8f`: the nearest unit, an exact half going to the even neighbour. */
  function Nearest(x: real): (n: int)
    ensures -0.5 <= x - n as real <= 0.5
    ensures IsTie(x) ==> n % 2 == 0
  {
    var below := x.Floor;
    var rest := x - below as real;
    if rest < 0.5 || (rest == 0.5 && below % 2 == 0) then below else below + 1
  }

  /** Price times quantity, in units. */
  function Cost(price: int, quantity: int): real {
    (price * quantity) as real / UNITS_PER_ONE
  }

  /** The same of numbers that have not been formatted yet. */
  function Asked(price: real, quantity: real): real {
    price * quantity / UNITS_PER_ONE
  }

  lemma NearestOfUnits(n: int)
    ensures Nearest(n as real) == n
  {
  }

  lemma NearestOfTie(n: int)
    ensures Nearest(n as real + 0.5) == if n % 2 == 0 then n else n + 1
  {
    assert (n as real + 0.5).Floor == n;
  }

  /** The nearest unit is the only one closer than a half. */
  lemma NearestIsClosest(x: real, n: int)
    requires -0.5 < x - n as real < 0.5
    ensures Nearest(x) == n
  {
  }

  lemma NearestMonotone(x: real, y: real)
    requires x <= y
    ensures Nearest(x) <= Nearest(y)
  {
  }

  lemma FloorShift(balance: int, x: real)
    ensures (balance as real + x).Floor == balance + x.Floor
  {
  }

  lemma NearestNegated(x: real)
    ensures Nearest(-x) == -Nearest(x)
    ensures IsTie(-x) <==> IsTie(x)
    ensures IsTie(x) ==> (-x).Floor == -x.Floor - 1
  {
    if x == x.Floor as real {
      assert (-x).Floor == -x.Floor;
    } else {
      assert (-x).Floor == -x.Floor - 1;
    }
  }

  /** An integer at most half a unit away: the only one, unless the amount is a tie. */
  predicate IsRounding(x: real, n: int) {
    -0.5 <= n as real - x <= 0.5
  }

  lemma RoundingsAgree(x: real, j: int, k: int)
    requires IsRounding(x, j) && IsRounding(x, k)
    ensures -1 <= j - k <= 1
    ensures !IsTie(x) ==> j == k
  {
    assert -1.0 <= j as real - k as real <= 1.0;
    if j != k {
      var low := if j < k then j else k;
      assert x == low as real + 0.5;
      assert x.Floor == low;
    }
  }

  /** What exact addition puts on a balance beyond the amount that the ledger row shows. */
  function Drift(balance: int, amount: real): int {
    Nearest(balance as real + amount) - balance - Nearest(amount)
  }

  /** With exact addition, balance and ledger part company exactly on a half-unit tie onto an odd balance. */
  lemma DriftExactly(balance: int, amount: real)
    ensures Drift(balance, amount)
         == if !IsTie(amount) || balance % 2 == 0 then 0
            else if amount.Floor % 2 == 0 then 1 else -1
  {
    FloorShift(balance, amount);
  }

  lemma CostGrowsWithPrice(low: int, high: int, quantity: int)
    requires low <= high && 0 <= quantity
    ensures Cost(low, quantity) <= Cost(high, quantity)
  {
    assert low * quantity <= high * quantity;
  }

  lemma CostAdds(price: int, q1: int, q2: int)
    ensures Cost(price, q1 + q2) == Cost(price, q1) + Cost(price, q2)
  {
    assert price * (q1 + q2) == price * q1 + price * q2;
  }

  lemma CostNonNegative(price: int, quantity: int)
    requires 0 <= price && 0 <= quantity
    ensures 0.0 <= Cost(price, quantity)
  {
    assert 0 <= price * quantity;
  }
}
