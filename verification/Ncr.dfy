/** The binomial coefficient of tinyexpr, computed in unsigned long arithmetic. */
module Ncr {

  /** UINT_MAX; ULONG_MAX is a parameter, as it depends on the machine. */
  const UINT_MAX: nat := 0xFFFF_FFFF

  /** A double, without rounding. */
  datatype Double = NotANumber | Infinity | Finite(value: real)

  /** n choose k, by Pascal's rule. */
  function Binomial(n: nat, k: nat): nat {
    if k == 0 then 1 else if n == 0 then 0 else Binomial(n - 1, k - 1) + Binomial(n - 1, k)
  }

  lemma {:induction false} BinomialAbove(n: nat, k: nat)
    requires k > n
    ensures Binomial(n, k) == 0
  {
    if n > 0 {
      BinomialAbove(n - 1, k - 1);
      BinomialAbove(n - 1, k);
    }
  }

  lemma {:induction false} BinomialPositive(n: nat, k: nat)
    requires k <= n
    ensures Binomial(n, k) >= 1
  {
    if 0 < k {
      BinomialPositive(n - 1, k - 1);
    }
  }

  lemma {:induction false} BinomialAll(n: nat)
    ensures Binomial(n, n) == 1
  {
    if n > 0 {
      BinomialAll(n - 1);
      BinomialAbove(n - 1, n);
    }
  }

  lemma {:induction false} Symmetry(n: nat, k: nat)
    requires k <= n
    ensures Binomial(n, k) == Binomial(n, n - k)
  {
    if k == 0 {
      BinomialAll(n);
    } else if k == n {
      BinomialAll(n);
    } else {
      Symmetry(n - 1, k - 1);
      Symmetry(n - 1, k);
    }
  }

  /** k C(n, k) = n C(n-1, k-1) */
  lemma {:induction false} Absorption(n: nat, k: nat)
    requires 1 <= k && 1 <= n
    ensures k * Binomial(n, k) == n * Binomial(n - 1, k - 1)
  {
    if n == 1 {
      BinomialAbove(0, k);
      if k > 1 {
        BinomialAbove(0, k - 1);
        BinomialAbove(1, k);
      }
    } else {
      var a, b := Binomial(n - 1, k - 1), Binomial(n - 1, k);
      assert Binomial(n, k) == a + b;
      Absorption(n - 1, k);
      assert k * b == (n - 1) * Binomial(n - 2, k - 1);
      if k == 1 {
        assert a == 1 && Binomial(n - 2, 0) == 1;
      } else {
        Absorption(n - 1, k - 1);
        var c, d := Binomial(n - 2, k - 2), Binomial(n - 2, k - 1);
        AddUp(n, k, a, b, c, d);
      }
    }
  }

  lemma AddUp(n: nat, k: nat, a: nat, b: nat, c: nat, d: nat)
    requires a == c + d && (k - 1) * a == (n - 1) * c && k * b == (n - 1) * d
    ensures k * (a + b) == n * a
  {
    assert k * (a + b) == (k - 1) * a + a + k * b;
    assert (n - 1) * a == (n - 1) * c + (n - 1) * d;
  }

  function Factorial(n: nat): nat {
    if n == 0 then 1 else n * Factorial(n - 1)
  }

  /** C(n, k) k! (n - k)! = n! */
  lemma {:induction false} BinomialByFactorials(n: nat, k: nat)
    requires k <= n
    ensures Binomial(n, k) * (Factorial(k) * Factorial(n - k)) == Factorial(n)
  {
    if k > 0 {
      var f, g := Factorial(k - 1), Factorial(n - k);
      BinomialByFactorials(n - 1, k - 1);
      Absorption(n, k);
      Regroup(Binomial(n, k), k, f, g);
      Regroup(Binomial(n - 1, k - 1), n, f, g);
    }
  }

  lemma Regroup(b: nat, k: nat, f: nat, g: nat)
    ensures b * ((k * f) * g) == (k * b) * (f * g)
    ensures (k * b) * (f * g) == k * (b * (f * g))
  {
    assert b * (k * (f * g)) == (b * k) * (f * g);
    assert (k * f) * g == k * (f * g);
  }

  /** The partial result after i rounds is C(m + i, i); the next product is
      C(m + i - 1, i - 1) * (m + i), and i divides it. */
  lemma RoundIsExact(m: nat, i: nat)
    requires 1 <= i
    ensures Binomial(m + i - 1, i - 1) * (m + i) == i * Binomial(m + i, i)
  {
    Absorption(m + i, i);
  }

  /** A product of the loop for C(n, k) exceeds the machine's unsigned long: the last
      product is k C(n, k), and no other one is larger. */
  predicate Overflows(n: nat, k: nat, ulongMax: nat) {
    k > 0 && k * Binomial(n, k) > ulongMax
  }

  /** The product of round `i` with n - k == m. */
  function Product(m: nat, i: nat): nat
    requires 1 <= i
  {
    Binomial(m + i - 1, i - 1) * (m + i)
  }

  /** The products grow from round to round. */
  lemma {:induction false} ProductsGrow(m: nat, i: nat, k: nat)
    requires 1 <= i <= k
    ensures Product(m, i) <= Product(m, k) == k * Binomial(m + k, k)
    decreases k
  {
    RoundIsExact(m, k);
    if i < k {
      ProductsGrow(m, i, k - 1);
      var b := Binomial(m + k - 1, k - 1);
      assert Product(m, k) == b * (m + k) && Product(m, k - 1) == (k - 1) * b;
      Multiply(b, k - 1, m + k);
    }
  }

  lemma Multiply(b: nat, x: nat, y: nat)
    requires x <= y
    ensures x * b <= b * y
  {
    assert b * y == b * x + b * (y - x);
  }

  /** The smaller one of r and n - r: the number of rounds. */
  function Rounds(un: nat, ur: nat): nat
    requires ur <= un
  {
    if ur > un / 2 then un - ur else ur
  }

  method Choose(un: nat, r: nat, ulongMax: nat) returns (overflow: bool, result: nat)
    requires r <= un <= UINT_MAX <= ulongMax
    ensures overflow <==> Overflows(un, r, ulongMax)
    ensures !overflow ==> result == Binomial(un, r) && result <= ulongMax
  {
    var m := un - r;
    var i := 1;
    result := 1;
    while i <= r
      invariant 1 <= i <= r + 1
      invariant result == Binomial(m + i - 1, i - 1) && 1 <= result <= ulongMax
      invariant i > 1 ==> Product(m, i - 1) <= ulongMax
    {
      RoundIsExact(m, i);
      BinomialPositive(m + i, i);
      if result > ulongMax / (m + i) {
        QuotientTest(result, m + i, ulongMax);
        ProductsGrow(m, i, r);
        return true, result;
      }
      QuotientTest(result, m + i, ulongMax);
      result := result * (m + i);
      assert result == i * Binomial(m + i, i) && result <= ulongMax;
      ExactQuotient(i, Binomial(m + i, i));
      result := result / i;
      i := i + 1;
    }
    overflow := false;
    if r > 0 {
      ProductsGrow(m, r, r);
    }
  }

  /** The division in the test of the code decides whether the product fits. */
  lemma QuotientTest(a: nat, b: nat, max: nat)
    requires b > 0
    ensures a > max / b <==> a * b > max
  {
    var q, rest := max / b, max % b;
    var d := a - q;
    assert b * q + rest == max;
    assert b * a == b * q + b * d;
    if d > 0 {
      AtLeastFactor(b, d);
    } else {
      assert b * d == -(b * -d);
    }
  }

  lemma ExactQuotient(i: nat, b: nat)
    requires i > 0
    ensures i * b / i == b && b <= i * b
  {
    if b > 0 {
      AtLeastFactor(b, i);
    }
    var q, rest := i * b / i, i * b % i;
    var d := b - q;
    assert i * d == i * b - i * q == rest;
    if d > 0 {
      AtLeastFactor(i, d);
    } else if d < 0 {
      assert i * d == -(i * -d);
      AtLeastFactor(i, -d);
    }
  }

  lemma AtLeastFactor(i: nat, d: nat)
    requires d > 0
    ensures i * d >= i
  {
    assert i * d == i * (d - 1) + i;
  }

  /** ncr of tinyexpr on doubles: NaN outside 0 <= r <= n, INFINITY beyond UINT_MAX,
      and otherwise exactly the binomial coefficient of the truncated arguments
      unless a product exceeds ULONG_MAX. */
  method NCR(n: Double, r: Double, ulongMax: nat) returns (res: Double)
    requires UINT_MAX <= ulongMax
    ensures NotANumber == res <==>
              n.NotANumber? || r.NotANumber? || !AtLeastZero(n) || !AtLeastZero(r) || Less(n, r)
    ensures !res.NotANumber? ==>
      if n.Infinity? || r.Infinity? || n.value > 4294967295.0 || r.value > 4294967295.0 then res == Infinity
      else
        var un, ur := n.value.Floor, r.value.Floor;
        var rounds := Rounds(un, ur);
        if Overflows(un, rounds, ulongMax) then res == Infinity
        else res == Finite(Binomial(un, ur) as real)
  {
    if !AtLeastZero(n) || !AtLeastZero(r) || Less(n, r) {
      return NotANumber;
    }
    if n.Infinity? || r.Infinity? || n.value > UINT_MAX as real || r.value > UINT_MAX as real {
      return Infinity;
    }
    var un, ur: nat := n.value.Floor, r.value.Floor;
    Symmetry(un, ur);
    var overflow, result := Choose(un, Rounds(un, ur), ulongMax);
    return if overflow then Infinity else Finite(result as real);
  }

  /** x >= 0.0; false for NaN */
  predicate AtLeastZero(x: Double) {
    x.Infinity? || (x.Finite? && x.value >= 0.0)
  }

  /** x < y for numbers at least 0 */
  predicate Less(x: Double, y: Double) {
    (x.Finite? && y.Infinity?) || (x.Finite? && y.Finite? && x.value < y.value)
  }
}
