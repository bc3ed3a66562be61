/** Division and remainder, and powers of two. */
module Arithmetic {

  /** Quotient and remainder are unique. */
  lemma DivMod(a: nat, b: nat, q: nat, r: nat)
    requires a == q * b + r && r < b
    ensures a % b == r && a / b == q
  {
    var d := a / b - q;
    assert a == (a / b) * b + a % b;
    assert d * b == r - a % b;
    if d >= 1 {
    } else if d <= -1 {
    }
  }

  /** Two multiples are at least one unit apart. */
  lemma NextMultiple(x: nat, p: nat, unit: nat)
    requires unit > 0 && x % unit == 0 && p % unit == 0 && p > x
    ensures p >= x + unit
  {
    var i, j := p / unit, x / unit;
    assert p == i * unit && x == j * unit;
    assert i <= j ==> i * unit <= j * unit;
    assert i >= j + 1 ==> i * unit >= (j + 1) * unit == j * unit + unit;
  }

  lemma StepMultiple(x: nat, unit: nat)
    requires unit > 0 && x % unit == 0
    ensures (x + unit) % unit == 0
  {
    DivMod(x + unit, unit, x / unit + 1, 0);
  }

  /** Rounding up to a multiple. */
  lemma RoundUp(x: nat, unit: nat, p: nat)
    requires unit > 0 && x % unit != 0
    ensures (x + (unit - x % unit)) % unit == 0
    ensures p % unit == 0 && p >= x ==> p >= x + (unit - x % unit)
  {
    var q := x / unit;
    assert x == q * unit + x % unit;
    DivMod(x + (unit - x % unit), unit, q + 1, 0);
    if p % unit == 0 && p >= x {
      DivMod(q * unit, unit, q, 0);
      NextMultiple(q * unit, p, unit);
    }
  }

  /** Dividing twice is dividing by the product. */
  lemma DivDiv(k: nat, a: nat, b: nat)
    requires a > 0 && b > 0
    ensures a * b > 0 && k / a / b == k / (a * b)
  {
    var x, s := k / a, k % a;
    var q, r := x / b, x % b;
    Parts(k, a);
    Parts(x, b);
    Regroup(q, a, b, r, s);
    DivMod(k, a * b, q, r * a + s);
  }

  lemma Parts(k: nat, a: nat)
    requires a > 0
    ensures k == (k / a) * a + k % a && k % a < a
  {
  }

  lemma Regroup(q: nat, a: nat, b: nat, r: nat, s: nat)
    requires r < b && s < a
    ensures a * b > 0 && (q * b + r) * a + s == q * (a * b) + (r * a + s) && r * a + s < a * b
  {
    Distribute(q * b, r, a);
    assert q * b * a == q * (a * b);
    Product(a, b - 1 - r);
    Distribute(r + 1, b - 1 - r, a);
    Distribute(r, 1, a);
  }

  lemma Distribute(x: nat, y: nat, a: nat)
    ensures (x + y) * a == x * a + y * a
  {
  }

  lemma Product(x: nat, y: nat)
    ensures x * y >= 0
  {
  }

  function Pow2(n: nat): nat { if n == 0 then 1 else 2 * Pow2(n - 1) }

  lemma {:induction false} PowPositive(n: nat)
    ensures Pow2(n) > 0
  {
    if n > 0 { PowPositive(n - 1); }
  }

  lemma {:induction false} PowSum(a: nat, b: nat)
    ensures Pow2(a + b) == Pow2(a) * Pow2(b) && Pow2(a) > 0
  {
    if a > 0 {
      PowSum(a - 1, b);
      assert Pow2(a) * Pow2(b) == 2 * (Pow2(a - 1) * Pow2(b));
    }
  }
}
