/** Exponentiation and modular arithmetic over the integers. */
module Arith {

  function Pow(b: int, e: nat): (r: int)
    ensures b > 0 ==> r > 0
    ensures b >= 0 ==> r >= 0
  {
    if e == 0 then 1 else b * Pow(b, e - 1)
  }

  lemma {:induction false} PowAdd(b: int, x: nat, y: nat)
    ensures Pow(b, x + y) == Pow(b, x) * Pow(b, y)
    decreases x
  {
    if x == 0 {
      assert x + y == y;
    } else {
      PowAdd(b, x - 1, y);
      assert x + y - 1 == x - 1 + y;
      MulAssoc(b, Pow(b, x - 1), Pow(b, y));
    }
  }

  lemma MulAssoc(x: int, y: int, z: int)
    ensures x * (y * z) == x * y * z
  {
  }

  /** The quotient and remainder are determined by their defining equation. */
  lemma DivModUnique(x: int, q: int, m: int, r: int)
    requires m > 0 && 0 <= r < m && x == q * m + r
    ensures x / m == q && x % m == r
  {
    var k := x / m - q;
    assert x == m * (x / m) + x % m;
    assert m * (x / m) == m * q + m * k;
    assert m * k == r - x % m;
    assert k >= 1 ==> m * k >= m;
    assert k <= -1 ==> m * k <= -m;
  }

  lemma ModOfMultiple(q: int, m: int)
    requires m > 0
    ensures (q * m) % m == 0
  {
    DivModUnique(q * m, q, m, 0);
  }

  lemma ModAddMultiple(x: int, q: int, m: int)
    requires m > 0
    ensures (x + q * m) % m == x % m
  {
    var d, r := x / m, x % m;
    assert x + q * m == (d + q) * m + r;
    DivModUnique(x + q * m, d + q, m, r);
  }

  lemma ModMulLeft(x: int, y: int, m: int)
    requires m > 0
    ensures (x % m * y) % m == (x * y) % m
  {
    var d, r := x / m, x % m;
    assert x == d * m + r;
    assert x * y == r * y + (d * y) * m;
    ModAddMultiple(r * y, d * y, m);
  }

  lemma ModMulBoth(x: int, y: int, m: int)
    requires m > 0
    ensures ((x % m) * (y % m)) % m == (x * y) % m
  {
    ModMulLeft(x, y % m, m);
    ModMulLeft(y, x, m);
    assert x * (y % m) == (y % m) * x && x * y == y * x;
  }

  lemma ModAddBoth(x: int, y: int, m: int)
    requires m > 0
    ensures (x % m + y % m) % m == (x + y) % m
  {
    var p, q := x / m, y / m;
    assert x + y == (x % m + y % m) + (p + q) * m;
    ModAddMultiple(x % m + y % m, p + q, m);
  }

  lemma ModAddLeft(x: int, y: int, m: int)
    requires m > 0
    ensures (x % m + y) % m == (x + y) % m
  {
    var q := x / m;
    assert x + y == (x % m + y) + q * m;
    ModAddMultiple(x % m + y, q, m);
  }

  lemma SmallMod(x: int, m: int)
    requires 0 <= x < m
    ensures x % m == x
  {
    DivModUnique(x, 0, m, x);
  }

  lemma DivNonnegative(x: int, m: int)
    requires x >= 0 && m > 0
    ensures x / m >= 0
  {
    var q := x / m;
    assert q <= -1 ==> m * q <= -m;
  }

  lemma MulLess(a: int, b: int, m: int)
    requires a <= b && m >= 0
    ensures a * m <= b * m && (a >= 0 ==> a * m >= 0)
  {
    assert (b - a) * m >= 0;
    assert (b - a) * m == b * m - a * m;
  }
}
