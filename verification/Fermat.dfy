/** Fermat's little theorem, by counting the residues a, 2a, ..., (p-1)a. */
module Fermat {
  import opened Arith

  ghost predicate IsPrime(p: int) {
    p >= 2 && forall m {:trigger p % m} :: 2 <= m < p ==> p % m != 0
  }

  ghost predicate Divides(d: int, x: int)
    requires d > 0
  {
    x % d == 0
  }

  /** Euclid's lemma: a prime that divides a product divides a factor. */
  lemma Euclid(p: int, x: int, y: int)
    requires IsPrime(p) && Divides(p, x * y)
    ensures Divides(p, x) || Divides(p, y)
  {
    if !Divides(p, x) && !Divides(p, y) {
      var x0 := x % p;
      ModMulLeft(x, y, p);
      assert Divides(p, x0 * y);
      LeastMultiplier(p, y, x0);
    }
  }

  /** If p divides m*y for some 0 < m < p, the least such m divides p, so it is 1. */
  lemma LeastMultiplier(p: int, y: int, m: int)
    requires IsPrime(p) && 0 < m < p && Divides(p, m * y)
    ensures Divides(p, y)
    decreases m
  {
    if m > 1 {
      var q, r := p / m, p % m;
      assert p % m != 0;
      assert r * y == p * y - q * (m * y) by {
        assert p == q * m + r;
        assert p * y == (q * m + r) * y == q * m * y + r * y;
        MulAssoc(q, m, y);
      }
      var k := m * y / p;
      assert m * y == k * p;
      assert r * y == (y - q * k) * p by {
        assert q * (k * p) == q * k * p by { MulAssoc(q, k, p); }
        assert (y - q * k) * p == y * p - q * k * p;
        assert p * y == y * p;
      }
      ModOfMultiple(y - q * k, p);
      LeastMultiplier(p, y, r);
    }
  }

  /** The product of the members of s among 1..n. */
  ghost function Prod(s: set<int>, n: nat): (r: int)
  {
    if n == 0 then 1 else Prod(s, n - 1) * (if n in s then n else 1)
  }

  ghost function Factorial(n: nat): (r: int)
    ensures r > 0
  {
    if n == 0 then 1 else Factorial(n - 1) * n
  }

  lemma {:induction false} ProdSame(s: set<int>, t: set<int>, n: nat)
    requires forall k :: 1 <= k <= n ==> (k in s <==> k in t)
    ensures Prod(s, n) == Prod(t, n)
  {
    if n > 0 {
      ProdSame(s, t, n - 1);
    }
  }

  lemma {:induction false} ProdInsert(s: set<int>, x: int, n: nat)
    requires 1 <= x <= n && x !in s
    ensures Prod(s + {x}, n) == x * Prod(s, n)
  {
    if x == n {
      ProdSame(s + {x}, s, n - 1);
      assert Prod(s + {x}, n) == Prod(s, n - 1) * n;
      assert Prod(s, n) == Prod(s, n - 1) * 1;
    } else {
      ProdInsert(s, x, n - 1);
      var f := if n in s then n else 1;
      assert Prod(s + {x}, n) == Prod(s + {x}, n - 1) * f;
      MulAssoc(x, Prod(s, n - 1), f);
    }
  }

  lemma {:induction false} ProdFull(s: set<int>, n: nat)
    requires forall k :: 1 <= k <= n ==> k in s
    ensures Prod(s, n) == Factorial(n)
  {
    if n > 0 {
      ProdFull(s, n - 1);
    }
  }

  lemma {:induction false} FactorialNotDivisible(p: int, n: nat)
    requires IsPrime(p) && n < p
    ensures !Divides(p, Factorial(n))
  {
    if n == 0 {
      SmallNotDivisible(1, p);
    } else {
      FactorialNotDivisible(p, n - 1);
      SmallNotDivisible(n, p);
      if Divides(p, Factorial(n)) {
        Euclid(p, Factorial(n - 1), n);
      }
    }
  }

  /** The residues a, 2a, ..., ka modulo p. */
  ghost function Residues(a: int, p: int, k: nat): set<int>
    requires p > 0
  {
    if k == 0 then {} else Residues(a, p, k - 1) + {k * a % p}
  }

  lemma {:induction false} ResiduesMember(a: int, p: int, k: nat, x: int)
    requires p > 0 && x in Residues(a, p, k)
    ensures exists j {:trigger j * a} :: 1 <= j <= k && x == j * a % p
  {
    if x == k * a % p {
    } else {
      ResiduesMember(a, p, k - 1, x);
      var j :| 1 <= j <= k - 1 && x == j * a % p;
    }
  }

  /** Two different multipliers below p give different residues. */
  lemma ResiduesDiffer(a: int, p: int, j: int, k: int)
    requires IsPrime(p) && 0 < a < p && 0 <= j < k < p
    ensures k * a % p != j * a % p
  {
    if k * a % p == j * a % p {
      DifferenceDivisible(k * a, j * a, p);
      assert k * a - j * a == (k - j) * a;
      Euclid(p, k - j, a);
      SmallNotDivisible(k - j, p);
      SmallNotDivisible(a, p);
    }
  }

  lemma SmallNotDivisible(x: int, p: int)
    requires 0 < x < p
    ensures !Divides(p, x)
  {
  }

  /** The next residue is nonzero and differs from the earlier ones. */
  lemma ResidueFresh(a: int, p: int, k: nat)
    requires IsPrime(p) && 0 < a < p && 1 <= k < p
    ensures 1 <= k * a % p < p
    ensures k * a % p !in Residues(a, p, k - 1)
  {
    ResiduesDiffer(a, p, 0, k);
    assert 0 * a % p == 0;
    if k * a % p in Residues(a, p, k - 1) {
      ResiduesMember(a, p, k - 1, k * a % p);
      var j :| 1 <= j <= k - 1 && k * a % p == j * a % p;
      ResiduesDiffer(a, p, j, k);
    }
  }

  /** Multiplying one more factor into two products that agree modulo p. */
  lemma ProductStep(P: int, w: int, f: int, k: int, a: int, p: int)
    requires p > 0 && P % p == w * f % p
    ensures (k * a % p) * P % p == (a * w) * (f * k) % p
  {
    ModMulLeft(k * a, P, p);
    ModMulLeft(P, k * a, p);
    ModMulLeft(w * f, k * a, p);
    assert P * (k * a) == k * a * P;
    ShuffleFour(w, f, k, a);
  }

  /** The k residues are distinct and nonzero, and their product is a^k k! modulo p. */
  lemma {:induction false} ResiduesProduct(a: int, p: int, k: nat)
    requires IsPrime(p) && 0 < a < p && k < p
    ensures forall x :: x in Residues(a, p, k) ==> 1 <= x < p
    ensures |Residues(a, p, k)| == k
    ensures Prod(Residues(a, p, k), p - 1) % p == Pow(a, k) * Factorial(k) % p
  {
    if k == 0 {
      ProdEmpty(p - 1);
    } else {
      ResiduesProduct(a, p, k - 1);
      var R, x := Residues(a, p, k - 1), k * a % p;
      ResidueFresh(a, p, k);
      ProdInsert(R, x, p - 1);
      ProductStep(Prod(R, p - 1), Pow(a, k - 1), Factorial(k - 1), k, a, p);
    }
  }

  lemma ShuffleFour(w: int, x: int, y: int, z: int)
    ensures w * x * (y * z) == z * w * (x * y)
  {
    MulAssoc(w * x, y, z);
    assert w * x * y == w * (x * y) by { MulAssoc(w, x, y); }
    assert w * (x * y) * z == z * (w * (x * y));
    MulAssoc(z, w, x * y);
  }

  lemma {:induction false} ProdEmpty(n: nat)
    ensures Prod({}, n) == 1
  {
    if n > 0 {
      ProdEmpty(n - 1);
    }
  }

  lemma DifferenceDivisible(x: int, y: int, p: int)
    requires p > 0 && x % p == y % p
    ensures Divides(p, x - y)
  {
    assert x - y == (x / p - y / p) * p;
    ModOfMultiple(x / p - y / p, p);
  }

  lemma {:induction false} Interval(n: nat) returns (s: set<int>)
    ensures |s| == n && forall k :: k in s <==> 1 <= k <= n
  {
    if n == 0 {
      s := {};
    } else {
      s := Interval(n - 1);
      s := s + {n};
    }
  }

  /** n distinct values in 1..n are all of 1..n. */
  lemma Pigeonhole(s: set<int>, n: nat)
    requires |s| == n && forall x :: x in s ==> 1 <= x <= n
    ensures forall k :: 1 <= k <= n ==> k in s
  {
    var full := Interval(n);
    assert forall x :: x in s ==> x in full;
    assert s <= full;
    SubsetSameSize(s, full);
  }

  lemma SubsetSameSize(s: set<int>, t: set<int>)
    requires s <= t && |s| == |t|
    ensures s == t
  {
    assert |t - s| == |t| - |s|;
  }

  lemma Distribute(x: int, f: int)
    ensures x * f - f == (x - 1) * f
  {
  }

  /** A factor common to both sides modulo a prime, and not a multiple of it, cancels. */
  lemma Cancel(p: int, x: int, f: int)
    requires IsPrime(p) && x * f % p == f % p && !Divides(p, f)
    ensures x % p == 1
  {
    DifferenceDivisible(x * f, f, p);
    Distribute(x, f);
    Euclid(p, x - 1, f);
    var q := (x - 1) / p;
    DivModUnique(x, q, p, 1);
  }

  /** Fermat's little theorem. */
  lemma FermatLittle(a: int, p: int)
    requires IsPrime(p) && 0 < a < p
    ensures Pow(a, p - 1) % p == 1
  {
    ResiduesProduct(a, p, p - 1);
    Pigeonhole(Residues(a, p, p - 1), p - 1);
    ProdFull(Residues(a, p, p - 1), p - 1);
    FactorialNotDivisible(p, p - 1);
    Cancel(p, Pow(a, p - 1), Factorial(p - 1));
  }
}
