/** Big-endian modular arithmetic: wiinandfuse/source/bn.c. */
module Bn {
  import opened Arith
  import opened Bytes
  import Fermat

  method Zero(d: array<u8>, n: nat)
    requires n <= d.Length
    modifies d
    ensures forall i :: 0 <= i < n ==> d[i] == 0
    ensures d[n..] == old(d[n..])
  {
    for i := 0 to n
      invariant forall k :: 0 <= k < i ==> d[k] == 0
      invariant forall k :: n <= k < d.Length ==> d[k] == old(d[k])
    {
      d[i] := 0;
    }
  }

  method Copy(d: array<u8>, a: array<u8>, n: nat)
    requires n <= d.Length && n <= a.Length && d != a
    modifies d
    ensures d[..n] == a[..n] && d[n..] == old(d[n..])
  {
    for i := 0 to n
      invariant forall k :: 0 <= k < i ==> d[k] == a[k]
      invariant forall k :: n <= k < d.Length ==> d[k] == old(d[k])
    {
      d[i] := a[i];
    }
  }

  /** The sign of a - b. */
  method Compare(a: array<u8>, b: array<u8>, n: nat) returns (r: int)
    requires n <= a.Length && n <= b.Length
    ensures r == if Val(a[..n]) < Val(b[..n]) then -1 else if Val(a[..n]) > Val(b[..n]) then 1 else 0
  {
    for i := 0 to n
      invariant a[..i] == b[..i]
    {
      if a[i] != b[i] {
        assert a[..n][..i] == a[..i] && b[..n][..i] == b[..i];
        if a[i] < b[i] {
          ValLess(a[..n], b[..n], i);
          return -1;
        } else {
          ValLess(b[..n], a[..n], i);
          return 1;
        }
      }
    }
    return 0;
  }

  lemma SubWeights(x: int, y: int, c: int, x': int, c': int, P: int)
    requires x' == x - y - c + 256 * c'
    ensures x' * P + c * P == x * P - y * P + c' * (256 * P)
  {
    MulAssoc(c', 256, P);
  }

  /** One digit of a subtraction, with borrow c in and c' out. */
  lemma SubDigit(xs: seq<u8>, ys: seq<u8>, c: int, tail: seq<u8>, x': u8, c': int)
    requires |xs| == |ys| == |tail| + 1
    requires x' == xs[0] - ys[0] - c + 256 * c'
    requires Val(tail) == Val(xs[1..]) - Val(ys[1..]) + c * Pow(256, |tail|)
    ensures Val([x'] + tail) == Val(xs) - Val(ys) + c' * Pow(256, |tail| + 1)
  {
    assert ([x'] + tail)[1..] == tail;
    SubWeights(xs[0], ys[0], c, x', c', Pow(256, |tail|));
  }

  /** The final borrow tells whether the subtraction wrapped. */
  lemma BorrowOut(xs: seq<u8>, ys: seq<u8>, zs: seq<u8>, c: int)
    requires |xs| == |ys| == |zs| && 0 <= c <= 1
    requires Val(zs) == Val(xs) - Val(ys) + c * Pow(256, |xs|)
    ensures c == if Val(xs) < Val(ys) then 1 else 0
  {
    ValBound(xs);
    ValBound(zs);
  }

  /** In place a - N, wrapping modulo 256^n. */
  method SubModulus(a: array<u8>, N: array<u8>, n: nat)
    requires n <= a.Length && n <= N.Length && a != N
    modifies a
    ensures Val(a[..n]) == if old(Val(a[..n])) < Val(N[..n])
                           then old(Val(a[..n])) - Val(N[..n]) + Pow(256, n)
                           else old(Val(a[..n])) - Val(N[..n])
    ensures a[n..] == old(a[n..])
  {
    var c := 0;
    ghost var A, M := a[..n], N[..n];
    var i := n;
    while i > 0
      invariant 0 <= i <= n && 0 <= c <= 1
      invariant forall k :: 0 <= k < i ==> a[k] == A[k]
      invariant a[n..] == old(a[n..])
      invariant Val(a[i..n]) == Val(A[i..]) - Val(M[i..]) + c * Pow(256, n - i)
    {
      i := i - 1;
      ghost var c0, tail := c, a[i + 1..n];
      var dig := N[i] + c;
      c := if a[i] < dig then 1 else 0;
      a[i] := (a[i] - dig) % 0x100;
      assert a[i..n] == [a[i]] + tail;
      assert A[i..][1..] == A[i + 1..] && M[i..][1..] == M[i + 1..];
      SubDigit(A[i..], M[i..], c0, tail, a[i], c);
    }
    assert a[0..n] == a[..n] && A[0..] == A && M[0..] == M;
    BorrowOut(A, M, a[..n], c);
  }

  lemma AddWeights(x: int, y: int, c: int, z: int, c': int, P: int)
    requires z == x + y + c - 256 * c'
    ensures z * P - c * P == x * P + y * P - c' * (256 * P)
  {
    MulAssoc(c', 256, P);
  }

  /** One digit of an addition, with carry c in and c' out. */
  lemma AddDigit(xs: seq<u8>, ys: seq<u8>, c: int, tail: seq<u8>, z: u8, c': int)
    requires |xs| == |ys| == |tail| + 1
    requires z == xs[0] + ys[0] + c - 256 * c'
    requires Val(tail) == Val(xs[1..]) + Val(ys[1..]) - c * Pow(256, |tail|)
    ensures Val([z] + tail) == Val(xs) + Val(ys) - c' * Pow(256, |tail| + 1)
  {
    assert ([z] + tail)[1..] == tail;
    AddWeights(xs[0], ys[0], c, z, c', Pow(256, |tail|));
  }

  /** The digit loop of an addition: d becomes a + b without its carry-out c. */
  method AddDigits(d: array<u8>, a: array<u8>, b: array<u8>, n: nat) returns (c: int)
    requires n <= d.Length && n <= a.Length && n <= b.Length
    modifies d
    ensures 0 <= c <= 1
    ensures Val(d[..n]) == old(Val(a[..n])) + old(Val(b[..n])) - c * Pow(256, n)
    ensures d[n..] == old(d[n..])
  {
    c := 0;
    ghost var A, B := a[..n], b[..n];
    var i := n;
    while i > 0
      invariant 0 <= i <= n && 0 <= c <= 1
      invariant d[n..] == old(d[n..])
      invariant forall k :: 0 <= k < i ==> a[k] == A[k] && b[k] == B[k]
      invariant Val(d[i..n]) == Val(A[i..]) + Val(B[i..]) - c * Pow(256, n - i)
    {
      i := i - 1;
      ghost var c0, tail := c, d[i + 1..n];
      var dig := a[i] + b[i] + c;
      c := if dig >= 0x100 then 1 else 0;
      assert dig % 0x100 == dig - 256 * c;
      assert A[i..][1..] == A[i + 1..] && B[i..][1..] == B[i + 1..];
      AddDigit(A[i..], B[i..], c0, tail, dig % 0x100, c);
      d[i] := dig % 0x100;
      assert d[i..n] == [d[i]] + tail;
    }
    assert d[0..n] == d[..n] && A[0..] == A && B[0..] == B;
  }

  /** d := (a + b) mod N. The destination may be either operand, or both. */
  method Add(d: array<u8>, a: array<u8>, b: array<u8>, N: array<u8>, n: nat)
    requires n <= d.Length && n <= a.Length && n <= b.Length && n <= N.Length && d != N
    requires Val(a[..n]) < Val(N[..n]) && Val(b[..n]) < Val(N[..n])
    modifies d
    ensures Val(d[..n]) == (old(Val(a[..n])) + old(Val(b[..n]))) % Val(N[..n])
    ensures d[n..] == old(d[n..])
  {
    ghost var x, y, m := Val(a[..n]), Val(b[..n]), Val(N[..n]);
    ValBound(N[..n]);
    var c := AddDigits(d, a, b, n);
    ValBound(d[..n]);
    if c != 0 {
      SubModulus(d, N, n);
    }
    var cmp := Compare(d, N, n);
    if cmp >= 0 {
      SubModulus(d, N, n);
    }
    if x + y < m {
      DivModUnique(x + y, 0, m, x + y);
    } else {
      DivModUnique(x + y, 1, m, x + y - m);
    }
  }

  predicate IsMask(mask: nat) {
    || mask == 0x80 || mask == 0x40 || mask == 0x20 || mask == 0x10
    || mask == 8 || mask == 4 || mask == 2 || mask == 1
  }

  /** The bits of v above mask; a mask of 0 has passed them all. */
  ghost function Scanned(v: nat, mask: nat): nat
  {
    if mask == 0 then v else DivNonnegative(v, 2 * mask); v / (2 * mask)
  }

  predicate Bit(x: u8, mask: nat)
    requires IsMask(mask)
  {
    x / mask % 2 == 1
  }

  lemma Halve(v: nat, m: nat)
    requires m > 0
    ensures v / m == 2 * (v / (2 * m)) + v / m % 2
  {
    var q := v / m;
    var h, b := q / 2, q % 2;
    assert v == q * m + v % m;
    assert q * m == h * (2 * m) + b * m;
    assert 0 <= b * m + v % m < 2 * m;
    DivModUnique(v, h, 2 * m, b * m + v % m);
  }

  /** The digits above x do not show in its bits. */
  lemma BitOfLastDigit(pre: nat, x: u8, mask: nat)
    requires IsMask(mask)
    ensures (pre * 256 + x) / mask % 2 == x / mask % 2
  {
    var k := 128 / mask;
    assert k * mask == 128;
    var q := 2 * (pre * k) + x / mask;
    assert 2 * (pre * k) * mask == pre * 256 by {
      MulAssoc(2 * pre, k, mask);
      MulAssoc(2, pre, k);
    }
    DivModUnique(pre * 256 + x, q, mask, x % mask);
    ModAddMultiple(x / mask, pre * k, 2);
  }

  /** Passing one more bit doubles what was scanned and adds the bit. */
  lemma ScanStep(pre: nat, x: u8, mask: nat)
    requires IsMask(mask)
    ensures mask / 2 == 0 || IsMask(mask / 2)
    ensures Scanned(pre * 256 + x, mask / 2)
         == 2 * Scanned(pre * 256 + x, mask) + if Bit(x, mask) then 1 else 0
  {
    Halve(pre * 256 + x, mask);
    BitOfLastDigit(pre, x, mask);
    assert mask == 1 || 2 * (mask / 2) == mask;
  }

  lemma NextDigit(s: seq<u8>, i: nat)
    requires i < |s|
    ensures Val(s[..i + 1]) == Val(s[..i]) * 256 + s[i]
  {
    ValSnoc(s[..i], s[i]);
    assert s[..i + 1] == s[..i] + [s[i]];
  }

  /** One bit of a multiplication: r = v*b mod m becomes (2v + bit)*b mod m. */
  lemma MulBit(v: nat, b: nat, m: nat, r: nat, bit: nat)
    requires m > 0 && r == v * b % m && 0 <= bit <= 1
    ensures ((r + r) % m + bit * b) % m == (2 * v + bit) * b % m
  {
    DoubleThenAdd(v * b, bit * b, m);
    Distribute(v, bit, b);
  }

  lemma DoubleThenAdd(x: int, z: int, m: int)
    requires m > 0
    ensures ((x % m + x % m) % m + z) % m == (x + x + z) % m
  {
    ModAddBoth(x, x, m);
    ModAddLeft(x + x, z, m);
  }

  lemma Distribute(v: int, bit: int, b: int)
    ensures (2 * v + bit) * b == v * b + v * b + bit * b
  {
    assert (2 * v + bit) * b == (v + v) * b + bit * b;
  }

  /** One step of the double-and-add loop. */
  method MulStep(d: array<u8>, bit: bool, b: array<u8>, N: array<u8>, n: nat, ghost v: nat)
    requires n <= d.Length && n <= b.Length && n <= N.Length && d != b && d != N
    requires Val(b[..n]) < Val(N[..n])
    requires Val(d[..n]) == v * Val(b[..n]) % Val(N[..n])
    modifies d
    ensures Val(d[..n]) == (2 * v + if bit then 1 else 0) * Val(b[..n]) % Val(N[..n])
    ensures d[n..] == old(d[n..])
  {
    MulBit(v, Val(b[..n]), Val(N[..n]), Val(d[..n]), if bit then 1 else 0);
    Add(d, d, d, N, n);
    if bit {
      Add(d, d, b, N, n);
    } else {
      SmallMod(Val(d[..n]), Val(N[..n]));
    }
  }

  /** The eight steps for one digit x of the multiplier, whose earlier digits spell pre. */
  method MulByte(d: array<u8>, x: u8, b: array<u8>, N: array<u8>, n: nat, ghost pre: nat)
    requires n <= d.Length && n <= b.Length && n <= N.Length && d != b && d != N
    requires Val(b[..n]) < Val(N[..n])
    requires Val(d[..n]) == pre * Val(b[..n]) % Val(N[..n])
    modifies d
    ensures Val(d[..n]) == (pre * 256 + x) * Val(b[..n]) % Val(N[..n])
    ensures d[n..] == old(d[n..])
  {
    var mask := 0x80;
    assert Scanned(pre * 256 + x, mask) == pre;
    while mask != 0
      invariant 0 <= mask && (mask == 0 || IsMask(mask))
      invariant Val(d[..n]) == Scanned(pre * 256 + x, mask) * Val(b[..n]) % Val(N[..n])
      invariant d[n..] == old(d[n..])
    {
      ScanStep(pre, x, mask);
      MulStep(d, Bit(x, mask), b, N, n, Scanned(pre * 256 + x, mask));
      mask := mask / 2;
    }
  }

  /** d := a * b mod N, for any a and for b below N. */
  method Mul(d: array<u8>, a: array<u8>, b: array<u8>, N: array<u8>, n: nat)
    requires n <= d.Length && n <= a.Length && n <= b.Length && n <= N.Length
    requires d != a && d != b && d != N
    requires Val(b[..n]) < Val(N[..n])
    modifies d
    ensures Val(d[..n]) == Val(a[..n]) * Val(b[..n]) % Val(N[..n])
    ensures d[n..] == old(d[n..])
  {
    Zero(d, n);
    ValZero(d[..n]);
    ghost var A := a[..n];
    SmallMod(0, Val(N[..n]));
    for i := 0 to n
      invariant Val(d[..n]) == Val(A[..i]) * Val(b[..n]) % Val(N[..n])
      invariant d[n..] == old(d[n..])
    {
      NextDigit(A, i);
      MulByte(d, a[i], b, N, n, Val(A[..i]));
    }
    assert A[..n] == A;
  }

  /** One bit of an exponentiation: r = a^v mod m becomes a^(2v + bit) mod m. */
  lemma ExpBit(a: nat, v: nat, m: nat, r: nat, bit: nat)
    requires m > 0 && a < m && r == Pow(a, v) % m && 0 <= bit <= 1
    ensures bit == 0 ==> r * r % m == Pow(a, 2 * v + bit) % m
    ensures bit == 1 ==> (r * r % m) * a % m == Pow(a, 2 * v + bit) % m
  {
    var p := Pow(a, v);
    PowAdd(a, v, v);
    ModMulBoth(p, p, m);
    assert Pow(a, 2 * v) == p * p;
    if bit == 1 {
      ModMulLeft(r * r, a, m);
      ModMulLeft(p * p, a, m);
      assert p * p * a == Pow(a, 2 * v + 1);
    }
  }

  /** One step of the square-and-multiply loop. */
  method ExpStep(d: array<u8>, t: array<u8>, bit: bool, a: array<u8>, N: array<u8>, n: nat, ghost v: nat)
    requires n <= d.Length && n <= t.Length && n <= a.Length && n <= N.Length
    requires d != a && d != N && d != t && t != a && t != N
    requires Val(a[..n]) < Val(N[..n])
    requires Val(d[..n]) == Pow(Val(a[..n]), v) % Val(N[..n])
    modifies d, t
    ensures Val(d[..n]) == Pow(Val(a[..n]), 2 * v + if bit then 1 else 0) % Val(N[..n])
    ensures d[n..] == old(d[n..])
  {
    ExpBit(Val(a[..n]), v, Val(N[..n]), Val(d[..n]), if bit then 1 else 0);
    Mul(t, d, d, N, n);
    if bit {
      Mul(d, t, a, N, n);
    } else {
      Copy(d, t, n);
    }
  }

  /** The eight steps for one digit x of the exponent, whose earlier digits spell pre. */
  method ExpByte(d: array<u8>, t: array<u8>, x: u8, a: array<u8>, N: array<u8>, n: nat, ghost pre: nat)
    requires n <= d.Length && n <= t.Length && n <= a.Length && n <= N.Length
    requires d != a && d != N && d != t && t != a && t != N
    requires Val(a[..n]) < Val(N[..n])
    requires Val(d[..n]) == Pow(Val(a[..n]), pre) % Val(N[..n])
    modifies d, t
    ensures Val(d[..n]) == Pow(Val(a[..n]), pre * 256 + x) % Val(N[..n])
    ensures d[n..] == old(d[n..])
  {
    var mask := 0x80;
    assert Scanned(pre * 256 + x, mask) == pre;
    while mask != 0
      invariant 0 <= mask && (mask == 0 || IsMask(mask))
      invariant Val(d[..n]) == Pow(Val(a[..n]), Scanned(pre * 256 + x, mask)) % Val(N[..n])
      invariant d[n..] == old(d[n..])
    {
      ScanStep(pre, x, mask);
      ExpStep(d, t, Bit(x, mask), a, N, n, Scanned(pre * 256 + x, mask));
      mask := mask / 2;
    }
  }

  /** d := a^e mod N, for N > 1; the scratch buffer limits n to 512. */
  method Exp(d: array<u8>, a: array<u8>, N: array<u8>, n: nat, e: array<u8>, en: nat)
    requires 1 <= n <= 512
    requires n <= d.Length && n <= a.Length && n <= N.Length && en <= e.Length
    requires d != a && d != N && d != e
    requires Val(a[..n]) < Val(N[..n]) && 1 < Val(N[..n])
    modifies d
    ensures Val(d[..n]) == Pow(Val(a[..n]), Val(e[..en])) % Val(N[..n])
    ensures d[n..] == old(d[n..])
  {
    var t := new u8[512];
    Zero(d, n);
    d[n - 1] := 1;
    ValSmall(d[..n]);
    SmallMod(1, Val(N[..n]));
    ghost var E := e[..en];
    for i := 0 to en
      invariant Val(d[..n]) == Pow(Val(a[..n]), Val(E[..i])) % Val(N[..n])
      invariant d[n..] == old(d[n..])
    {
      NextDigit(E, i);
      ExpByte(d, t, e[i], a, N, n, Val(E[..i]));
    }
    assert E[..en] == E;
  }

  /** For N > 1, d := a^(N-2) mod N; for prime N this is the inverse of a. */
  method Inv(d: array<u8>, a: array<u8>, N: array<u8>, n: nat)
    requires 1 <= n <= 512
    requires n <= d.Length && n <= a.Length && n <= N.Length
    requires d != a && d != N
    requires Val(a[..n]) < Val(N[..n]) && 1 < Val(N[..n])
    modifies d
    ensures Val(d[..n]) == Pow(Val(a[..n]), Val(N[..n]) - 2) % Val(N[..n])
    ensures Fermat.IsPrime(Val(N[..n])) && 0 < Val(a[..n])
            ==> Val(a[..n]) * Val(d[..n]) % Val(N[..n]) == 1
    ensures d[n..] == old(d[n..])
  {
    var t, s := new u8[512], new u8[512];
    Copy(t, N, n);
    Zero(s, n);
    s[n - 1] := 2;
    ValSmall(s[..n]);
    SubModulus(t, s, n);
    Exp(d, a, N, n, t, n);
    if Fermat.IsPrime(Val(N[..n])) && 0 < Val(a[..n]) {
      InverseByFermat(Val(a[..n]), Val(N[..n]));
    }
  }

  /** a * a^(p-2) = 1 modulo a prime p. */
  lemma InverseByFermat(a: nat, p: nat)
    requires Fermat.IsPrime(p) && 0 < a < p
    ensures a * (Pow(a, p - 2) % p) % p == 1
  {
    Fermat.FermatLittle(a, p);
    ModMulLeft(Pow(a, p - 2), a, p);
    assert Pow(a, p - 2) * a == a * Pow(a, p - 2) == Pow(a, p - 1);
    assert (Pow(a, p - 2) % p) * a == a * (Pow(a, p - 2) % p);
  }
}
