/** The AES transformations on 32-bit columns, sections 5.1 to 5.3 of FIPS 197. */
module Aes {
  import opened Octets
  import opened Gf

  // ---------- the substitution ----------

  /** The multiplicative inverse, with 0 mapped to itself. */
  ghost function Inverse(x: byte): byte {
    if x == 0 then 0
    else
      InverseExists(x);
      var y :| Mul(x, y) == 1;
      y
  }

  lemma InverseExists(x: byte)
    requires x != 0
    ensures exists y :: Mul(x, y) == 1
  {
    hide Mul, Power;
    var i := Logarithm(x);
    PowerAdd(i, 255 - i);
    PowerValues();
  }

  /** The inverse of a power of 3 is the complementary power. */
  lemma InverseOfPower(i: nat)
    requires 1 <= i <= 255
    ensures Inverse(Power(i)) == Power(255 - i)
  {
    hide Mul, Power;
    PowerNonzero(i);
    PowerValues();
    PowerAdd(i, 255 - i);
    var y := Inverse(Power(i));
    assert Mul(Power(i), y) == 1;
    if y == 0 {
      MulRightZero(Power(i));
    } else {
      var j := Logarithm(y);
      PowerAdd(i, j);
      PowerPeriod(255 - i, j, i);
    }
  }

  lemma MulRightZero(x: byte)
    ensures Mul(x, 0) == 0
  {
  }

  /** Exponents that give the same product with 3^i give the same power. */
  lemma PowerPeriod(a: nat, j: nat, i: nat)
    requires i + a == 255 && 1 <= j <= 255 && Power(i + j) == 1
    ensures Power(a) == Power(j)
  {
    hide Mul, Power;
    PowerValues();
    FirstPowers();
    var k := i + j;
    if k < 255 {
      PowerNotOne(k);
    } else if k > 255 {
      PowerAdd(255, k - 255);
      MulUnit(0, Power(k - 255));
      if k - 255 < 255 {
        PowerNotOne(k - 255);
      }
    }
  }

  lemma InverseInverse(x: byte)
    ensures Inverse(Inverse(x)) == x
  {
    hide Mul, Power, Inverse;
    InverseZero();
    if x != 0 {
      var i := Logarithm(x);
      InverseOfPower(i);
      PowerValues();
      FirstPowers();
      if i < 255 {
        InverseOfPower(255 - i);
      } else {
        InverseOfPower(255);
      }
    }
  }

  lemma InverseZero()
    ensures Inverse(0) == 0
  {
  }

  function Rotl(x: byte): byte {
    (x >> 7) | (x << 1)
  }

  /** The affine map of section 5.1.1. */
  function Affine(y: byte): byte {
    Xb(Xb(Xb(Xb(Xb(y, Rotl(y)), Rotl(Rotl(y))), Rotl(Rotl(Rotl(y)))), Rotl(Rotl(Rotl(Rotl(y))))), 0x63)
  }

  function UnAffine(z: byte): byte {
    Xb(Xb(Xb(Rotl(z), Rotl(Rotl(Rotl(z)))), Rotl(Rotl(Rotl(Rotl(Rotl(Rotl(z))))))), 0x05)
  }

  lemma UnAffineAffine(y: byte)
    ensures UnAffine(Affine(y)) == y && Affine(UnAffine(y)) == y
  {
  }

  ghost function SBox(x: byte): byte {
    Affine(Inverse(x))
  }

  ghost function InvSBox(z: byte): byte {
    Inverse(UnAffine(z))
  }

  lemma SBoxInverse(x: byte)
    ensures InvSBox(SBox(x)) == x && SBox(InvSBox(x)) == x
  {
    hide Affine, UnAffine, Inverse;
    UnAffineAffine(Inverse(x));
    UnAffineAffine(x);
    InverseInverse(x);
    InverseInverse(UnAffine(x));
  }

  // ---------- columns ----------

  function Pack(b0: byte, b1: byte, b2: byte, b3: byte): word {
    ((b3 as word) << 24) | ((b2 as word) << 16) | ((b1 as word) << 8) | (b0 as word)
  }

  function B0(w: word): byte { (w & 0xff) as byte }

  function B1(w: word): byte { ((w >> 8) & 0xff) as byte }

  function B2(w: word): byte { ((w >> 16) & 0xff) as byte }

  function B3(w: word): byte { (w >> 24) as byte }

  function Rotl8(w: word): word { (w << 8) | (w >> 24) }

  function Rotl16(w: word): word { (w << 16) | (w >> 16) }

  function Rotl24(w: word): word { (w << 24) | (w >> 8) }

  lemma BytesOfPack(b0: byte, b1: byte, b2: byte, b3: byte)
    ensures var w := Pack(b0, b1, b2, b3); B0(w) == b0 && B1(w) == b1 && B2(w) == b2 && B3(w) == b3
  {
  }

  lemma PackOfBytes(w: word)
    ensures Pack(B0(w), B1(w), B2(w), B3(w)) == w
  {
  }

  lemma BytesOfXd(v: word, w: word)
    ensures B0(Xd(v, w)) == Xb(B0(v), B0(w)) && B1(Xd(v, w)) == Xb(B1(v), B1(w))
    ensures B2(Xd(v, w)) == Xb(B2(v), B2(w)) && B3(Xd(v, w)) == Xb(B3(v), B3(w))
  {
    hide Pack, B0, B1, B2, B3, Xb, Xd;
    PackOfBytes(v);
    PackOfBytes(w);
    XdOfPacks(B0(v), B1(v), B2(v), B3(v), B0(w), B1(w), B2(w), B3(w));
    BytesOfPack(Xb(B0(v), B0(w)), Xb(B1(v), B1(w)), Xb(B2(v), B2(w)), Xb(B3(v), B3(w)));
  }

  lemma Rotation8(b0: byte, b1: byte, b2: byte, b3: byte)
    ensures Rotl8(Pack(b0, b1, b2, b3)) == Pack(b3, b0, b1, b2)
  {
  }

  lemma Rotation16(b0: byte, b1: byte, b2: byte, b3: byte)
    ensures Rotl16(Pack(b0, b1, b2, b3)) == Pack(b2, b3, b0, b1)
  {
  }

  lemma Rotation24(b0: byte, b1: byte, b2: byte, b3: byte)
    ensures Rotl24(Pack(b0, b1, b2, b3)) == Pack(b1, b2, b3, b0)
  {
  }

  lemma XdOfPacks(a0: byte, a1: byte, a2: byte, a3: byte, c0: byte, c1: byte, c2: byte, c3: byte)
    ensures Xd(Pack(a0, a1, a2, a3), Pack(c0, c1, c2, c3)) == Pack(Xb(a0, c0), Xb(a1, c1), Xb(a2, c2), Xb(a3, c3))
  {
  }

  // ---------- mixing ----------

  function Dot(k0: byte, k1: byte, k2: byte, k3: byte, s0: byte, s1: byte, s2: byte, s3: byte): byte {
    Xb(Xb(Xb(Mul(k0, s0), Mul(k1, s1)), Mul(k2, s2)), Mul(k3, s3))
  }

  /** The circulant matrix with first row k0 k1 k2 k3, applied to a column. */
  function Circulant(k0: byte, k1: byte, k2: byte, k3: byte, w: word): word {
    var s0, s1, s2, s3 := B0(w), B1(w), B2(w), B3(w);
    Pack(Dot(k0, k1, k2, k3, s0, s1, s2, s3), Dot(k3, k0, k1, k2, s0, s1, s2, s3),
         Dot(k2, k3, k0, k1, s0, s1, s2, s3), Dot(k1, k2, k3, k0, s0, s1, s2, s3))
  }

  /** MixColumns on one column, section 5.1.3. */
  function MixCol(w: word): word {
    Circulant(2, 3, 1, 1, w)
  }

  /** InvMixColumns on one column, section 5.3.3. */
  function InvMixCol(w: word): word {
    Circulant(0xE, 0xB, 0xD, 9, w)
  }

  lemma DotXor(k0: byte, k1: byte, k2: byte, k3: byte, s0: byte, s1: byte, s2: byte, s3: byte,
               t0: byte, t1: byte, t2: byte, t3: byte)
    ensures Dot(k0, k1, k2, k3, Xb(s0, t0), Xb(s1, t1), Xb(s2, t2), Xb(s3, t3))
         == Xb(Dot(k0, k1, k2, k3, s0, s1, s2, s3), Dot(k0, k1, k2, k3, t0, t1, t2, t3))
  {
    hide Mul, Xb;
    MulAddRight(k0, s0, t0); MulAddRight(k1, s1, t1); MulAddRight(k2, s2, t2); MulAddRight(k3, s3, t3);
    XbRegroup(Mul(k0, s0), Mul(k0, t0), Mul(k1, s1), Mul(k1, t1));
    XbRegroup(Xb(Mul(k0, s0), Mul(k1, s1)), Xb(Mul(k0, t0), Mul(k1, t1)), Mul(k2, s2), Mul(k2, t2));
    XbRegroup(Xb(Xb(Mul(k0, s0), Mul(k1, s1)), Mul(k2, s2)), Xb(Xb(Mul(k0, t0), Mul(k1, t1)), Mul(k2, t2)),
              Mul(k3, s3), Mul(k3, t3));
  }

  /** Every circulant matrix is additive. */
  lemma CirculantXor(k0: byte, k1: byte, k2: byte, k3: byte, v: word, w: word)
    ensures Circulant(k0, k1, k2, k3, Xd(v, w)) == Xd(Circulant(k0, k1, k2, k3, v), Circulant(k0, k1, k2, k3, w))
  {
    hide Dot, Pack, B0, B1, B2, B3, Xb, Xd;
    BytesOfXd(v, w);
    var s0, s1, s2, s3 := B0(v), B1(v), B2(v), B3(v);
    var t0, t1, t2, t3 := B0(w), B1(w), B2(w), B3(w);
    DotXor(k0, k1, k2, k3, s0, s1, s2, s3, t0, t1, t2, t3);
    DotXor(k3, k0, k1, k2, s0, s1, s2, s3, t0, t1, t2, t3);
    DotXor(k2, k3, k0, k1, s0, s1, s2, s3, t0, t1, t2, t3);
    DotXor(k1, k2, k3, k0, s0, s1, s2, s3, t0, t1, t2, t3);
    XdOfPacks(Dot(k0, k1, k2, k3, s0, s1, s2, s3), Dot(k3, k0, k1, k2, s0, s1, s2, s3),
              Dot(k2, k3, k0, k1, s0, s1, s2, s3), Dot(k1, k2, k3, k0, s0, s1, s2, s3),
              Dot(k0, k1, k2, k3, t0, t1, t2, t3), Dot(k3, k0, k1, k2, t0, t1, t2, t3),
              Dot(k2, k3, k0, k1, t0, t1, t2, t3), Dot(k1, k2, k3, k0, t0, t1, t2, t3));
  }

  lemma InvMixColXor(v: word, w: word)
    ensures InvMixCol(Xd(v, w)) == Xd(InvMixCol(v), InvMixCol(w))
  {
    hide Circulant, Xd;
    CirculantXor(0xE, 0xB, 0xD, 9, v, w);
  }

  lemma MixColXor(v: word, w: word)
    ensures MixCol(Xd(v, w)) == Xd(MixCol(v), MixCol(w))
  {
    hide Circulant, Xd;
    CirculantXor(2, 3, 1, 1, v, w);
  }

  /** The inverse coefficients as sums of multiples by powers of x. */
  lemma MulConstants(s: byte)
    ensures Mul(0xE, s) == Xb(Xb(Xtimes(s, 3), Xtimes(s, 2)), Xtimes(s, 1))
    ensures Mul(0xB, s) == Xb(Xb(Xtimes(s, 3), Xtimes(s, 1)), s)
    ensures Mul(0xD, s) == Xb(Xb(Xtimes(s, 3), Xtimes(s, 2)), s)
    ensures Mul(9, s) == Xb(Xtimes(s, 3), s)
    ensures Mul(2, s) == Xtimes(s, 1) && Mul(3, s) == Xb(Xtimes(s, 1), s) && Mul(1, s) == s
  {
    Sums();
    hide Mul, Xb, Xtimes, Xtime;
    XtimesZero(s);
    MulUnit(0, s); MulUnit(1, s); MulUnit(2, s); MulUnit(3, s);
    MulAdd(Xb(8, 4), 2, s); MulAdd(8, 4, s);
    MulAdd(Xb(8, 2), 1, s); MulAdd(8, 2, s);
    MulAdd(Xb(8, 4), 1, s);
    MulAdd(8, 1, s);
    MulAdd(2, 1, s);
  }

  lemma Sums()
    ensures Xb(Xb(8, 4), 2) == 0xE && Xb(Xb(8, 2), 1) == 0xB && Xb(Xb(8, 4), 1) == 0xD && Xb(8, 1) == 9
    ensures Xb(2, 1) == 3
  {
  }

  lemma XtimesZero(s: byte)
    ensures Xtimes(s, 0) == s
  {
  }

  lemma XtimesNext(s: byte)
    ensures Xtimes(Xtimes(s, 1), 1) == Xtimes(s, 2) && Xtimes(Xtimes(s, 1), 2) == Xtimes(s, 3)
    ensures Xtimes(Xtimes(s, 1), 3) == Xtimes(s, 4)
  {
    hide Xtime;
    var t := Xtimes(s, 1);
    assert Xtimes(t, 0) == t;
    assert Xtimes(s, 2) == Xtime(t) && Xtimes(t, 1) == Xtime(t);
    assert Xtimes(s, 3) == Xtime(Xtimes(s, 2)) && Xtimes(t, 2) == Xtime(Xtimes(t, 1));
    assert Xtimes(s, 4) == Xtime(Xtimes(s, 3)) && Xtimes(t, 3) == Xtime(Xtimes(t, 2));
  }

  lemma Doubled(s: byte)
    ensures Mul(0xE, Mul(2, s)) == Mul(0x1C, s) && Mul(0xB, Mul(2, s)) == Mul(0x16, s)
    ensures Mul(0xD, Mul(2, s)) == Mul(0x1A, s) && Mul(9, Mul(2, s)) == Mul(0x12, s)
  {
    MoreSums();
    hide Mul, Xb, Xtimes;
    MulConstants(s);
    MulConstants(Mul(2, s));
    XtimesNext(s);
    MulUnit(1, s); MulUnit(2, s); MulUnit(3, s); MulUnit(4, s);
    MulAdd(Xb(16, 8), 4, s); MulAdd(16, 8, s);
    MulAdd(Xb(16, 4), 2, s); MulAdd(16, 4, s);
    MulAdd(Xb(16, 8), 2, s);
    MulAdd(16, 2, s);
  }

  lemma Tripled(s: byte)
    ensures Mul(0xE, Mul(3, s)) == Mul(0x12, s) && Mul(0xB, Mul(3, s)) == Mul(0x1D, s)
    ensures Mul(0xD, Mul(3, s)) == Mul(0x17, s) && Mul(9, Mul(3, s)) == Mul(0x1B, s)
  {
    ThirdSums();
    hide Mul, Xb, Xtimes;
    MulConstants(s);
    Doubled(s);
    MulAddRight(0xE, Mul(2, s), s); MulAddRight(0xB, Mul(2, s), s);
    MulAddRight(0xD, Mul(2, s), s); MulAddRight(9, Mul(2, s), s);
    MulAdd(0x1C, 0xE, s); MulAdd(0x16, 0xB, s); MulAdd(0x1A, 0xD, s); MulAdd(0x12, 9, s);
  }

  lemma MoreSums()
    ensures Xb(Xb(16, 8), 4) == 0x1C && Xb(Xb(16, 4), 2) == 0x16 && Xb(Xb(16, 8), 2) == 0x1A && Xb(16, 2) == 0x12
  {
  }

  lemma ThirdSums()
    ensures Xb(0x1C, 0xE) == 0x12 && Xb(0x16, 0xB) == 0x1D && Xb(0x1A, 0xD) == 0x17 && Xb(0x12, 9) == 0x1B
  {
  }

  lemma RowSums()
    ensures Xb(Xb(Xb(0x1C, 0xB), 0xD), 0x1B) == 1
    ensures Xb(Xb(Xb(0x12, 0xE), 0xB), 0x17) == 0
    ensures Xb(Xb(Xb(0x1A, 9), 0xE), 0x1D) == 0
    ensures Xb(Xb(Xb(0x16, 0xD), 9), 0x12) == 0
  {
  }

  /** A sum of four multiples of s. */
  lemma FourTerms(i: byte, j: byte, k: byte, l: byte, s: byte)
    ensures Xb(Xb(Xb(Mul(i, s), Mul(j, s)), Mul(k, s)), Mul(l, s)) == Mul(Xb(Xb(Xb(i, j), k), l), s)
  {
    hide Mul, Xb;
    MulAdd(i, j, s);
    MulAdd(Xb(i, j), k, s);
    MulAdd(Xb(Xb(i, j), k), l, s);
  }

  /** The coefficient rows of InvMixColumns against one column of MixColumns. */
  lemma MixRows(s: byte)
    ensures Xb(Xb(Xb(Mul(0xE, Mul(2, s)), Mul(0xB, s)), Mul(0xD, s)), Mul(9, Mul(3, s))) == s
    ensures Xb(Xb(Xb(Mul(9, Mul(2, s)), Mul(0xE, s)), Mul(0xB, s)), Mul(0xD, Mul(3, s))) == 0
    ensures Xb(Xb(Xb(Mul(0xD, Mul(2, s)), Mul(9, s)), Mul(0xE, s)), Mul(0xB, Mul(3, s))) == 0
    ensures Xb(Xb(Xb(Mul(0xB, Mul(2, s)), Mul(0xD, s)), Mul(9, s)), Mul(0xE, Mul(3, s))) == 0
  {
    RowSums();
    hide Mul, Xb;
    Doubled(s);
    Tripled(s);
    FourTerms(0x1C, 0xB, 0xD, 0x1B, s);
    FourTerms(0x12, 0xE, 0xB, 0x17, s);
    FourTerms(0x1A, 9, 0xE, 0x1D, s);
    FourTerms(0x16, 0xD, 9, 0x12, s);
    MulZero(s);
    MulConstants(s);
  }

  /** A sum of four terms may start with its last one. */
  lemma TurnSum(a: byte, b: byte, c: byte, d: byte)
    ensures Xb(Xb(Xb(a, b), c), d) == Xb(Xb(Xb(d, a), b), c)
  {
  }

  lemma DotColumn(s: byte, k0: byte, k1: byte, k2: byte, k3: byte)
    ensures Dot(k0, k1, k2, k3, s, 0, 0, 0) == Mul(k0, s) && Dot(k0, k1, k2, k3, 0, s, 0, 0) == Mul(k1, s)
    ensures Dot(k0, k1, k2, k3, 0, 0, s, 0) == Mul(k2, s) && Dot(k0, k1, k2, k3, 0, 0, 0, s) == Mul(k3, s)
  {
    hide Mul, Xb;
    MulRightZero(k0); MulRightZero(k1); MulRightZero(k2); MulRightZero(k3);
    XbZero(0); XbZero(Mul(k0, s)); XbZero(Mul(k1, s)); XbZero(Mul(k2, s)); XbZero(Mul(k3, s));
  }

  lemma DotTurn(k0: byte, k1: byte, k2: byte, k3: byte, s0: byte, s1: byte, s2: byte, s3: byte)
    ensures Dot(k0, k1, k2, k3, s3, s0, s1, s2) == Dot(k1, k2, k3, k0, s0, s1, s2, s3)
  {
    hide Mul, Xb;
    TurnSum(Mul(k1, s0), Mul(k2, s1), Mul(k3, s2), Mul(k0, s3));
  }

  /** Rotating a column rotates its image under a circulant matrix. */
  lemma CirculantRotate(k0: byte, k1: byte, k2: byte, k3: byte, w: word)
    ensures Circulant(k0, k1, k2, k3, Rotl8(w)) == Rotl8(Circulant(k0, k1, k2, k3, w))
  {
    hide Dot, Pack, B0, B1, B2, B3, Rotl8;
    var s0, s1, s2, s3 := B0(w), B1(w), B2(w), B3(w);
    PackOfBytes(w);
    Rotation8(s0, s1, s2, s3);
    BytesOfPack(s3, s0, s1, s2);
    DotTurn(k0, k1, k2, k3, s0, s1, s2, s3);
    DotTurn(k3, k0, k1, k2, s0, s1, s2, s3);
    DotTurn(k2, k3, k0, k1, s0, s1, s2, s3);
    DotTurn(k1, k2, k3, k0, s0, s1, s2, s3);
    Rotation8(Dot(k0, k1, k2, k3, s0, s1, s2, s3), Dot(k3, k0, k1, k2, s0, s1, s2, s3),
              Dot(k2, k3, k0, k1, s0, s1, s2, s3), Dot(k1, k2, k3, k0, s0, s1, s2, s3));
  }

  ghost predicate Undone(w: word) {
    InvMixCol(MixCol(w)) == w
  }

  lemma UndoneSingle(s: byte)
    ensures Undone(Pack(s, 0, 0, 0))
  {
    hide Mul, Xb, Pack, B0, B1, B2, B3, Dot;
    MulConstants(s);
    MixRows(s);
    BytesOfPack(s, 0, 0, 0);
    DotColumn(s, 2, 3, 1, 1); DotColumn(s, 1, 2, 3, 1); DotColumn(s, 1, 1, 2, 3); DotColumn(s, 3, 1, 1, 2);
    BytesOfPack(Mul(2, s), s, s, Mul(3, s));
    InvRows(Mul(2, s), s, s, Mul(3, s));
  }

  lemma InvRows(a: byte, b: byte, c: byte, d: byte)
    ensures Dot(0xE, 0xB, 0xD, 9, a, b, c, d) == Xb(Xb(Xb(Mul(0xE, a), Mul(0xB, b)), Mul(0xD, c)), Mul(9, d))
    ensures Dot(9, 0xE, 0xB, 0xD, a, b, c, d) == Xb(Xb(Xb(Mul(9, a), Mul(0xE, b)), Mul(0xB, c)), Mul(0xD, d))
    ensures Dot(0xD, 9, 0xE, 0xB, a, b, c, d) == Xb(Xb(Xb(Mul(0xD, a), Mul(9, b)), Mul(0xE, c)), Mul(0xB, d))
    ensures Dot(0xB, 0xD, 9, 0xE, a, b, c, d) == Xb(Xb(Xb(Mul(0xB, a), Mul(0xD, b)), Mul(9, c)), Mul(0xE, d))
  {
    hide Mul, Xb;
  }

  lemma UndoneRotate(w: word)
    requires Undone(w)
    ensures Undone(Rotl8(w))
  {
    hide Circulant, Rotl8;
    CirculantRotate(2, 3, 1, 1, w);
    CirculantRotate(0xE, 0xB, 0xD, 9, MixCol(w));
  }

  lemma UndoneXor(v: word, w: word)
    requires Undone(v) && Undone(w)
    ensures Undone(Xd(v, w))
  {
    hide MixCol, InvMixCol, Xd;
    MixColXor(v, w);
    InvMixColXor(MixCol(v), MixCol(w));
  }

  /** InvMixColumns undoes MixColumns. */
  lemma InvMixMix(w: word)
    ensures InvMixCol(MixCol(w)) == w
  {
    hide Undone, Pack, B0, B1, B2, B3, Xd, Xb, Rotl8;
    var s0, s1, s2, s3 := B0(w), B1(w), B2(w), B3(w);
    PackOfBytes(w);
    Rotation8(s1, 0, 0, 0);
    Rotation8(s2, 0, 0, 0); Rotation8(0, s2, 0, 0);
    Rotation8(s3, 0, 0, 0); Rotation8(0, s3, 0, 0); Rotation8(0, 0, s3, 0);
    UndoneSingle(s0);
    UndoneSingle(s1); UndoneRotate(Pack(s1, 0, 0, 0));
    UndoneSingle(s2); UndoneRotate(Pack(s2, 0, 0, 0)); UndoneRotate(Pack(0, s2, 0, 0));
    UndoneSingle(s3); UndoneRotate(Pack(s3, 0, 0, 0)); UndoneRotate(Pack(0, s3, 0, 0));
    UndoneRotate(Pack(0, 0, s3, 0));
    XbZero(0); XbZero(s0); XbZero(s1); XbZero(s2); XbZero(s3);
    UndoneXor(Pack(s0, 0, 0, 0), Pack(0, s1, 0, 0));
    XdOfPacks(s0, 0, 0, 0, 0, s1, 0, 0);
    UndoneXor(Pack(s0, s1, 0, 0), Pack(0, 0, s2, 0));
    XdOfPacks(s0, s1, 0, 0, 0, 0, s2, 0);
    UndoneXor(Pack(s0, s1, s2, 0), Pack(0, 0, 0, s3));
    XdOfPacks(s0, s1, s2, 0, 0, 0, 0, s3);
    UndoneMeans(w);
  }

  lemma UndoneMeans(w: word)
    requires Undone(w)
    ensures InvMixCol(MixCol(w)) == w
  {
  }
}
