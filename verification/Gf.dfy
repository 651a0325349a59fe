/** Arithmetic in GF(2^8) modulo x^8 + x^4 + x^3 + x + 1, section 4.2 of FIPS 197. */
module Gf {
  import opened Octets
  import Fermat

  function Shifted(a: byte): byte {
    a << 1
  }

  function When(c: bool, p: byte): byte {
    if c then p else 0
  }

  /** Multiplication by x. */
  function Xtime(a: byte): byte {
    Xb(Shifted(a), When(Bit(a, 0x80), 0x1B))
  }

  function Sum(t0: byte, t1: byte, t2: byte, t3: byte, t4: byte, t5: byte, t6: byte, t7: byte): byte {
    Xb(Xb(Xb(t0, t1), Xb(t2, t3)), Xb(Xb(t4, t5), Xb(t6, t7)))
  }

  lemma SumXb(p0: byte, p1: byte, p2: byte, p3: byte, p4: byte, p5: byte, p6: byte, p7: byte,
              q0: byte, q1: byte, q2: byte, q3: byte, q4: byte, q5: byte, q6: byte, q7: byte)
    ensures Sum(Xb(p0, q0), Xb(p1, q1), Xb(p2, q2), Xb(p3, q3), Xb(p4, q4), Xb(p5, q5), Xb(p6, q6), Xb(p7, q7))
         == Xb(Sum(p0, p1, p2, p3, p4, p5, p6, p7), Sum(q0, q1, q2, q3, q4, q5, q6, q7))
  {
    hide Xb;
    XbRegroup(p0, q0, p1, q1); XbRegroup(p2, q2, p3, q3); XbRegroup(p4, q4, p5, q5); XbRegroup(p6, q6, p7, q7);
    XbRegroup(Xb(p0, p1), Xb(q0, q1), Xb(p2, p3), Xb(q2, q3));
    XbRegroup(Xb(p4, p5), Xb(q4, q5), Xb(p6, p7), Xb(q6, q7));
    XbRegroup(Xb(Xb(p0, p1), Xb(p2, p3)), Xb(Xb(q0, q1), Xb(q2, q3)),
              Xb(Xb(p4, p5), Xb(p6, p7)), Xb(Xb(q4, q5), Xb(q6, q7)));
  }

  /** The sum of the terms that the bits of a select. */
  function Select(a: byte, t0: byte, t1: byte, t2: byte, t3: byte, t4: byte, t5: byte, t6: byte, t7: byte): byte {
    Sum(When(Bit(a, 1), t0), When(Bit(a, 2), t1), When(Bit(a, 4), t2), When(Bit(a, 8), t3),
        When(Bit(a, 16), t4), When(Bit(a, 32), t5), When(Bit(a, 64), t6), When(Bit(a, 128), t7))
  }

  /** The product: the sum of the multiples x^k * b that the bits k of a select. */
  function Mul(a: byte, b: byte): byte {
    var b1 := Xtime(b);
    var b2 := Xtime(b1);
    var b3 := Xtime(b2);
    var b4 := Xtime(b3);
    var b5 := Xtime(b4);
    var b6 := Xtime(b5);
    var b7 := Xtime(b6);
    Select(a, b, b1, b2, b3, b4, b5, b6, b7)
  }

  lemma ShiftedXor(a: byte, b: byte)
    ensures Shifted(Xb(a, b)) == Xb(Shifted(a), Shifted(b))
  {
  }

  lemma BitXor(x: byte, y: byte, m: byte)
    requires OneBit(m)
    ensures Bit(Xb(x, y), m) == Xor(Bit(x, m), Bit(y, m))
  {
    assert (x ^ y) & m != 0 <==> ((x & m != 0) != (y & m != 0));
  }

  lemma WhenXor(x: byte, y: byte, m: byte, p: byte)
    requires OneBit(m)
    ensures When(Bit(Xb(x, y), m), p) == Xb(When(Bit(x, m), p), When(Bit(y, m), p))
  {
    BitXor(x, y, m);
    hide Bit, OneBit;
  }

  lemma XtimeXor(a: byte, b: byte)
    ensures Xtime(Xb(a, b)) == Xb(Xtime(a), Xtime(b))
  {
    OneBits();
    hide Xb, Shifted, When, Bit, OneBit;
    ShiftedXor(a, b);
    WhenXor(a, b, 0x80, 0x1B);
    XbRegroup(Shifted(a), When(Bit(a, 0x80), 0x1B), Shifted(b), When(Bit(b, 0x80), 0x1B));
  }

  /** The product is additive in its first factor. */
  lemma MulAdd(x: byte, y: byte, b: byte)
    ensures Mul(Xb(x, y), b) == Xb(Mul(x, b), Mul(y, b))
  {
    var b1 := Xtime(b);
    var b2 := Xtime(b1);
    var b3 := Xtime(b2);
    var b4 := Xtime(b3);
    var b5 := Xtime(b4);
    var b6 := Xtime(b5);
    var b7 := Xtime(b6);
    OneBits();
    hide Xb, Xtime, When, Bit, Sum, OneBit;
    WhenXor(x, y, 1, b); WhenXor(x, y, 2, b1); WhenXor(x, y, 4, b2); WhenXor(x, y, 8, b3);
    WhenXor(x, y, 16, b4); WhenXor(x, y, 32, b5); WhenXor(x, y, 64, b6); WhenXor(x, y, 128, b7);
    SumXb(When(Bit(x, 1), b), When(Bit(x, 2), b1), When(Bit(x, 4), b2), When(Bit(x, 8), b3),
          When(Bit(x, 16), b4), When(Bit(x, 32), b5), When(Bit(x, 64), b6), When(Bit(x, 128), b7),
          When(Bit(y, 1), b), When(Bit(y, 2), b1), When(Bit(y, 4), b2), When(Bit(y, 8), b3),
          When(Bit(y, 16), b4), When(Bit(y, 32), b5), When(Bit(y, 64), b6), When(Bit(y, 128), b7));
  }

  lemma WhenAdd(c: bool, p: byte, q: byte)
    ensures When(c, Xb(p, q)) == Xb(When(c, p), When(c, q))
  {
  }

  lemma SelectAdd(a: byte, x0: byte, x1: byte, x2: byte, x3: byte, x4: byte, x5: byte, x6: byte, x7: byte,
                  y0: byte, y1: byte, y2: byte, y3: byte, y4: byte, y5: byte, y6: byte, y7: byte)
    ensures Select(a, Xb(x0, y0), Xb(x1, y1), Xb(x2, y2), Xb(x3, y3), Xb(x4, y4), Xb(x5, y5), Xb(x6, y6), Xb(x7, y7))
         == Xb(Select(a, x0, x1, x2, x3, x4, x5, x6, x7), Select(a, y0, y1, y2, y3, y4, y5, y6, y7))
  {
    hide Xb, When, Bit, Sum;
    WhenAdd(Bit(a, 1), x0, y0); WhenAdd(Bit(a, 2), x1, y1); WhenAdd(Bit(a, 4), x2, y2); WhenAdd(Bit(a, 8), x3, y3);
    WhenAdd(Bit(a, 16), x4, y4); WhenAdd(Bit(a, 32), x5, y5);
    WhenAdd(Bit(a, 64), x6, y6); WhenAdd(Bit(a, 128), x7, y7);
    SumXb(When(Bit(a, 1), x0), When(Bit(a, 2), x1), When(Bit(a, 4), x2), When(Bit(a, 8), x3),
          When(Bit(a, 16), x4), When(Bit(a, 32), x5), When(Bit(a, 64), x6), When(Bit(a, 128), x7),
          When(Bit(a, 1), y0), When(Bit(a, 2), y1), When(Bit(a, 4), y2), When(Bit(a, 8), y3),
          When(Bit(a, 16), y4), When(Bit(a, 32), y5), When(Bit(a, 64), y6), When(Bit(a, 128), y7));
  }

  /** The product is additive in its second factor. */
  lemma MulAddRight(a: byte, x: byte, y: byte)
    ensures Mul(a, Xb(x, y)) == Xb(Mul(a, x), Mul(a, y))
  {
    hide Xb, Xtime, Select;
    var x1, y1 := Xtime(x), Xtime(y);
    var x2, y2 := Xtime(x1), Xtime(y1);
    var x3, y3 := Xtime(x2), Xtime(y2);
    var x4, y4 := Xtime(x3), Xtime(y3);
    var x5, y5 := Xtime(x4), Xtime(y4);
    var x6, y6 := Xtime(x5), Xtime(y5);
    var x7, y7 := Xtime(x6), Xtime(y6);
    XtimeXor(x, y); XtimeXor(x1, y1); XtimeXor(x2, y2); XtimeXor(x3, y3);
    XtimeXor(x4, y4); XtimeXor(x5, y5); XtimeXor(x6, y6);
    SelectAdd(a, x, x1, x2, x3, x4, x5, x6, x7, y, y1, y2, y3, y4, y5, y6, y7);
  }

  /** x^8 reduces to x^4 + x^3 + x + 1. */
  lemma Reduction(b: byte)
    ensures Xtime(Xtime(Xtime(Xtime(Xtime(Xtime(Xtime(Xtime(b))))))))
         == Xb(Xb(b, Xtime(b)), Xb(Xtime(Xtime(Xtime(b))), Xtime(Xtime(Xtime(Xtime(b))))))
  {
  }

  lemma SumOne(t: byte)
    ensures Sum(t, 0, 0, 0, 0, 0, 0, 0) == t && Sum(0, t, 0, 0, 0, 0, 0, 0) == t
    ensures Sum(0, 0, t, 0, 0, 0, 0, 0) == t && Sum(0, 0, 0, t, 0, 0, 0, 0) == t
    ensures Sum(0, 0, 0, 0, t, 0, 0, 0) == t && Sum(0, 0, 0, 0, 0, t, 0, 0) == t
    ensures Sum(0, 0, 0, 0, 0, 0, t, 0) == t && Sum(0, 0, 0, 0, 0, 0, 0, t) == t
  {
  }

  function Xtimes(b: byte, k: nat): byte {
    if k == 0 then b else Xtime(Xtimes(b, k - 1))
  }

  function Unit(k: nat): byte
    requires k < 8
  {
    match k
    case 0 => 1 case 1 => 2 case 2 => 4 case 3 => 8 case 4 => 16 case 5 => 32 case 6 => 64 case 7 => 128
  }

  lemma UnitBits(k: nat)
    requires k < 8
    ensures Bit(Unit(k), 1) == (k == 0) && Bit(Unit(k), 2) == (k == 1) && Bit(Unit(k), 4) == (k == 2)
    ensures Bit(Unit(k), 8) == (k == 3) && Bit(Unit(k), 16) == (k == 4) && Bit(Unit(k), 32) == (k == 5)
    ensures Bit(Unit(k), 64) == (k == 6) && Bit(Unit(k), 128) == (k == 7)
  {
  }

  lemma WhenOnly(c: bool, t: byte)
    ensures When(c, t) == if c then t else 0
  {
  }

  lemma SelectUnit(k: nat, t0: byte, t1: byte, t2: byte, t3: byte, t4: byte, t5: byte, t6: byte, t7: byte)
    requires k < 8
    ensures Select(Unit(k), t0, t1, t2, t3, t4, t5, t6, t7) == [t0, t1, t2, t3, t4, t5, t6, t7][k]
  {
    hide Sum, Bit, When, Unit;
    UnitBits(k);
    WhenOnly(k == 0, t0); WhenOnly(k == 1, t1); WhenOnly(k == 2, t2); WhenOnly(k == 3, t3);
    WhenOnly(k == 4, t4); WhenOnly(k == 5, t5); WhenOnly(k == 6, t6); WhenOnly(k == 7, t7);
    SumOne([t0, t1, t2, t3, t4, t5, t6, t7][k]);
  }

  /** Multiplying by x^k. */
  lemma MulUnit(k: nat, b: byte)
    requires k < 8
    ensures Mul(Unit(k), b) == Xtimes(b, k)
  {
    hide Select, Xtime, Unit;
    var b1 := Xtimes(b, 1);
    var b2 := Xtimes(b, 2);
    var b3 := Xtimes(b, 3);
    var b4 := Xtimes(b, 4);
    var b5 := Xtimes(b, 5);
    var b6 := Xtimes(b, 6);
    var b7 := Xtimes(b, 7);
    assert Xtimes(b, 0) == b;
    assert b1 == Xtime(b) && b2 == Xtime(b1) && b3 == Xtime(b2) && b4 == Xtime(b3);
    assert b5 == Xtime(b4) && b6 == Xtime(b5) && b7 == Xtime(b6);
    SelectUnit(k, b, b1, b2, b3, b4, b5, b6, b7);
  }

  lemma MulZero(b: byte)
    ensures Mul(0, b) == 0
  {
    hide Xtime;
  }

  /** Multiplying the first factor by x multiplies the product by x: the property for the factor a. */
  ghost predicate Commutes(a: byte, b: byte) {
    Mul(Xtime(a), b) == Xtime(Mul(a, b))
  }

  lemma CommutesXor(x: byte, y: byte, b: byte)
    requires Commutes(x, b) && Commutes(y, b)
    ensures Commutes(Xb(x, y), b)
  {
    hide Mul, Xtime, Xb;
    XtimeXor(x, y);
    MulAdd(x, y, b);
    MulAdd(Xtime(x), Xtime(y), b);
    XtimeXor(Mul(x, b), Mul(y, b));
  }

  lemma CommutesUnit(k: nat, b: byte)
    requires k < 8
    ensures Commutes(Unit(k), b)
  {
    if k < 7 {
      assert Xtime(Unit(k)) == Unit(k + 1);
      hide Mul, Xtime, Unit;
      MulUnit(k, b);
      MulUnit(k + 1, b);
    } else {
      hide Mul;
      CommutesTop(b);
    }
  }

  lemma TopUnit()
    ensures Xtime(128) == Xb(Xb(1, 2), Xb(8, 16))
  {
  }

  lemma CommutesTop(b: byte)
    ensures Commutes(128, b)
  {
    hide Mul, Xtime, Xb;
    TopUnit();
    MulUnit(0, b); MulUnit(1, b); MulUnit(3, b); MulUnit(4, b); MulUnit(7, b);
    MulAdd(Xb(1, 2), Xb(8, 16), b);
    MulAdd(1, 2, b);
    MulAdd(8, 16, b);
    Reduction(b);
    XtimesEight(b);
  }

  lemma XtimesEight(b: byte)
    ensures Xtimes(b, 0) == b && Xtimes(b, 1) == Xtime(b) && Xtimes(b, 3) == Xtime(Xtime(Xtime(b)))
    ensures Xtimes(b, 4) == Xtime(Xtime(Xtime(Xtime(b))))
    ensures Xtimes(b, 7) == Xtime(Xtime(Xtime(Xtime(Xtime(Xtime(Xtime(b)))))))
  {
    hide Xtime;
    assert Xtimes(b, 2) == Xtime(Xtimes(b, 1));
    assert Xtimes(b, 5) == Xtime(Xtimes(b, 4)) && Xtimes(b, 6) == Xtime(Xtimes(b, 5));
  }

  lemma XtimeZero()
    ensures Xtime(0) == 0
  {
  }

  lemma CommutesBit(c: bool, k: nat, b: byte)
    requires k < 8
    ensures Commutes(When(c, Unit(k)), b)
  {
    hide Mul, Xtime, Unit;
    MulZero(b);
    XtimeZero();
    CommutesUnit(k, b);
  }

  lemma Bits(a: byte)
    ensures a == Sum(When(Bit(a, 1), Unit(0)), When(Bit(a, 2), Unit(1)), When(Bit(a, 4), Unit(2)),
                     When(Bit(a, 8), Unit(3)), When(Bit(a, 16), Unit(4)), When(Bit(a, 32), Unit(5)),
                     When(Bit(a, 64), Unit(6)), When(Bit(a, 128), Unit(7)))
  {
  }

  lemma XtimeMul(a: byte, b: byte)
    ensures Mul(Xtime(a), b) == Xtime(Mul(a, b))
  {
    Bits(a);
    hide Mul, Xtime, Unit, When, Bit, Xb, Commutes;
    var t0, t1 := When(Bit(a, 1), Unit(0)), When(Bit(a, 2), Unit(1));
    var t2, t3 := When(Bit(a, 4), Unit(2)), When(Bit(a, 8), Unit(3));
    var t4, t5 := When(Bit(a, 16), Unit(4)), When(Bit(a, 32), Unit(5));
    var t6, t7 := When(Bit(a, 64), Unit(6)), When(Bit(a, 128), Unit(7));
    CommutesBit(Bit(a, 1), 0, b); CommutesBit(Bit(a, 2), 1, b);
    CommutesBit(Bit(a, 4), 2, b); CommutesBit(Bit(a, 8), 3, b);
    CommutesBit(Bit(a, 16), 4, b); CommutesBit(Bit(a, 32), 5, b);
    CommutesBit(Bit(a, 64), 6, b); CommutesBit(Bit(a, 128), 7, b);
    CommutesXor(t0, t1, b); CommutesXor(t2, t3, b); CommutesXor(t4, t5, b); CommutesXor(t6, t7, b);
    CommutesXor(Xb(t0, t1), Xb(t2, t3), b);
    CommutesXor(Xb(t4, t5), Xb(t6, t7), b);
    CommutesXor(Xb(Xb(t0, t1), Xb(t2, t3)), Xb(Xb(t4, t5), Xb(t6, t7)), b);
    CommutesMeans(a, b);
  }

  lemma CommutesMeans(a: byte, b: byte)
    requires Commutes(a, b)
    ensures Mul(Xtime(a), b) == Xtime(Mul(a, b))
  {
  }

  // ---------- the powers of 3 ----------

  /** 3^i. */
  function Power(i: nat): byte {
    if i == 0 then 1 else Xb(Power(i - 1), Xtime(Power(i - 1)))
  }

  lemma {:induction false} PowerAdd(i: nat, j: nat)
    ensures Mul(Power(i), Power(j)) == Power(i + j)
  {
    hide Mul, Xb, Xtime;
    if i == 0 {
      MulUnit(0, Power(j));
    } else {
      PowerAdd(i - 1, j);
      MulAdd(Power(i - 1), Xtime(Power(i - 1)), Power(j));
      XtimeMul(Power(i - 1), Power(j));
    }
  }

  /** The order of 3 divides 255, but not 85, 51 or 15. */
  lemma PowerValues()
    ensures Power(255) == 1 && Power(85) == 0xbd && Power(51) == 0x0c && Power(15) == 0x35
  {
    hide Mul, Power;
    Products();
    FirstPowers();
    PowerAdd(1, 1);
    PowerAdd(2, 2);
    PowerAdd(1, 4);
    PowerAdd(5, 5);
    PowerAdd(5, 10);
    PowerAdd(1, 15);
    PowerAdd(1, 16);
    PowerAdd(17, 17);
    PowerAdd(17, 34);
    PowerAdd(34, 51);
    PowerAdd(85, 85);
    PowerAdd(85, 170);
  }

  lemma FirstPowers()
    ensures Power(0) == 1 && Power(1) == 3
  {
  }

  lemma Products()
    ensures Mul(3, 3) == 5 && Mul(5, 5) == 0x11 && Mul(3, 0x11) == 0x33 && Mul(0x33, 0x33) == 0x72
    ensures Mul(0x33, 0x72) == 0x35 && Mul(3, 0x35) == 0x5f && Mul(3, 0x5f) == 0xe1 && Mul(0xe1, 0xe1) == 0x5c
    ensures Mul(0xe1, 0x5c) == 0x0c && Mul(0x5c, 0x0c) == 0xbd && Mul(0xbd, 0xbd) == 0xbc && Mul(0xbd, 0xbc) == 1
  {
  }

  lemma {:induction false} PowerMultiple(d: nat, k: nat)
    requires Power(d) == 1
    ensures Power(k * d) == 1
  {
    hide Mul, Power;
    FirstPowers();
    if k > 0 {
      PowerMultiple(d, k - 1);
      PowerAdd(d, (k - 1) * d);
      assert d + (k - 1) * d == k * d;
      MulUnit(0, 1);
    }
  }

  lemma SmallDivisor(g: nat, q: nat)
    requires g * q == 255 && 1 <= g < 255
    ensures exists k: nat :: k * g == 85 || k * g == 51 || k * g == 15
  {
    if g <= 15 {
      assert g == 1 || g == 3 || g == 5 || g == 15;
      assert 15 * 1 == 15 && 5 * 3 == 15 && 3 * 5 == 15 && 1 * 15 == 15;
    } else {
      assert q <= 15;
      assert q == 3 || q == 5 || q == 15;
      assert g == 85 || g == 51 || g == 17;
      assert 1 * 85 == 85 && 1 * 51 == 51 && 3 * 17 == 51;
    }
  }

  /** 3 generates the multiplicative group: no smaller power of 3 is 1. */
  lemma {:induction false} PowerNotOne(d: nat)
    requires 1 <= d < 255
    ensures Power(d) != 1
    decreases d
  {
    hide Mul, Power;
    if Power(d) == 1 {
      PowerValues();
      var q, r := 255 / d, 255 % d;
      PowerMultiple(d, q);
      assert q * d + r == 255;
      PowerAdd(q * d, r);
      MulUnit(0, Power(r));
      if r == 0 {
        assert d * q == 255;
        SmallDivisor(d, q);
        var k: nat :| k * d == 85 || k * d == 51 || k * d == 15;
        PowerMultiple(d, k);
      } else {
        PowerNotOne(r);
      }
    }
  }

  lemma PowerDistinct(i: nat, j: nat)
    requires 1 <= i < j <= 255
    ensures Power(i) != Power(j)
  {
    hide Mul, Power;
    if Power(i) == Power(j) {
      PowerValues();
      PowerAdd(i, 255 - i);
      PowerAdd(j, 255 - i);
      PowerAdd(255, j - i);
      MulUnit(0, Power(j - i));
      PowerNotOne(j - i);
    }
  }

  lemma PowerNonzero(i: nat)
    requires i <= 255
    ensures Power(i) != 0
  {
    hide Mul, Power;
    PowerAdd(i, 255 - i);
    PowerValues();
    MulZero(Power(255 - i));
  }

  /** The indices of the powers 3^1, ..., 3^k. */
  ghost function Powers(k: nat): set<int> {
    if k == 0 then {} else Powers(k - 1) + {Index(Power(k))}
  }

  lemma {:induction false} PowersMember(k: nat, n: int)
    requires n in Powers(k)
    ensures exists i {:trigger Power(i)} :: 1 <= i <= k && n == Index(Power(i))
  {
    if n != Index(Power(k)) {
      PowersMember(k - 1, n);
    }
  }

  lemma SameIndex(x: byte, y: byte)
    requires Index(x) == Index(y)
    ensures x == y
  {
    OctetOfIndex(x);
    OctetOfIndex(y);
  }

  lemma {:induction false} PowersCount(k: nat)
    requires k <= 255
    ensures |Powers(k)| == k && forall n :: n in Powers(k) ==> 1 <= n <= 255
  {
    if k > 0 {
      hide Power, Index;
      PowersCount(k - 1);
      if Index(Power(k)) in Powers(k - 1) {
        PowersMember(k - 1, Index(Power(k)));
        var i :| 1 <= i <= k - 1 && Index(Power(k)) == Index(Power(i));
        SameIndex(Power(k), Power(i));
        PowerDistinct(i, k);
      }
      PowerNonzero(k);
      if Index(Power(k)) == 0 {
        SameIndex(Power(k), 0) by { ZeroIndex(); }
      }
    }
  }

  lemma ZeroIndex()
    ensures Index(0) == 0
  {
  }

  /** Every nonzero byte is a power of 3. */
  lemma Logarithm(x: byte) returns (i: nat)
    requires x != 0
    ensures 1 <= i <= 255 && Power(i) == x
  {
    hide Power, Index, Powers;
    PowersCount(255);
    Fermat.Pigeonhole(Powers(255), 255);
    ZeroIndex();
    if Index(x) == 0 {
      SameIndex(x, 0);
    }
    PowersMember(255, Index(x));
    i :| 1 <= i <= 255 && Index(x) == Index(Power(i));
    SameIndex(x, Power(i));
  }
}
