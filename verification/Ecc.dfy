/** The NAND error-correcting code: wiinandfuse/source/ecc.c. */
module Ecc {
  import opened Octets

  const SECTOR := 512

  // ---------- parity ----------

  function Right4(x: byte): byte { x >> 4 }

  function Fold4(x: byte): byte { Xb(x, Right4(x)) }

  function Right2(x: byte): byte { x >> 2 }

  function Fold2(x: byte): byte { Xb(x, Right2(x)) }

  function Right1(x: byte): byte { x >> 1 }

  function Fold1(x: byte): byte { Xb(x, Right1(x)) }

  /** The parity of a byte, by folding it onto itself. */
  function Parity(x: byte): byte {
    Fold1(Fold2(Fold4(x))) & 1
  }

  method ParityLoop(x0: byte) returns (y: byte)
    ensures y == Parity(x0)
  {
    var x := x0;
    y := 0;
    while x != 0
      invariant Parity(x0) == y ^ Parity(x)
      decreases x
    {
      y := y ^ (x & 1);
      x := x >> 1;
    }
  }

  predicate IsOdd(x: byte) {
    Parity(x) == 1
  }

  lemma RightXor(x: byte, y: byte)
    ensures Right4(Xb(x, y)) == Xb(Right4(x), Right4(y))
    ensures Right2(Xb(x, y)) == Xb(Right2(x), Right2(y))
    ensures Right1(Xb(x, y)) == Xb(Right1(x), Right1(y))
  {
  }

  lemma Fold4Xor(x: byte, y: byte)
    ensures Fold4(Xb(x, y)) == Xb(Fold4(x), Fold4(y))
  {
    RightXor(x, y);
    hide Xb, Right4;
    XbRegroup(x, y, Right4(x), Right4(y));
  }

  lemma Fold2Xor(x: byte, y: byte)
    ensures Fold2(Xb(x, y)) == Xb(Fold2(x), Fold2(y))
  {
    RightXor(x, y);
    hide Xb, Right2;
    XbRegroup(x, y, Right2(x), Right2(y));
  }

  lemma Fold1Xor(x: byte, y: byte)
    ensures Fold1(Xb(x, y)) == Xb(Fold1(x), Fold1(y))
  {
    RightXor(x, y);
    hide Xb, Right1;
    XbRegroup(x, y, Right1(x), Right1(y));
  }

  lemma LastXor(x: byte, y: byte)
    ensures (Xb(x, y) & 1 == 1) == Xor(x & 1 == 1, y & 1 == 1)
  {
  }

  lemma OddXor(x: byte, y: byte)
    ensures IsOdd(Xb(x, y)) == Xor(IsOdd(x), IsOdd(y))
  {
    hide Fold4, Fold2, Fold1, Xb, Xor;
    Fold4Xor(x, y);
    Fold2Xor(Fold4(x), Fold4(y));
    Fold1Xor(Fold2(Fold4(x)), Fold2(Fold4(y)));
    LastXor(Fold1(Fold2(Fold4(x))), Fold1(Fold2(Fold4(y))));
  }

  lemma OddBits(x: byte)
    ensures IsOdd(x) == Xor(Xor(Xor(Xor(Xor(Xor(Xor(Bit(x, 1), Bit(x, 2)), Bit(x, 4)), Bit(x, 8)),
                                        Bit(x, 16)), Bit(x, 32)), Bit(x, 64)), Bit(x, 128))
  {
  }

  // ---------- single bits ----------

  /** The mask of bit j. */
  function Mask(j: nat): bv16
    requires j < 12
  {
    match j
    case 0 => 1 case 1 => 2 case 2 => 4 case 3 => 8
    case 4 => 0x10 case 5 => 0x20 case 6 => 0x40 case 7 => 0x80
    case 8 => 0x100 case 9 => 0x200 case 10 => 0x400 case 11 => 0x800
  }

  predicate IsBit(m: bv16) {
    m != 0 && m & (m - 1) == 0
  }

  predicate Has(x: bv16, m: bv16) {
    x & m != 0
  }

  lemma HasXor(x: bv16, y: bv16, m: bv16)
    requires IsBit(m)
    ensures Has(Xw(x, y), m) == Xor(Has(x, m), Has(y, m))
  {
    assert (x ^ y) & m != 0 <==> ((x & m != 0) != (y & m != 0));
  }

  lemma {:induction false} MaskLess(j: nat, k: nat)
    requires j < k < 12
    ensures Mask(j) < Mask(k)
    decreases k - j
  {
    if j + 1 < k {
      MaskLess(j + 1, k);
    }
  }

  lemma MaskIsBit(j: nat)
    requires j < 12
    ensures IsBit(Mask(j)) && Mask(j) < 0x1000
  {
  }

  lemma BitsDisjoint(j: nat, k: nat)
    requires j < 12 && k < 12 && j != k
    ensures Mask(j) & Mask(k) == 0
  {
    MaskLess(if j < k then j else k, if j < k then k else j);
    assert IsBit(Mask(j)) && IsBit(Mask(k));
  }

  /** Twelve-bit words with the same bits are equal. */
  lemma SameBits(x: bv16, y: bv16)
    requires x < 0x1000 && y < 0x1000
    requires forall j: nat :: j < 12 ==> Has(x, Mask(j)) == Has(y, Mask(j))
    ensures x == y
  {
    hide Has;
    SameTwelve(x, y,
      Has(x, Mask(0)), Has(x, Mask(1)), Has(x, Mask(2)), Has(x, Mask(3)), Has(x, Mask(4)), Has(x, Mask(5)),
      Has(x, Mask(6)), Has(x, Mask(7)), Has(x, Mask(8)), Has(x, Mask(9)), Has(x, Mask(10)), Has(x, Mask(11)));
  }

  lemma SameTwelve(x: bv16, y: bv16, b0: bool, b1: bool, b2: bool, b3: bool, b4: bool, b5: bool, b6: bool,
                   b7: bool, b8: bool, b9: bool, b10: bool, b11: bool)
    requires x < 0x1000 && y < 0x1000
    requires Has(x, 1) == b0 == Has(y, 1) && Has(x, 2) == b1 == Has(y, 2) && Has(x, 4) == b2 == Has(y, 4)
    requires Has(x, 8) == b3 == Has(y, 8) && Has(x, 0x10) == b4 == Has(y, 0x10) && Has(x, 0x20) == b5 == Has(y, 0x20)
    requires Has(x, 0x40) == b6 == Has(y, 0x40) && Has(x, 0x80) == b7 == Has(y, 0x80)
    requires Has(x, 0x100) == b8 == Has(y, 0x100) && Has(x, 0x200) == b9 == Has(y, 0x200)
    requires Has(x, 0x400) == b10 == Has(y, 0x400) && Has(x, 0x800) == b11 == Has(y, 0x800)
    ensures x == y
  {
  }

  // ---------- what the code means ----------

  /** Bit j of the index i, as a shift right by j and a mask by 1 give it. */
  predicate IndexBit(i: nat, j: nat) {
    if j == 0 then i % 2 == 1 else IndexBit(i / 2, j - 1)
  }

  /** The low 16 bits of an index. */
  function Word(i: nat): bv16 {
    if i == 0 then 0 else Append(Word(i / 2), i % 2 == 1)
  }

  function When(c: bool, p: bv16): bv16 {
    if c then p else 0
  }

  function Append(x: bv16, odd: bool): bv16 {
    (x << 1) | When(odd, 1)
  }

  predicate Nine(x: bv16) {
    x < 0x200
  }

  lemma {:induction false} WordValue(i: nat)
    requires i < SECTOR
    ensures Word(i) as int == i && Nine(Word(i))
  {
    hide Append, Nine, Word;
    WordAppend(i);
    if i > 0 {
      WordValue(i / 2);
      AppendValue(Word(i / 2), i % 2 == 1);
    }
    NineBound(Word(i));
  }

  lemma AppendValue(x: bv16, odd: bool)
    requires Nine(x)
    ensures Append(x, odd) as int == 2 * (x as int) + if odd then 1 else 0
  {
  }

  lemma NineBound(x: bv16)
    requires x as int < 512
    ensures Nine(x)
  {
  }

  /** The position of bit 0 of a byte. */
  function Start(w: bv16): bv16 {
    w << 3
  }

  lemma {:induction false} WordBit(i: nat, j: nat)
    requires i < SECTOR && j < 9
    ensures Has(Start(Word(i)), Mask(j + 3)) == IndexBit(i, j)
  {
    hide Has, Start, Append, Nine, Mask, Word;
    WordValue(i / 2);
    WordAppend(i);
    if i == 0 {
      NoIndexBit(j);
      ZeroBit(j);
    } else if j == 0 {
      LastBit(Word(i / 2), i % 2 == 1);
    } else {
      WordBit(i / 2, j - 1);
      ShiftedBit(Word(i / 2), i % 2 == 1, j + 2);
    }
  }

  lemma WordAppend(i: nat)
    ensures i == 0 ==> Word(i) == 0
    ensures i > 0 ==> Word(i) == Append(Word(i / 2), i % 2 == 1)
  {
  }

  lemma {:induction false} NoIndexBit(j: nat)
    ensures !IndexBit(0, j)
  {
    if j > 0 {
      NoIndexBit(j - 1);
    }
  }

  lemma ZeroBit(j: nat)
    requires j < 9
    ensures !Has(Start(0), Mask(j + 3))
  {
  }

  lemma LastBit(x: bv16, odd: bool)
    ensures Has(Start(Append(x, odd)), Mask(3)) == odd
  {
  }

  lemma ShiftedBit(x: bv16, odd: bool, k: nat)
    requires 3 <= k < 11 && Nine(x)
    ensures Has(Start(Append(x, odd)), Mask(k + 1)) == Has(Start(x), Mask(k))
  {
  }

  /** The 12-bit position of bit b of byte i. */
  function Position(i: nat, b: bv16): bv16 {
    Start(Word(i)) | b
  }

  /** The exclusive or of the p that the bits of x select. */
  function Select(x: byte, p0: bv16, p1: bv16, p2: bv16, p3: bv16, p4: bv16, p5: bv16, p6: bv16, p7: bv16): bv16 {
    Xw(Xw(Xw(Xw(Xw(Xw(Xw(
      When(Bit(x, 1), p0), When(Bit(x, 2), p1)), When(Bit(x, 4), p2)), When(Bit(x, 8), p3)),
      When(Bit(x, 16), p4)), When(Bit(x, 32), p5)), When(Bit(x, 64), p6)), When(Bit(x, 128), p7))
  }

  /** The exclusive or of the positions of the bits that are set in byte i. */
  function ByteOdd(i: nat, x: byte): bv16 {
    Select(x, Position(i, 0), Position(i, 1), Position(i, 2), Position(i, 3),
           Position(i, 4), Position(i, 5), Position(i, 6), Position(i, 7))
  }

  function Not(i: nat, b: bv16): bv16 {
    0xfff ^ Position(i, b)
  }

  /** The exclusive or of the complements of those positions. */
  function ByteEven(i: nat, x: byte): bv16 {
    Select(x, Not(i, 0), Not(i, 1), Not(i, 2), Not(i, 3),
           Not(i, 4), Not(i, 5), Not(i, 6), Not(i, 7))
  }

  /** The exclusive or of the positions of all set bits of a sector. */
  function Odd(s: seq<byte>): bv16 {
    if s == [] then 0 else Xw(Odd(s[..|s| - 1]), ByteOdd(|s| - 1, s[|s| - 1]))
  }

  /** The exclusive or of the complemented positions of all set bits of a sector. */
  function Even(s: seq<byte>): bv16 {
    if s == [] then 0 else Xw(Even(s[..|s| - 1]), ByteEven(|s| - 1, s[|s| - 1]))
  }

  function Low(x: bv16): byte { (x & 0xff) as byte }

  function High(x: bv16): byte { (x >> 8) as byte }

  /** The four bytes that are stored for a sector. */
  function Code(s: seq<byte>): seq<byte> {
    [Low(Even(s)), High(Even(s)), Low(Odd(s)), High(Odd(s))]
  }

  /** The code of a sector in which only bit 15, the highest of byte 1, is set: the complement of the position in 12
      bits comes first, the low byte first in both. */
  lemma ExampleCode()
    ensures Code([0, 0x80] + Zeros(510)) == [0xF0, 0x0F, 0x0F, 0x00]
  {
    ZeroTail([0, 0x80], 510);
    var s: seq<byte> := [0, 0x80];
    assert s[..1] == [0] && [0][..0] == [];
    PositionFifteen();
    NoBits(0);
    hide ByteOdd, ByteEven;
    assert Odd(s[..1]) == 0 && Even(s[..1]) == 0;
  }

  lemma PositionFifteen()
    ensures ByteOdd(1, 0x80) == 0x00F && ByteEven(1, 0x80) == 0xFF0
  {
    assert Word(1) == 1;
  }

  lemma NoBits(i: nat)
    ensures ByteOdd(i, 0) == 0 && ByteEven(i, 0) == 0
  {
    hide Position, Not;
  }

  lemma {:induction false} ZeroTail(s: seq<byte>, n: nat)
    ensures Odd(s + Zeros(n)) == Odd(s) && Even(s + Zeros(n)) == Even(s)
  {
    hide ByteOdd, ByteEven;
    if n == 0 {
      assert s + Zeros(0) == s;
    } else {
      var t := s + Zeros(n);
      assert t[..|t| - 1] == s + Zeros(n - 1);
      ZeroTail(s, n - 1);
      NoBits(|t| - 1);
    }
  }

  // ---------- how calc_ecc computes it ----------

  /** The exclusive or of the bytes whose index has bit j equal to v. */
  function Acc(s: seq<byte>, j: nat, v: bool): byte {
    if s == [] then 0
    else
      var i := |s| - 1;
      Xb(Acc(s[..i], j, v), if IndexBit(i, j) == v then s[i] else 0)
  }

  function Total(s: seq<byte>): byte {
    if s == [] then 0 else Xb(Total(s[..|s| - 1]), s[|s| - 1])
  }

  lemma {:induction false} AccSplit(s: seq<byte>, j: nat)
    ensures Xb(Acc(s, j, false), Acc(s, j, true)) == Total(s)
  {
    hide Xb, IndexBit;
    if s == [] {
      XbZero(0);
    } else {
      var i := |s| - 1;
      AccSplit(s[..i], j);
      XbAddOne(Acc(s[..i], j, false), Acc(s[..i], j, true), s[i]);
    }
  }

  lemma XbAddOne(x: byte, y: byte, z: byte)
    ensures Xb(Xb(x, z), Xb(y, 0)) == Xb(Xb(x, y), z) == Xb(Xb(x, 0), Xb(y, z))
  {
  }

  /** The bytes of which half v of row j takes the parity: calc_ecc's a[j][v] before the parity loop. */
  function Row(s: seq<byte>, j: nat, v: bool): byte
    requires j < 12
  {
    match j
    case 0 => And(Total(s), if v then 0xaa else 0x55)
    case 1 => And(Total(s), if v then 0xcc else 0x33)
    case 2 => And(Total(s), if v then 0xf0 else 0x0f)
    case _ => Acc(s, j - 3, v)
  }

  lemma RowStep(s: seq<byte>, j: nat, v: bool)
    requires s != [] && j < 12
    ensures Row(s, j, v) == Xb(Row(s[..|s| - 1], j, v), And(s[|s| - 1], RowMask(|s| - 1, j, v)))
  {
    hide Xb, And;
    var i := |s| - 1;
    MaskXor(Total(s[..i]), s[i], RowMask(i, j, v));
    AndAll(s[i]);
  }

  lemma MaskXor(x: byte, y: byte, m: byte)
    ensures And(Xb(x, y), m) == Xb(And(x, m), And(y, m))
  {
  }

  lemma AndAll(x: byte)
    ensures And(x, 0xff) == x && And(x, 0) == 0
  {
  }

  lemma SelectedBit(x: byte, q: byte, b: byte, p: bv16, m: bv16)
    requires Bit(q, b) == Has(p, m) && OneBit(b)
    ensures Has(When(Bit(x, b), p), m) == Bit(And(x, q), b)
  {
  }

  lemma HasSelect(x: byte, p0: bv16, p1: bv16, p2: bv16, p3: bv16, p4: bv16, p5: bv16, p6: bv16, p7: bv16, m: bv16)
    requires IsBit(m)
    ensures Has(Select(x, p0, p1, p2, p3, p4, p5, p6, p7), m)
         == Xor(Xor(Xor(Xor(Xor(Xor(Xor(Has(When(Bit(x, 1), p0), m), Has(When(Bit(x, 2), p1), m)),
                                        Has(When(Bit(x, 4), p2), m)), Has(When(Bit(x, 8), p3), m)),
                                Has(When(Bit(x, 16), p4), m)), Has(When(Bit(x, 32), p5), m)),
                    Has(When(Bit(x, 64), p6), m)), Has(When(Bit(x, 128), p7), m))
  {
    hide Has, Xor, Bit, IsBit, When, Xw;
    var t0, t1, t2, t3 := When(Bit(x, 1), p0), When(Bit(x, 2), p1), When(Bit(x, 4), p2), When(Bit(x, 8), p3);
    var t4, t5, t6, t7 := When(Bit(x, 16), p4), When(Bit(x, 32), p5), When(Bit(x, 64), p6), When(Bit(x, 128), p7);
    var u1 := Xw(t0, t1);
    var u2 := Xw(u1, t2);
    var u3 := Xw(u2, t3);
    var u4 := Xw(u3, t4);
    var u5 := Xw(u4, t5);
    var u6 := Xw(u5, t6);
    HasXor(t0, t1, m); HasXor(u1, t2, m); HasXor(u2, t3, m); HasXor(u3, t4, m);
    HasXor(u4, t5, m); HasXor(u5, t6, m); HasXor(u6, t7, m);
  }

  lemma SelectBit(x: byte, p0: bv16, p1: bv16, p2: bv16, p3: bv16, p4: bv16, p5: bv16, p6: bv16, p7: bv16,
                  m: bv16, q: byte)
    requires IsBit(m)
    requires Bit(q, 1) == Has(p0, m) && Bit(q, 2) == Has(p1, m) && Bit(q, 4) == Has(p2, m) && Bit(q, 8) == Has(p3, m)
    requires Bit(q, 16) == Has(p4, m) && Bit(q, 32) == Has(p5, m) && Bit(q, 64) == Has(p6, m)
    requires Bit(q, 128) == Has(p7, m)
    ensures Has(Select(x, p0, p1, p2, p3, p4, p5, p6, p7), m) == IsOdd(And(x, q))
  {
    OneBits();
    hide Has, IsOdd, Xor, Bit, OneBit, IsBit, When, And, Xw, Select;
    HasSelect(x, p0, p1, p2, p3, p4, p5, p6, p7, m);
    OddBits(And(x, q));
    SelectedBit(x, q, 1, p0, m); SelectedBit(x, q, 2, p1, m);
    SelectedBit(x, q, 4, p2, m); SelectedBit(x, q, 8, p3, m);
    SelectedBit(x, q, 16, p4, m); SelectedBit(x, q, 32, p5, m);
    SelectedBit(x, q, 64, p6, m); SelectedBit(x, q, 128, p7, m);
  }

  /** The bits b of byte i whose position has bit j equal to v. */
  function RowMask(i: nat, j: nat, v: bool): byte
    requires j < 12
  {
    match j
    case 0 => if v then 0xaa else 0x55
    case 1 => if v then 0xcc else 0x33
    case 2 => if v then 0xf0 else 0x0f
    case _ => if IndexBit(i, j - 3) == v then 0xff else 0
  }

  /** q and p select the bits of byte w whose position has bit m set, or clear. */
  predicate PositionMask(w: bv16, m: bv16, q: byte, p: byte) {
    && IsBit(m) && m < 0x1000 && Nine(w) && p == q ^ 0xff
    && q == if m == 1 then 0xaa else if m == 2 then 0xcc else if m == 4 then 0xf0
            else if Has(Start(w), m) then 0xff else 0
  }

  lemma PositionBit(i: nat, b: bv16, w: bv16, m: bv16, q: byte, p: byte, c: byte)
    requires w == Word(i) && PositionMask(w, m, q, p) && b < 8 && c == 1 << b
    ensures Bit(q, c) == Has(Position(i, b), m) && Bit(p, c) == Has(Not(i, b), m)
  {
  }

  lemma PositionBits(i: nat, m: bv16, q: byte, p: byte)
    requires PositionMask(Word(i), m, q, p)
    ensures Bit(q, 1) == Has(Position(i, 0), m) && Bit(p, 1) == Has(Not(i, 0), m)
    ensures Bit(q, 2) == Has(Position(i, 1), m) && Bit(p, 2) == Has(Not(i, 1), m)
    ensures Bit(q, 4) == Has(Position(i, 2), m) && Bit(p, 4) == Has(Not(i, 2), m)
    ensures Bit(q, 8) == Has(Position(i, 3), m) && Bit(p, 8) == Has(Not(i, 3), m)
    ensures Bit(q, 16) == Has(Position(i, 4), m) && Bit(p, 16) == Has(Not(i, 4), m)
    ensures Bit(q, 32) == Has(Position(i, 5), m) && Bit(p, 32) == Has(Not(i, 5), m)
    ensures Bit(q, 64) == Has(Position(i, 6), m) && Bit(p, 64) == Has(Not(i, 6), m)
    ensures Bit(q, 128) == Has(Position(i, 7), m) && Bit(p, 128) == Has(Not(i, 7), m)
  {
    hide Bit, Has, Position, Not, PositionMask, Word;
    PositionBit(i, 0, Word(i), m, q, p, 1);
    PositionBit(i, 1, Word(i), m, q, p, 2);
    PositionBit(i, 2, Word(i), m, q, p, 4);
    PositionBit(i, 3, Word(i), m, q, p, 8);
    PositionBit(i, 4, Word(i), m, q, p, 16);
    PositionBit(i, 5, Word(i), m, q, p, 32);
    PositionBit(i, 6, Word(i), m, q, p, 64);
    PositionBit(i, 7, Word(i), m, q, p, 128);
  }

  /** Each half of the code of one byte, bit by bit. */
  lemma ByteBit(i: nat, x: byte, j: nat)
    requires i < SECTOR && j < 12
    ensures Has(ByteOdd(i, x), Mask(j)) == IsOdd(And(x, RowMask(i, j, true)))
    ensures Has(ByteEven(i, x), Mask(j)) == IsOdd(And(x, RowMask(i, j, false)))
  {
    hide Has, IsOdd, Bit, Select, And, Position, Not, Word, Start;
    var m, q, p := Mask(j), RowMask(i, j, true), RowMask(i, j, false);
    WordValue(i);
    MaskIsBit(j);
    if j >= 3 {
      WordBit(i, j - 3);
    }
    PositionBits(i, m, q, p);
    SelectBit(x, Position(i, 0), Position(i, 1), Position(i, 2), Position(i, 3),
              Position(i, 4), Position(i, 5), Position(i, 6), Position(i, 7), m, q);
    SelectBit(x, Not(i, 0), Not(i, 1), Not(i, 2), Not(i, 3), Not(i, 4), Not(i, 5), Not(i, 6), Not(i, 7), m, p);
  }

  lemma OddRowStep(s: seq<byte>, j: nat, v: bool)
    requires s != [] && |s| <= SECTOR && j < 12
    ensures var i := |s| - 1;
            IsOdd(Row(s, j, v)) == Xor(IsOdd(Row(s[..i], j, v)), IsOdd(And(s[i], RowMask(i, j, v))))
  {
    hide Xb, And, Xor, IsOdd, Row, RowMask;
    var i := |s| - 1;
    RowStep(s, j, v);
    OddXor(Row(s[..i], j, v), And(s[i], RowMask(i, j, v)));
  }

  /** Bit j of the halves is the parity of row j: the accumulators compute the positions. */
  lemma {:induction false} CodeBit(s: seq<byte>, j: nat)
    requires |s| <= SECTOR && j < 12
    ensures Has(Odd(s), Mask(j)) == IsOdd(Row(s, j, true))
    ensures Has(Even(s), Mask(j)) == IsOdd(Row(s, j, false))
  {
    if s != [] {
      hide Xw, And, Xor, Has, IsOdd, ByteOdd, ByteEven, Row, RowMask, IsBit, Mask;
      var i, t := |s| - 1, s[..|s| - 1];
      MaskIsBit(j);
      CodeBit(t, j);
      ByteBit(i, s[i], j);
      OddRowStep(s, j, true);
      OddRowStep(s, j, false);
      HasXor(Odd(t), ByteOdd(i, s[i]), Mask(j));
      HasXor(Even(t), ByteEven(i, s[i]), Mask(j));
    }
  }

  predicate Twelve(x: bv16) {
    x < 0x1000
  }

  lemma TwelveXor(x: bv16, y: bv16)
    requires Twelve(x) && Twelve(y)
    ensures Twelve(Xw(x, y))
  {
  }

  lemma TwelveWhen(c: bool, x: bv16)
    requires Twelve(x)
    ensures Twelve(When(c, x))
  {
  }

  lemma TwelvePosition(i: nat, b: bv16)
    requires Nine(Word(i)) && b < 8
    ensures Twelve(Position(i, b)) && Twelve(Not(i, b))
  {
  }

  lemma TwelveSelect(x: byte, p0: bv16, p1: bv16, p2: bv16, p3: bv16, p4: bv16, p5: bv16, p6: bv16, p7: bv16)
    requires Twelve(p0) && Twelve(p1) && Twelve(p2) && Twelve(p3) && Twelve(p4) && Twelve(p5) && Twelve(p6)
    requires Twelve(p7)
    ensures Twelve(Select(x, p0, p1, p2, p3, p4, p5, p6, p7))
  {
    hide Twelve, Xw, When, Bit;
    forall c: bool, y | Twelve(y) ensures Twelve(When(c, y)) { TwelveWhen(c, y); }
    forall y, z | Twelve(y) && Twelve(z) ensures Twelve(Xw(y, z)) { TwelveXor(y, z); }
  }

  lemma ByteCodeBound(i: nat, x: byte)
    requires i < SECTOR
    ensures Twelve(ByteOdd(i, x)) && Twelve(ByteEven(i, x))
  {
    hide Twelve, Nine, Position, Not, Select, Word;
    WordValue(i);
    TwelvePosition(i, 0); TwelvePosition(i, 1); TwelvePosition(i, 2); TwelvePosition(i, 3);
    TwelvePosition(i, 4); TwelvePosition(i, 5); TwelvePosition(i, 6); TwelvePosition(i, 7);
    TwelveSelect(x, Position(i, 0), Position(i, 1), Position(i, 2), Position(i, 3),
             Position(i, 4), Position(i, 5), Position(i, 6), Position(i, 7));
    TwelveSelect(x, Not(i, 0), Not(i, 1), Not(i, 2), Not(i, 3), Not(i, 4), Not(i, 5), Not(i, 6), Not(i, 7));
  }

  lemma {:induction false} CodeBound(s: seq<byte>)
    requires |s| <= SECTOR
    ensures Twelve(Odd(s)) && Twelve(Even(s))
  {
    if s != [] {
      hide Twelve, Xw, ByteOdd, ByteEven;
      var i := |s| - 1;
      CodeBound(s[..i]);
      ByteCodeBound(i, s[i]);
      TwelveXor(Odd(s[..i]), ByteOdd(i, s[i]));
      TwelveXor(Even(s[..i]), ByteEven(i, s[i]));
    }
  }

  // ---------- calc_ecc and check_ecc ----------

  function Shift(p: byte, j: nat): bv16
    requires j < 12
  {
    (p as bv16) << j
  }

  lemma ShiftMask(p: byte, j: nat)
    requires j < 12 && p <= 1
    ensures Shift(p, j) == When(p == 1, Mask(j))
  {
    match j
    case 0 => case 1 => case 2 => case 3 => case 4 => case 5 =>
    case 6 => case 7 => case 8 => case 9 => case 10 => case 11 =>
  }

  function Or(x: bv16, y: bv16): bv16 { x | y }

  /** Setting bit j leaves the other bits alone. */
  lemma OrBit(x: bv16, p: byte, j: nat, k: nat)
    requires j < 12 && k < 12 && p <= 1 && Twelve(x)
    ensures Has(Or(x, Shift(p, j)), Mask(k)) == (Has(x, Mask(k)) || (j == k && p == 1))
    ensures Twelve(Or(x, Shift(p, j)))
  {
    hide Shift, Has, Mask, Or, Twelve, When, IsBit;
    ShiftMask(p, j);
    MaskIsBit(j);
    MaskIsBit(k);
    if j != k {
      BitsDisjoint(j, k);
    }
    OrWhen(x, p == 1, Mask(j), Mask(k));
  }

  lemma OrAnd(x: bv16, y: bv16, n: bv16)
    ensures Or(x, y) & n == Or(x & n, y & n)
  {
    assert (x | y) & n == (x & n) | (y & n);
  }

  lemma OrZero(x: bv16, y: bv16)
    ensures Or(x, y) == 0 <==> x == 0 && y == 0
  {
  }

  lemma HasOr(x: bv16, y: bv16, n: bv16)
    ensures Has(Or(x, y), n) == (Has(x, n) || Has(y, n))
  {
    hide Or;
    OrAnd(x, y, n);
    OrZero(x & n, y & n);
  }

  lemma OrWhen(x: bv16, c: bool, m: bv16, n: bv16)
    requires IsBit(m) && IsBit(n) && m < 0x1000 && Twelve(x) && (m == n || m & n == 0)
    ensures Has(Or(x, When(c, m)), n) == (Has(x, n) || (m == n && c))
    ensures Twelve(Or(x, When(c, m)))
  {
    HasOr(x, When(c, m), n);
  }

  lemma ParityBit(x: byte)
    ensures Parity(x) <= 1 && (Parity(x) == 1) == IsOdd(x)
  {
  }

  lemma AccStep(s: seq<byte>, i: nat, j: nat, v: bool)
    requires i < |s|
    ensures Acc(s[..i + 1], j, v) == if IndexBit(i, j) == v then Xb(Acc(s[..i], j, v), s[i]) else Acc(s[..i], j, v)
  {
    assert s[..i + 1][..i] == s[..i];
    XbZero(Acc(s[..i], j, v));
  }

  /** Byte i of the sector goes into one half of each of rows 3 to 11. */
  method Spread(a: array2<byte>, x: byte, i: nat, ghost s: seq<byte>)
    requires a.Length0 == 12 && a.Length1 == 2 && i < |s| && x == s[i]
    requires forall r :: 3 <= r < 12 ==> a[r, 0] == Acc(s[..i], r - 3, false)
    requires forall r :: 3 <= r < 12 ==> a[r, 1] == Acc(s[..i], r - 3, true)
    modifies a
    ensures forall r :: 3 <= r < 12 ==> a[r, 0] == Acc(s[..i + 1], r - 3, false)
    ensures forall r :: 3 <= r < 12 ==> a[r, 1] == Acc(s[..i + 1], r - 3, true)
  {
    hide Acc, Xb;
    for j := 0 to 9
      invariant forall r :: 3 <= r < 3 + j ==> a[r, 0] == Acc(s[..i + 1], r - 3, false)
      invariant forall r :: 3 <= r < 3 + j ==> a[r, 1] == Acc(s[..i + 1], r - 3, true)
      invariant forall r :: 3 + j <= r < 12 ==> a[r, 0] == Acc(s[..i], r - 3, false)
      invariant forall r :: 3 + j <= r < 12 ==> a[r, 1] == Acc(s[..i], r - 3, true)
    {
      AccStep(s, i, j, false);
      AccStep(s, i, j, true);
      var v := if IndexBit(i, j) then 1 else 0;
      a[3 + j, v] := Xb(a[3 + j, v], x);
    }
  }

  /** The first loop of calc_ecc. */
  method Accumulate(data: array<byte>, off: nat) returns (a: array2<byte>)
    requires off + SECTOR <= data.Length
    ensures fresh(a) && a.Length0 == 12 && a.Length1 == 2
    ensures forall r :: 3 <= r < 12 ==> a[r, 0] == Acc(data[off..off + SECTOR], r - 3, false)
    ensures forall r :: 3 <= r < 12 ==> a[r, 1] == Acc(data[off..off + SECTOR], r - 3, true)
  {
    a := new byte[12, 2]((_, _) => 0);
    ghost var s := data[off..off + SECTOR];
    for i := 0 to SECTOR
      invariant forall r :: 3 <= r < 12 ==> a[r, 0] == Acc(s[..i], r - 3, false)
      invariant forall r :: 3 <= r < 12 ==> a[r, 1] == Acc(s[..i], r - 3, true)
    {
      Spread(a, data[off + i], i, s);
    }
    assert s[..SECTOR] == s;
  }

  /** Rows 0 to 2, from the exclusive or of all bytes. */
  method FillLowRows(a: array2<byte>, ghost s: seq<byte>)
    requires a.Length0 == 12 && a.Length1 == 2
    requires forall r :: 3 <= r < 12 ==> a[r, 0] == Acc(s, r - 3, false)
    requires forall r :: 3 <= r < 12 ==> a[r, 1] == Acc(s, r - 3, true)
    modifies a
    ensures forall j :: 0 <= j < 12 ==> a[j, 0] == Row(s, j, false) && a[j, 1] == Row(s, j, true)
  {
    AccSplit(s, 0);
    hide And, Xb;
    var x := Xb(a[3, 0], a[3, 1]);
    a[0, 0] := And(x, 0x55);
    a[0, 1] := And(x, 0xaa);
    a[1, 0] := And(x, 0x33);
    a[1, 1] := And(x, 0xcc);
    a[2, 0] := And(x, 0x0f);
    a[2, 1] := And(x, 0xf0);
  }

  /** The parities of column v of the rows, packed into a word. */
  method Pack(a: array2<byte>, v: nat) returns (w: bv16)
    requires a.Length0 == 12 && a.Length1 == 2 && v < 2
    ensures Twelve(w)
    ensures forall j :: 0 <= j < 12 ==> Has(w, Mask(j)) == IsOdd(a[j, v])
  {
    w := 0;
    assert Twelve(w);
    assert forall k :: 0 <= k < 12 ==> !Has(w, Mask(k));
    hide Has, Mask, Twelve, Shift, Or, IsOdd, Parity;
    for j := 0 to 12
      invariant Twelve(w)
      invariant forall k :: 0 <= k < 12 ==> Has(w, Mask(k)) == (k < j && IsOdd(a[k, v]))
    {
      var p := ParityLoop(a[j, v]);
      ParityBit(a[j, v]);
      forall k | 0 <= k < 12
        ensures Has(Or(w, Shift(p, j)), Mask(k)) == (Has(w, Mask(k)) || (j == k && p == 1))
        ensures Twelve(Or(w, Shift(p, j)))
      {
        OrBit(w, p, j, k);
      }
      w := Or(w, Shift(p, j));
    }
  }

  /** Stores the code of the sector at data[off..] in ecc[at..at + 4]. */
  method Calc(data: array<byte>, off: nat, ecc: array<byte>, at: nat)
    requires off + SECTOR <= data.Length && at + 4 <= ecc.Length
    modifies ecc
    ensures ecc[..] == old(ecc[..at]) + Code(old(data[off..off + SECTOR])) + old(ecc[at + 4..])
  {
    ghost var s := data[off..off + SECTOR];
    var a := Accumulate(data, off);
    FillLowRows(a, s);
    var a0 := Pack(a, 0);
    var a1 := Pack(a, 1);
    Packed(a0, a1, s);
    hide Low, High, Even, Odd, Has, IsOdd, Row, Twelve;
    ecc[at] := Low(a0);
    ecc[at + 1] := High(a0);
    ecc[at + 2] := Low(a1);
    ecc[at + 3] := High(a1);
  }

  lemma Packed(a0: bv16, a1: bv16, s: seq<byte>)
    requires |s| <= SECTOR && Twelve(a0) && Twelve(a1)
    requires forall j :: 0 <= j < 12 ==> Has(a0, Mask(j)) == IsOdd(Row(s, j, false))
    requires forall j :: 0 <= j < 12 ==> Has(a1, Mask(j)) == IsOdd(Row(s, j, true))
    ensures a0 == Even(s) && a1 == Odd(s)
  {
    hide Has, Mask, IsOdd, Row;
    forall j: nat | j < 12
      ensures Has(a0, Mask(j)) == Has(Even(s), Mask(j)) && Has(a1, Mask(j)) == Has(Odd(s), Mask(j))
    {
      CodeBit(s, j);
    }
    CodeBound(s);
    SameBits(a0, Even(s));
    SameBits(a1, Odd(s));
  }

  /** A page: four sectors of data, then 64 spare bytes, the last 16 of them the codes. */
  const PAGE := 2048
  const CODES := 2048 + 48

  function PageCode(p: seq<byte>): seq<byte>
    requires |p| >= PAGE
  {
    Code(p[..512]) + Code(p[512..1024]) + Code(p[1024..1536]) + Code(p[1536..2048])
  }

  lemma PageCodePrefix(p: seq<byte>)
    requires |p| >= PAGE
    ensures PageCode(p[..PAGE]) == PageCode(p)
  {
    hide Code;
    var q := p[..PAGE];
    assert q[..512] == p[..512] && q[512..1024] == p[512..1024];
    assert q[1024..1536] == p[1024..1536] && q[1536..2048] == p[1536..2048];
  }

  /** Writing c at `at` and then d right behind it writes c + d. */
  lemma TwoRuns(e0: seq<byte>, e1: seq<byte>, e2: seq<byte>, at: nat, c: seq<byte>, d: seq<byte>)
    requires at + |c| + |d| <= |e0|
    requires e1 == e0[..at] + c + e0[at + |c|..]
    requires e2 == e1[..at + |c|] + d + e1[at + |c| + |d|..]
    ensures e2 == e0[..at] + (c + d) + e0[at + |c| + |d|..]
  {
    assert e1[..at + |c|] == e0[..at] + c;
    assert e1[at + |c| + |d|..] == e0[at + |c| + |d|..];
  }

  /** The codes of two sectors, one behind the other. */
  method CalcTwo(data: array<byte>, off: nat, ecc: array<byte>, at: nat)
    requires off + 1024 <= data.Length && at + 8 <= ecc.Length && data != ecc
    modifies ecc
    ensures ecc[..] == old(ecc[..at]) + (Code(data[off..off + 512]) + Code(data[off + 512..off + 1024]))
      + old(ecc[at + 8..])
  {
    hide Code;
    ghost var e0 := ecc[..];
    Calc(data, off, ecc, at);
    ghost var e1 := ecc[..];
    Calc(data, off + 512, ecc, at + 4);
    TwoRuns(e0, e1, ecc[..], at, Code(data[off..off + 512]), Code(data[off + 512..off + 1024]));
  }

  lemma PageCodeAt(d: seq<byte>, off: nat)
    requires off + PAGE <= |d|
    ensures PageCode(d[off..off + PAGE])
         == (Code(d[off..off + 512]) + Code(d[off + 512..off + 1024]))
            + (Code(d[off + 1024..off + 1536]) + Code(d[off + 1536..off + 2048]))
  {
    hide Code;
    var p := d[off..off + PAGE];
    assert p[..512] == d[off..off + 512] && p[512..1024] == d[off + 512..off + 1024];
    assert p[1024..1536] == d[off + 1024..off + 1536] && p[1536..2048] == d[off + 1536..off + 2048];
  }

  /** Stores the four codes of the page at data[off..] in ecc[at..at + 16]. */
  method CalcPage(data: array<byte>, off: nat, ecc: array<byte>, at: nat)
    requires off + PAGE <= data.Length && at + 16 <= ecc.Length && data != ecc
    modifies ecc
    ensures ecc[..] == old(ecc[..at]) + PageCode(data[off..off + PAGE]) + old(ecc[at + 16..])
  {
    hide Code;
    ghost var e0 := ecc[..];
    CalcTwo(data, off, ecc, at);
    ghost var e2 := ecc[..];
    CalcTwo(data, off + 1024, ecc, at + 8);
    TwoRuns(e0, e2, ecc[..], at, Code(data[off..off + 512]) + Code(data[off + 512..off + 1024]),
            Code(data[off + 1024..off + 1536]) + Code(data[off + 1536..off + 2048]));
    PageCodeAt(data[..], off);
  }

  method IsBlank(data: array<byte>) returns (b: bool)
    requires data.Length >= CODES + 16
    ensures b == forall i :: CODES <= i < CODES + 16 ==> data[i] == 0xff
  {
    for i := 0 to 16
      invariant forall k :: CODES <= k < CODES + i ==> data[k] == 0xff
    {
      if data[CODES + i] != 0xff {
        return false;
      }
    }
    return true;
  }

  /** -2 for a blank page, 0 if the stored codes are those of the data, -1 otherwise. */
  method Check(data: array<byte>) returns (r: int)
    requires data.Length >= CODES + 16
    ensures r == CheckResult(data[..])
  {
    hide Code;
    var blank := IsBlank(data);
    if blank {
      return -2;
    }
    var ecc := new byte[16];
    CalcPage(data, 0, ecc, 0);
    ghost var p := data[..];
    assert data[0..PAGE] == p[..PAGE];
    PageCodePrefix(p);
    assert ecc[..] == PageCode(p);
    for i := 0 to 16
      invariant data[CODES..CODES + i] == ecc[..i]
    {
      if data[CODES + i] != ecc[i] {
        assert p[CODES..CODES + 16][i] != PageCode(p)[i];
        return -1;
      }
    }
    assert p[CODES..CODES + 16] == data[CODES..CODES + 16] == ecc[..16] == ecc[..];
    return 0;
  }

  function CheckResult(p: seq<byte>): int
    requires |p| >= CODES + 16
  {
    if forall i :: CODES <= i < CODES + 16 ==> p[i] == 0xff then -2
    else if p[CODES..CODES + 16] == PageCode(p) then 0
    else -1
  }

  /** A computed code is never mistaken for a blank page: its bytes 1 and 3 have clear high halves. */
  lemma CodeNotBlank(s: seq<byte>)
    requires |s| <= SECTOR
    ensures |Code(s)| == 4 && Code(s)[1] != 0xff && Code(s)[3] != 0xff
  {
    CodeBound(s);
    TwelveHigh(Even(s));
    TwelveHigh(Odd(s));
  }

  lemma TwelveHigh(x: bv16)
    requires Twelve(x)
    ensures High(x) < 0x10
  {
  }

  /** A page stored with its own codes passes the check. */
  lemma StoredPagePasses(p: seq<byte>)
    requires |p| >= CODES + 16 && p[CODES..CODES + 16] == PageCode(p)
    ensures CheckResult(p) == 0
  {
    CodeNotBlank(p[..512]);
    hide Code;
    assert p[CODES + 1] == p[CODES..CODES + 16][1] == Code(p[..512])[1];
  }
}
