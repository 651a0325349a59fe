/** Correction of a NAND page from its stored and computed codes: nand_correct in wiinandfuse/source/main.c. */
module NandCorrect {
  import opened Octets
  import opened Ecc

  // ---------- flipped bits ----------

  function BitMask(b: nat): byte
    requires b < 8
  {
    match b
    case 0 => 1 case 1 => 2 case 2 => 4 case 3 => 8 case 4 => 16 case 5 => 32 case 6 => 64 case 7 => 128
  }

  function BitWord(b: nat): bv16
    requires b < 8
  {
    match b
    case 0 => 0 case 1 => 1 case 2 => 2 case 3 => 3 case 4 => 4 case 5 => 5 case 6 => 6 case 7 => 7
  }

  /** The sector with bit b of byte i inverted. */
  function Flip(s: seq<byte>, i: nat, b: nat): seq<byte>
    requires i < |s| && b < 8
  {
    s[i := Xb(s[i], BitMask(b))]
  }

  lemma FlipTwice(s: seq<byte>, i: nat, b: nat)
    requires i < |s| && b < 8
    ensures Flip(Flip(s, i, b), i, b) == s
  {
    assert Xb(Xb(s[i], BitMask(b)), BitMask(b)) == s[i];
  }

  lemma XwMoveLeft(u: bv16, t: bv16, p: bv16)
    ensures Xw(Xw(u, p), t) == Xw(Xw(u, t), p)
  {
  }

  lemma XwMoveRight(u: bv16, t: bv16, p: bv16)
    ensures Xw(u, Xw(t, p)) == Xw(Xw(u, t), p)
  {
  }

  lemma WhenFlipped(x: byte, b: nat, k: nat, p: bv16)
    requires b < 8 && k < 8
    ensures When(Bit(Xb(x, BitMask(b)), BitMask(k)), p)
         == if b == k then Xw(When(Bit(x, BitMask(k)), p), p) else When(Bit(x, BitMask(k)), p)
  {
  }

  /** Inverting bit b of the selector adds or removes the b-th word. */
  lemma SelectFlipped(x: byte, b: nat, p0: bv16, p1: bv16, p2: bv16, p3: bv16, p4: bv16, p5: bv16, p6: bv16, p7: bv16)
    requires b < 8
    ensures Select(Xb(x, BitMask(b)), p0, p1, p2, p3, p4, p5, p6, p7)
         == Xw(Select(x, p0, p1, p2, p3, p4, p5, p6, p7), [p0, p1, p2, p3, p4, p5, p6, p7][b])
  {
    var p := [p0, p1, p2, p3, p4, p5, p6, p7][b];
    WhenFlipped(x, b, 0, p0); WhenFlipped(x, b, 1, p1); WhenFlipped(x, b, 2, p2); WhenFlipped(x, b, 3, p3);
    WhenFlipped(x, b, 4, p4); WhenFlipped(x, b, 5, p5); WhenFlipped(x, b, 6, p6); WhenFlipped(x, b, 7, p7);
    hide Xw, Xb, When, Bit;
    var t0, t1, t2, t3 := When(Bit(x, 1), p0), When(Bit(x, 2), p1), When(Bit(x, 4), p2), When(Bit(x, 8), p3);
    var t4, t5, t6, t7 := When(Bit(x, 16), p4), When(Bit(x, 32), p5), When(Bit(x, 64), p6), When(Bit(x, 128), p7);
    var u1 := Xw(t0, t1);
    var u2 := Xw(u1, t2);
    var u3 := Xw(u2, t3);
    var u4 := Xw(u3, t4);
    var u5 := Xw(u4, t5);
    var u6 := Xw(u5, t6);
    XwMoveLeft(t0, t1, p); XwMoveLeft(u1, t2, p); XwMoveLeft(u2, t3, p); XwMoveLeft(u3, t4, p);
    XwMoveLeft(u4, t5, p); XwMoveLeft(u5, t6, p); XwMoveLeft(u6, t7, p);
    XwMoveRight(t0, t1, p); XwMoveRight(u1, t2, p); XwMoveRight(u2, t3, p); XwMoveRight(u3, t4, p);
    XwMoveRight(u4, t5, p); XwMoveRight(u5, t6, p); XwMoveRight(u6, t7, p);
  }

  lemma ByteFlipped(i: nat, x: byte, b: nat)
    requires b < 8
    ensures ByteOdd(i, Xb(x, BitMask(b))) == Xw(ByteOdd(i, x), Position(i, BitWord(b)))
    ensures ByteEven(i, Xb(x, BitMask(b))) == Xw(ByteEven(i, x), Not(i, BitWord(b)))
  {
    hide Position, Not, Select, Xw, Xb;
    SelectFlipped(x, b, Position(i, 0), Position(i, 1), Position(i, 2), Position(i, 3),
                  Position(i, 4), Position(i, 5), Position(i, 6), Position(i, 7));
    SelectFlipped(x, b, Not(i, 0), Not(i, 1), Not(i, 2), Not(i, 3), Not(i, 4), Not(i, 5), Not(i, 6), Not(i, 7));
  }

  /** Inverting a bit changes the halves by its position and by the complement of its position. */
  lemma {:induction false} CodeFlipped(s: seq<byte>, i: nat, b: nat)
    requires i < |s| && b < 8
    ensures Odd(Flip(s, i, b)) == Xw(Odd(s), Position(i, BitWord(b)))
    ensures Even(Flip(s, i, b)) == Xw(Even(s), Not(i, BitWord(b)))
  {
    hide Xw, Xb, Position, Not, ByteOdd, ByteEven, BitMask, BitWord;
    var n, s', p, q := |s| - 1, Flip(s, i, b), Position(i, BitWord(b)), Not(i, BitWord(b));
    var t := s[..n];
    if i == n {
      assert s'[..n] == t;
      ByteFlipped(n, s[n], b);
      XwMoveRight(Odd(t), ByteOdd(n, s[n]), p);
      XwMoveRight(Even(t), ByteEven(n, s[n]), q);
    } else {
      assert s'[..n] == Flip(t, i, b);
      CodeFlipped(t, i, b);
      XwMoveLeft(Odd(t), ByteOdd(n, s[n]), p);
      XwMoveLeft(Even(t), ByteEven(n, s[n]), q);
    }
  }

  // ---------- the correction of one sector ----------

  /** Four bytes loaded as a big-endian word. */
  function Load(b0: byte, b1: byte, b2: byte, b3: byte): bv32 {
    ((b0 as bv32) << 24) | ((b1 as bv32) << 16) | ((b2 as bv32) << 8) | (b3 as bv32)
  }

  function EvenHalf(syndrome: bv32): bv16 {
    ((syndrome >> 24) | ((syndrome >> 8) & 0xf00)) as bv16
  }

  function OddHalf(syndrome: bv32): bv16 {
    (((syndrome << 8) & 0xf00) | ((syndrome >> 8) & 0x0ff)) as bv16
  }

  function FixMask(odd: bv16): byte {
    1 << ((odd & 7) as byte)
  }

  datatype Verdict = Fine | Fixed | Uncorrectable

  datatype Outcome = Outcome(sector: seq<byte>, verdict: Verdict)

  function Syndrome(stored: bv32, computed: bv32): bv32 {
    stored ^ computed
  }

  predicate AtMostOneBit(syndrome: bv32) {
    (syndrome - 1) & syndrome == 0
  }

  predicate Complementary(e: bv16, o: bv16) {
    Xw(e, o) == 0xfff
  }

  /** The byte that a 12-bit position points into. */
  function ByteOf(odd: bv16): nat
    requires Twelve(odd)
    ensures ByteOf(odd) < SECTOR
  {
    (odd >> 3) as int
  }

  /** What the loop body does to one sector, given its stored and its computed code. */
  function Repair(stored: bv32, computed: bv32, s: seq<byte>): Outcome
    requires |s| == SECTOR
  {
    var syndrome := Syndrome(stored, computed);
    var odd := OddHalf(syndrome);
    if stored == 0xFFFFFFFF || syndrome == 0 then Outcome(s, Fine)
    else if AtMostOneBit(syndrome) then Outcome(s, Fixed)
    else if !Complementary(EvenHalf(syndrome), odd) then Outcome(s, Uncorrectable)
    else
      OddHalfTwelve(syndrome);
      Outcome(s[ByteOf(odd) := Xb(s[ByteOf(odd)], FixMask(odd))], Fixed)
  }

  lemma OddHalfTwelve(syndrome: bv32)
    ensures Twelve(OddHalf(syndrome))
  {
  }

  /** The word at p + 4*k of the spare area, as the big-endian processor loads it. */
  function WordAt(ecc: seq<byte>, p: nat, k: nat): bv32
    requires p + 4 * k + 4 <= |ecc|
  {
    Load(ecc[p + 4 * k], ecc[p + 4 * k + 1], ecc[p + 4 * k + 2], ecc[p + 4 * k + 3])
  }

  /** The outcome for sector k of a page: stored codes at 0x30 of the spare area, computed ones at 0x40. */
  function RepairSector(page: seq<byte>, ecc: seq<byte>, k: nat): Outcome
    requires |page| >= 2048 && |ecc| >= 0x50 && k < 4
  {
    Repair(WordAt(ecc, 0x30, k), WordAt(ecc, 0x40, k), page[512 * k..512 * k + 512])
  }

  const NAND_ECC_OK := 0
  const NAND_ECC_CORRECTED := 1
  const NAND_ECC_UNCORRECTABLE := -1

  /** One turn of the loop: the sector at dp of the page. */
  method CorrectSector(data: array<byte>, dp: nat, stored: bv32, computed: bv32) returns (v: Verdict)
    requires dp + SECTOR <= data.Length
    modifies data
    ensures data[..dp] == old(data[..dp]) && data[dp + SECTOR..] == old(data[dp + SECTOR..])
    ensures Outcome(data[dp..dp + SECTOR], v) == Repair(stored, computed, old(data[dp..dp + SECTOR]))
  {
    hide Syndrome, OddHalf, EvenHalf, AtMostOneBit, Complementary, ByteOf, Twelve, FixMask, Xb;
    v := Fine;
    var syndrome := Syndrome(stored, computed);
    if stored != 0xFFFFFFFF && syndrome != 0 {
      if AtMostOneBit(syndrome) {
        v := Fixed;
      } else {
        var even := EvenHalf(syndrome);
        var odd := OddHalf(syndrome);
        if !Complementary(even, odd) {
          v := Uncorrectable;
        } else {
          OddHalfTwelve(syndrome);
          data[dp + ByteOf(odd)] := Xb(data[dp + ByteOf(odd)], FixMask(odd));
          v := Fixed;
        }
      }
    }
  }

  /** One turn of the loop on sector i of a page whose remaining sectors are still as they were. */
  method CorrectNext(data: array<byte>, ecc: array<byte>, i: nat, ghost page: seq<byte>) returns (v: Verdict)
    requires data.Length >= 2048 && ecc.Length >= 0x50 && data != ecc && i < 4
    requires |page| == data.Length && data[512 * i..] == page[512 * i..]
    modifies data
    ensures data[..512 * i] == old(data[..512 * i]) && data[512 * i + 512..] == page[512 * i + 512..]
    ensures Outcome(data[512 * i..512 * i + 512], v) == RepairSector(page, ecc[..], i)
  {
    hide Repair, Load;
    var dp := 0x200 * i;
    assert data[dp..dp + 512] == data[dp..][..512] == page[dp..][..512] == page[dp..dp + 512];
    assert data[dp + 512..] == data[dp..][512..] == page[dp + 512..];
    v := CorrectSector(data, dp, WordAt(ecc[..], 0x30, i), WordAt(ecc[..], 0x40, i));
  }

  /** The first n sectors after correction, and the verdicts on them. */
  function Repaired(page: seq<byte>, ecc: seq<byte>, n: nat): seq<byte>
    requires |page| >= 2048 && |ecc| >= 0x50 && n <= 4
  {
    if n == 0 then [] else Repaired(page, ecc, n - 1) + RepairSector(page, ecc, n - 1).sector
  }

  function Verdicts(page: seq<byte>, ecc: seq<byte>, n: nat): seq<Verdict>
    requires |page| >= 2048 && |ecc| >= 0x50 && n <= 4
  {
    if n == 0 then [] else Verdicts(page, ecc, n - 1) + [RepairSector(page, ecc, n - 1).verdict]
  }

  method Correct(data: array<byte>, ecc: array<byte>) returns (r: int)
    requires data.Length >= 2048 && ecc.Length >= 0x50 && data != ecc
    modifies data
    ensures data[..] == Repaired(old(data[..]), ecc[..], 4) + old(data[2048..])
    ensures r == var vs := Verdicts(old(data[..]), ecc[..], 4);
                 if Uncorrectable in vs then NAND_ECC_UNCORRECTABLE
                 else if Fixed in vs then NAND_ECC_CORRECTED
                 else NAND_ECC_OK
  {
    hide RepairSector;
    ghost var page := data[..];
    var uncorrectable, corrected := 0, 0;
    for i := 0 to 4
      invariant data[..512 * i] == Repaired(page, ecc[..], i)
      invariant data[512 * i..] == page[512 * i..]
      invariant uncorrectable >= 0 && corrected >= 0
      invariant uncorrectable > 0 <==> Uncorrectable in Verdicts(page, ecc[..], i)
      invariant corrected > 0 <==> Fixed in Verdicts(page, ecc[..], i)
    {
      var v := CorrectNext(data, ecc, i, page);
      assert data[..512 * i + 512] == data[..512 * i] + data[512 * i..512 * i + 512];
      if v == Uncorrectable {
        uncorrectable := uncorrectable + 1;
      } else if v == Fixed {
        corrected := corrected + 1;
      }
    }
    assert data[..] == data[..2048] + data[2048..];
    if uncorrectable > 0 {
      return NAND_ECC_UNCORRECTABLE;
    }
    if corrected > 0 {
      return NAND_ECC_CORRECTED;
    }
    return NAND_ECC_OK;
  }

  // ---------- single-error correction, double-error detection ----------

  function CodeWord(s: seq<byte>): bv32 {
    Load(Low(Even(s)), High(Even(s)), Low(Odd(s)), High(Odd(s)))
  }

  function Halves(e: bv16, o: bv16): bv32 {
    Load(Low(e), High(e), Low(o), High(o))
  }

  function Complement(p: bv16): bv16 {
    0xfff ^ p
  }

  /** The syndrome of one data error at position p. */
  function ErrorAt(p: bv16): bv32 {
    Halves(Complement(p), p)
  }

  lemma HalvesXor(e: bv16, o: bv16, e': bv16, o': bv16)
    requires Twelve(e) && Twelve(o) && Twelve(e') && Twelve(o')
    ensures Syndrome(Halves(e, o), Halves(Xw(e, e'), Xw(o, o'))) == Halves(e', o')
  {
  }

  lemma HalvesOf(e: bv16, o: bv16)
    requires Twelve(e) && Twelve(o)
    ensures EvenHalf(Halves(e, o)) == e && OddHalf(Halves(e, o)) == o
  {
  }

  /** The two half bytes of a code word that carry no code bit. */
  predicate Unused(m: bv32) {
    m & 0x00F000F0 != 0
  }

  lemma HalvesUnused(e: bv16, o: bv16)
    requires Twelve(e) && Twelve(o)
    ensures !Unused(Halves(e, o))
  {
  }

  lemma ErrorSyndrome(p: bv16)
    requires Twelve(p)
    ensures Twelve(Complement(p)) && Complementary(Complement(p), p)
    ensures ErrorAt(p) != 0 && !AtMostOneBit(ErrorAt(p))
  {
  }

  lemma PositionInverse(i: nat, b: nat)
    requires i < SECTOR && b < 8
    ensures Twelve(Position(i, BitWord(b)))
    ensures ByteOf(Position(i, BitWord(b))) == i
    ensures FixMask(Position(i, BitWord(b))) == BitMask(b)
  {
    WordValue(i);
    hide Word, PointsAt, Position, Twelve, Nine, FixMask, BitMask, BitWord, ByteOf;
    BitWords(b);
    PositionParts(i, BitWord(b));
    PositionFix(Position(i, BitWord(b)), Word(i), b);
    PositionByte(Position(i, BitWord(b)), Word(i), BitWord(b));
  }

  lemma BitWords(b: nat)
    requires b < 8
    ensures BitWord(b) < 8
  {
  }

  /** A position made of a byte index and a bit number. */
  predicate PointsAt(p: bv16, w: bv16, b: bv16) {
    p >> 3 == w && p & 7 == b && p < 0x1000
  }

  lemma PositionParts(i: nat, b: bv16)
    requires Nine(Word(i)) && b < 8
    ensures PointsAt(Position(i, b), Word(i), b)
  {
    hide Word;
  }

  lemma PositionByte(p: bv16, w: bv16, b: bv16)
    requires PointsAt(p, w, b)
    ensures Twelve(p) && ByteOf(p) == w as int
  {
  }

  lemma PositionFix(p: bv16, w: bv16, b: nat)
    requires b < 8 && PointsAt(p, w, BitWord(b))
    ensures FixMask(p) == BitMask(b)
  {
  }

  /** With no error the sector is left alone. */
  lemma NoError(s: seq<byte>)
    requires |s| == SECTOR
    ensures Repair(CodeWord(s), CodeWord(s), s) == Outcome(s, Fine)
  {
  }

  lemma CodeHalves(s: seq<byte>)
    requires |s| == SECTOR
    ensures CodeWord(s) == Halves(Even(s), Odd(s)) && !Unused(CodeWord(s))
  {
    hide Halves, Unused, Even, Odd;
    CodeBound(s);
    HalvesUnused(Even(s), Odd(s));
    HalvesCode(s);
  }

  lemma HalvesCode(s: seq<byte>)
    ensures CodeWord(s) == Halves(Even(s), Odd(s))
  {
  }

  /** The code words before and after inverting a bit differ by the bit's position and its complement. */
  lemma FlipSyndrome(s: seq<byte>, i: nat, b: nat)
    requires |s| == SECTOR && i < SECTOR && b < 8
    ensures Syndrome(CodeWord(s), CodeWord(Flip(s, i, b))) == ErrorAt(Position(i, BitWord(b)))
  {
    hide CodeWord, Halves, Xw, Twelve, BitWord, Position, Complement, Syndrome, Even, Odd;
    var p := Position(i, BitWord(b));
    CodeFlipped(s, i, b);
    CodeBound(s);
    PositionInverse(i, b);
    ErrorSyndrome(p);
    NotComplement(i, BitWord(b));
    HalvesXor(Even(s), Odd(s), Complement(p), p);
    CodeHalves(s);
    CodeHalves(Flip(s, i, b));
  }

  lemma NotComplement(i: nat, b: bv16)
    ensures Not(i, b) == Complement(Position(i, b))
  {
  }

  lemma NotBlank(w: bv32)
    requires !Unused(w)
    ensures w != 0xFFFFFFFF
  {
  }

  /** The syndrome of a single data error makes the correction invert the bit at its position. */
  lemma RepairAt(stored: bv32, computed: bv32, p: bv16, s: seq<byte>)
    requires |s| == SECTOR && Twelve(p) && stored != 0xFFFFFFFF && Syndrome(stored, computed) == ErrorAt(p)
    ensures Repair(stored, computed, s) == Outcome(s[ByteOf(p) := Xb(s[ByteOf(p)], FixMask(p))], Fixed)
  {
    hide Syndrome, AtMostOneBit, Complementary, Complement, Halves, EvenHalf, OddHalf, FixMask, Xb, ByteOf, Twelve;
    ErrorSyndrome(p);
    HalvesOf(Complement(p), p);
  }

  /** Single-error correction: any one inverted data bit is restored. */
  lemma OneDataBit(s: seq<byte>, i: nat, b: nat)
    requires |s| == SECTOR && i < SECTOR && b < 8
    ensures Repair(CodeWord(s), CodeWord(Flip(s, i, b)), Flip(s, i, b)) == Outcome(s, Fixed)
  {
    hide CodeWord, Syndrome, ErrorAt, Repair, Unused, Halves, FixMask, Position, BitWord, Xb, ByteOf, Twelve;
    var p := Position(i, BitWord(b));
    FlipSyndrome(s, i, b);
    PositionInverse(i, b);
    CodeHalves(s);
    NotBlank(CodeWord(s));
    RepairAt(CodeWord(s), CodeWord(Flip(s, i, b)), p, Flip(s, i, b));
    FlipTwice(s, i, b);
  }

  lemma SyndromeChain(x: bv32, y: bv32, z: bv32)
    ensures Syndrome(x, z) == Xd(Syndrome(x, y), Syndrome(y, z))
  {
    assert x ^ z == (x ^ y) ^ (y ^ z);
  }

  /** Two errors: the complements cancel, so both halves are the difference of the positions. */
  lemma TwoErrors(p: bv16, q: bv16)
    requires Twelve(p) && Twelve(q) && p != q
    ensures Xd(ErrorAt(p), ErrorAt(q)) == Halves(Xw(p, q), Xw(p, q))
    ensures Twelve(Xw(p, q)) && Xw(p, q) != 0
  {
    hide Xd, Xw, Halves, Twelve, Complement;
    ErrorSyndrome(p);
    ErrorSyndrome(q);
    HalvesLinear(Complement(p), p, Complement(q), q);
    ComplementsCancel(p, q);
    TwelveXor(p, q);
    XwZero(p, q);
  }

  lemma HalvesLinear(e: bv16, o: bv16, e': bv16, o': bv16)
    requires Twelve(e) && Twelve(o) && Twelve(e') && Twelve(o')
    ensures Xd(Halves(e, o), Halves(e', o')) == Halves(Xw(e, e'), Xw(o, o'))
  {
  }

  lemma ComplementsCancel(p: bv16, q: bv16)
    ensures Xw(Complement(p), Complement(q)) == Xw(p, q)
  {
  }

  lemma XwZero(p: bv16, q: bv16)
    ensures (Xw(p, q) == 0) == (p == q)
  {
  }

  lemma EqualHalves(d: bv16)
    requires Twelve(d) && d != 0
    ensures Halves(d, d) != 0 && !AtMostOneBit(Halves(d, d)) && !Complementary(d, d)
  {
  }

  lemma PositionsDiffer(i: nat, b: nat, j: nat, c: nat)
    requires i < SECTOR && b < 8 && j < SECTOR && c < 8 && (i != j || b != c)
    ensures Position(i, BitWord(b)) != Position(j, BitWord(c))
  {
    PositionInverse(i, b);
    PositionInverse(j, c);
    hide Position, ByteOf, FixMask, BitWord;
    assert b != c ==> BitMask(b) != BitMask(c);
  }

  /** Double-error detection: any two inverted data bits are reported, and the data is left alone. */
  lemma TwoDataBits(s: seq<byte>, i: nat, b: nat, j: nat, c: nat)
    requires |s| == SECTOR && i < SECTOR && b < 8 && j < SECTOR && c < 8 && (i != j || b != c)
    ensures var s' := Flip(Flip(s, i, b), j, c);
      Repair(CodeWord(s), CodeWord(s'), s') == Outcome(s', Uncorrectable)
  {
    hide CodeWord, Syndrome, AtMostOneBit, Complementary, ErrorAt, Halves, EvenHalf, OddHalf, Unused;
    hide FixMask, Position, BitWord, Xb, Xw, Xd, ByteOf, Twelve;
    var p, q, s1 := Position(i, BitWord(b)), Position(j, BitWord(c)), Flip(s, i, b);
    FlipSyndrome(s, i, b);
    FlipSyndrome(s1, j, c);
    SyndromeChain(CodeWord(s), CodeWord(s1), CodeWord(Flip(s1, j, c)));
    PositionInverse(i, b);
    PositionInverse(j, c);
    PositionsDiffer(i, b, j, c);
    TwoErrors(p, q);
    EqualHalves(Xw(p, q));
    HalvesOf(Xw(p, q), Xw(p, q));
    CodeHalves(s);
    NotBlank(CodeWord(s));
  }

  predicate IsBit32(m: bv32) {
    m != 0 && m & (m - 1) == 0
  }

  lemma CodeBitError(w: bv32, m: bv32)
    requires IsBit32(m) && !Unused(w)
    ensures Syndrome(Xd(w, m), w) == m && m != 0 && AtMostOneBit(m) && Xd(w, m) != 0xFFFFFFFF
  {
  }

  /** Any one inverted bit of the stored code leaves the data alone. */
  lemma OneCodeBit(s: seq<byte>, m: bv32)
    requires |s| == SECTOR && IsBit32(m)
    ensures Repair(Xd(CodeWord(s), m), CodeWord(s), s) == Outcome(s, Fixed)
  {
    hide CodeWord, Syndrome, AtMostOneBit, Complementary, EvenHalf, OddHalf, Unused, Xd, IsBit32;
    CodeHalves(s);
    CodeBitError(CodeWord(s), m);
  }

  lemma TwoCodeBitErrors(w: bv32, m: bv32, n: bv32)
    requires IsBit32(m) && IsBit32(n) && m != n && !Unused(w)
    ensures var y := Syndrome(Xd(Xd(w, m), n), w);
      y == Xd(m, n) && y != 0 && !AtMostOneBit(y)
    ensures Xd(Xd(w, m), n) != 0xFFFFFFFF
  {
    hide Xd, Syndrome, AtMostOneBit, IsBit32, Unused;
    XdAssoc(w, m, n);
    SyndromeOf(w, Xd(m, n));
    TwoBits(m, n);
    TwoBitsNotBlank(w, m, n);
  }

  lemma SyndromeOf(w: bv32, y: bv32)
    ensures Syndrome(Xd(w, y), w) == y
  {
  }

  lemma TwoBits(m: bv32, n: bv32)
    requires IsBit32(m) && IsBit32(n) && m != n
    ensures Xd(m, n) != 0 && !AtMostOneBit(Xd(m, n))
  {
  }

  lemma TwoBitsNotBlank(w: bv32, m: bv32, n: bv32)
    requires IsBit32(m) && IsBit32(n) && !Unused(w)
    ensures Xd(Xd(w, m), n) != 0xFFFFFFFF
  {
  }

  lemma TwoCodeBitHalves(m: bv32, n: bv32)
    requires IsBit32(m) && IsBit32(n) && m != n
    ensures !Complementary(EvenHalf(Xd(m, n)), OddHalf(Xd(m, n)))
  {
  }

  /** Any two inverted bits of the stored code are reported, and the data is left alone. */
  lemma TwoCodeBits(s: seq<byte>, m: bv32, n: bv32)
    requires |s| == SECTOR && IsBit32(m) && IsBit32(n) && m != n
    ensures Repair(Xd(Xd(CodeWord(s), m), n), CodeWord(s), s) == Outcome(s, Uncorrectable)
  {
    hide CodeWord, Syndrome, AtMostOneBit, Complementary, EvenHalf, OddHalf, Unused, Xd, IsBit32;
    CodeHalves(s);
    TwoCodeBitErrors(CodeWord(s), m, n);
    TwoCodeBitHalves(m, n);
  }

  lemma MixedSyndrome(w: bv32, x: bv32, m: bv32)
    requires !Unused(w) && IsBit32(m)
    ensures Syndrome(Xd(w, m), x) == Xd(Syndrome(w, x), m) && Xd(w, m) != 0xFFFFFFFF
  {
  }

  /** Twelve set bits and one more change: never zero and never a single bit. */
  lemma MixedNotSingle(p: bv16, m: bv32)
    requires Twelve(p) && IsBit32(m)
    ensures Xd(ErrorAt(p), m) != 0 && !AtMostOneBit(Xd(ErrorAt(p), m))
  {
  }

  lemma HalfXor(x: bv32, y: bv32)
    ensures EvenHalf(Xd(x, y)) == Xw(EvenHalf(x), EvenHalf(y)) && OddHalf(Xd(x, y)) == Xw(OddHalf(x), OddHalf(y))
  {
  }

  lemma CodeBitHalves(m: bv32)
    requires IsBit32(m)
    ensures if Unused(m) then EvenHalf(m) == 0 && OddHalf(m) == 0 else EvenHalf(m) != OddHalf(m)
  {
  }

  lemma ComplementPlus(p: bv16, e: bv16, o: bv16)
    ensures Complementary(Xw(Complement(p), e), Xw(p, o)) == (e == o)
    ensures Xw(p, 0) == p && Xw(Complement(p), 0) == Complement(p)
  {
    XwNeutral(p);
    XwNeutral(Complement(p));
    hide Xw, Complement;
    XwZero(e, o);
    var c := Complement(p);
    XwRegroup(c, e, p, o);
    ErrorCancel(p, Xw(e, o));
  }

  lemma XwRegroup(a: bv16, b: bv16, c: bv16, d: bv16)
    ensures Xw(Xw(a, b), Xw(c, d)) == Xw(Xw(a, c), Xw(b, d))
  {
    hide Xw;
    XwMoveRight(Xw(a, b), c, d);
    XwMoveLeft(a, c, b);
    XwMoveRight(Xw(a, c), b, d);
  }

  lemma XwNeutral(x: bv16)
    ensures Xw(x, 0) == x
  {
  }

  lemma ErrorCancel(p: bv16, x: bv16)
    ensures (Xw(Xw(Complement(p), p), x) == 0xfff) == (x == 0)
  {
  }

  /** One inverted data bit and one inverted bit of the stored code: repaired if the code bit is one
      of the eight unused ones, and reported with the data left alone otherwise. */
  lemma OneDataOneCodeBit(s: seq<byte>, i: nat, b: nat, m: bv32)
    requires |s| == SECTOR && i < SECTOR && b < 8 && IsBit32(m)
    ensures Repair(Xd(CodeWord(s), m), CodeWord(Flip(s, i, b)), Flip(s, i, b))
         == if Unused(m) then Outcome(s, Fixed) else Outcome(Flip(s, i, b), Uncorrectable)
  {
    hide CodeWord, Syndrome, AtMostOneBit, Complementary, Complement, Halves, EvenHalf, OddHalf, Unused;
    hide FixMask, Position, BitWord, Xb, Xw, Xd, ByteOf, Twelve, IsBit32;
    var p := Position(i, BitWord(b));
    FlipSyndrome(s, i, b);
    PositionInverse(i, b);
    ErrorSyndrome(p);
    CodeHalves(s);
    MixedSyndrome(CodeWord(s), CodeWord(Flip(s, i, b)), m);
    MixedNotSingle(p, m);
    HalvesOf(Complement(p), p);
    HalfXor(ErrorAt(p), m);
    CodeBitHalves(m);
    ComplementPlus(p, EvenHalf(m), OddHalf(m));
    FlipTwice(s, i, b);
  }

  // ---------- whole pages ----------

  function Sector(page: seq<byte>, k: nat): (s: seq<byte>)
    requires |page| >= PAGE && k < 4
    ensures |s| == SECTOR
  {
    page[512 * k..512 * k + 512]
  }

  /** At most one bit of the sector is inverted. */
  ghost predicate OneError(s: seq<byte>, s': seq<byte>)
    requires |s| == |s'| == SECTOR
  {
    s' == s || exists i, b :: 0 <= i < SECTOR && 0 <= b < 8 && s' == Flip(s, i, b)
  }

  /** Two bits of the sector are inverted. */
  ghost predicate TwoErrorsIn(s: seq<byte>, s': seq<byte>)
    requires |s| == |s'| == SECTOR
  {
    exists i, b, j, c :: 0 <= i < SECTOR && 0 <= b < 8 && 0 <= j < SECTOR && 0 <= c < 8
                         && (i != j || b != c) && s' == Flip(Flip(s, i, b), j, c)
  }

  /** No sector of the page has more than two inverted bits. */
  ghost predicate FewErrors(page: seq<byte>, damaged: seq<byte>)
    requires |page| >= PAGE && |damaged| >= PAGE
  {
    forall k :: 0 <= k < 4 ==> OneError(Sector(page, k), Sector(damaged, k)) || Doubled(page, damaged, k)
  }

  ghost predicate Doubled(page: seq<byte>, damaged: seq<byte>, k: nat)
    requires |page| >= PAGE && |damaged| >= PAGE && k < 4
  {
    TwoErrorsIn(Sector(page, k), Sector(damaged, k))
  }

  lemma SectorVerdict(s: seq<byte>, s': seq<byte>)
    requires |s| == |s'| == SECTOR && (OneError(s, s') || TwoErrorsIn(s, s'))
    ensures Repair(CodeWord(s), CodeWord(s'), s')
         == if TwoErrorsIn(s, s') then Outcome(s', Uncorrectable) else Outcome(s, if s' == s then Fine else Fixed)
  {
    hide CodeWord, Repair;
    if TwoErrorsIn(s, s') {
      var i, b, j, c :| 0 <= i < SECTOR && 0 <= b < 8 && 0 <= j < SECTOR && 0 <= c < 8
                        && (i != j || b != c) && s' == Flip(Flip(s, i, b), j, c);
      TwoDataBits(s, i, b, j, c);
    } else if s' == s {
      NoError(s);
    } else {
      var i, b :| 0 <= i < SECTOR && 0 <= b < 8 && s' == Flip(s, i, b);
      OneDataBit(s, i, b);
    }
  }

  /** A sector with two errors is not the sector itself. */
  lemma TwoErrorsDiffer(s: seq<byte>)
    requires |s| == SECTOR
    ensures !TwoErrorsIn(s, s)
  {
    hide CodeWord, Repair, TwoErrorsIn;
    NoError(s);
    assert TwoErrorsIn(s, s) ==> false by {
      if TwoErrorsIn(s, s) {
        SectorVerdict(s, s);
      }
    }
  }

  lemma CodeOfSector(p: seq<byte>, k: nat)
    requires |p| >= PAGE && k < 4
    ensures PageCode(p)[4 * k..4 * k + 4] == Code(Sector(p, k))
  {
    FourBytes(Sector(p, 0));
    FourBytes(Sector(p, 1));
    FourBytes(Sector(p, 2));
    FourBytes(Sector(p, 3));
    hide Code;
    assert p[..512] == Sector(p, 0);
    var c0, c1, c2, c3 := Code(Sector(p, 0)), Code(Sector(p, 1)), Code(Sector(p, 2)), Code(Sector(p, 3));
    assert PageCode(p) == c0 + c1 + c2 + c3;
    match k
    case 0 => assert (c0 + c1 + c2 + c3)[..4] == c0;
    case 1 => assert (c0 + c1 + c2 + c3)[4..8] == c1;
    case 2 => assert (c0 + c1 + c2 + c3)[8..12] == c2;
    case 3 => assert (c0 + c1 + c2 + c3)[12..16] == c3;
  }

  lemma FourBytes(s: seq<byte>)
    ensures |Code(s)| == 4
  {
  }

  lemma LoadedWord(ecc: seq<byte>, at: nat, k: nat, e: seq<byte>, c: seq<byte>)
    requires at + 16 <= |ecc| && k < 4 && e == ecc[at..at + 16] && e[4 * k..4 * k + 4] == c
    ensures WordAt(ecc, at, k) == Load(c[0], c[1], c[2], c[3])
  {
    hide Load;
    assert c[0] == e[4 * k] && c[1] == e[4 * k + 1] && c[2] == e[4 * k + 2] && c[3] == e[4 * k + 3];
  }

  lemma WordOfCode(s: seq<byte>)
    ensures CodeWord(s) == Load(Code(s)[0], Code(s)[1], Code(s)[2], Code(s)[3])
  {
    hide Even, Odd, Low, High, Load;
  }

  /** The word that is loaded from where the code of a sector was stored. */
  lemma StoredWord(p: seq<byte>, ecc: seq<byte>, at: nat, k: nat)
    requires |p| >= PAGE && at + 16 <= |ecc| && k < 4 && ecc[at..at + 16] == PageCode(p)
    ensures WordAt(ecc, at, k) == CodeWord(Sector(p, k))
  {
    hide Code, Load, CodeWord, WordAt, PageCode;
    CodeOfSector(p, k);
    FourBytes(Sector(p, k));
    LoadedWord(ecc, at, k, PageCode(p), Code(Sector(p, k)));
    WordOfCode(Sector(p, k));
  }

  /** The spare area holds the codes of the page at 0x30 and those of the damaged page at 0x40. */
  predicate CodesOf(page: seq<byte>, damaged: seq<byte>, ecc: seq<byte>)
    requires |page| >= PAGE && |damaged| >= PAGE
  {
    && |ecc| >= 0x50
    && ecc[0x30..0x40] == PageCode(page) && ecc[0x40..0x50] == PageCode(damaged)
  }

  lemma SectorOutcome(page: seq<byte>, damaged: seq<byte>, ecc: seq<byte>, k: nat)
    requires |page| >= PAGE && |damaged| >= PAGE && |ecc| >= 0x50 && k < 4
    requires CodesOf(page, damaged, ecc) && FewErrors(page, damaged)
    ensures RepairSector(damaged, ecc, k)
         == if Doubled(page, damaged, k) then Outcome(Sector(damaged, k), Uncorrectable)
            else Outcome(Sector(page, k), if Sector(page, k) == Sector(damaged, k) then Fine else Fixed)
  {
    hide CodeWord, Repair, WordAt, PageCode, OneError, TwoErrorsIn;
    StoredWord(page, ecc, 0x30, k);
    StoredWord(damaged, ecc, 0x40, k);
    SectorVerdict(Sector(page, k), Sector(damaged, k));
  }

  /** Every sector with at most one error is restored, every sector with two is left as it is. */
  ghost predicate Mended(page: seq<byte>, damaged: seq<byte>, now: seq<byte>)
    requires |page| >= PAGE && |damaged| >= PAGE && |now| >= PAGE
  {
    forall k :: 0 <= k < 4 ==> Sector(now, k) == Sector(if Doubled(page, damaged, k) then damaged else page, k)
  }

  lemma {:induction false} RepairedSectors(damaged: seq<byte>, ecc: seq<byte>, n: nat)
    requires |damaged| >= PAGE && |ecc| >= 0x50 && n <= 4
    ensures |Repaired(damaged, ecc, n)| == 512 * n && |Verdicts(damaged, ecc, n)| == n
    ensures forall k :: 0 <= k < n ==>
              Repaired(damaged, ecc, n)[512 * k..512 * k + 512] == RepairSector(damaged, ecc, k).sector
    ensures forall k :: 0 <= k < n ==> Verdicts(damaged, ecc, n)[k] == RepairSector(damaged, ecc, k).verdict
  {
    hide RepairSector;
    if n > 0 {
      RepairedSectors(damaged, ecc, n - 1);
      RepairKeepsLength(damaged, ecc, n - 1);
      var r := Repaired(damaged, ecc, n - 1);
      forall k | 0 <= k < n
        ensures Repaired(damaged, ecc, n)[512 * k..512 * k + 512] == RepairSector(damaged, ecc, k).sector
      {
        assert k < n - 1 ==> r[512 * k..512 * k + 512] == Repaired(damaged, ecc, n)[512 * k..512 * k + 512];
      }
    }
  }

  lemma RepairKeepsLength(damaged: seq<byte>, ecc: seq<byte>, k: nat)
    requires |damaged| >= PAGE && |ecc| >= 0x50 && k < 4
    ensures |RepairSector(damaged, ecc, k).sector| == SECTOR
  {
    hide Syndrome, OddHalf, EvenHalf, AtMostOneBit, Complementary, FixMask, Xb, WordAt;
  }

  ghost predicate SomeDoubled(page: seq<byte>, damaged: seq<byte>)
    requires |page| >= PAGE && |damaged| >= PAGE
  {
    exists k :: 0 <= k < 4 && Doubled(page, damaged, k)
  }

  /** The page after correction. */
  lemma PageMended(page: seq<byte>, damaged: seq<byte>, ecc: seq<byte>, now: seq<byte>)
    requires |page| >= PAGE && |damaged| >= PAGE && |ecc| >= 0x50
    requires CodesOf(page, damaged, ecc) && FewErrors(page, damaged)
    requires now == Repaired(damaged, ecc, 4) + damaged[PAGE..]
    ensures |now| == |damaged| && Mended(page, damaged, now)
  {
    hide RepairSector, Doubled, FewErrors, CodesOf, Repaired, Verdicts;
    RepairedSectors(damaged, ecc, 4);
    PrefixSectors(Repaired(damaged, ecc, 4), now);
    forall k | 0 <= k < 4
      ensures Sector(now, k) == Sector(if Doubled(page, damaged, k) then damaged else page, k)
    {
      SectorOutcome(page, damaged, ecc, k);
    }
  }

  /** The verdicts on the page: some sector is uncorrectable if and only if it has two errors, and none
      is reported at all if and only if the page is as it was. */
  lemma PageVerdicts(page: seq<byte>, damaged: seq<byte>, ecc: seq<byte>)
    requires |page| >= PAGE && |damaged| >= PAGE && |ecc| >= 0x50
    requires CodesOf(page, damaged, ecc) && FewErrors(page, damaged)
    ensures Uncorrectable in Verdicts(damaged, ecc, 4) <==> SomeDoubled(page, damaged)
    ensures Fixed !in Verdicts(damaged, ecc, 4) && !SomeDoubled(page, damaged) <==> page[..PAGE] == damaged[..PAGE]
  {
    hide RepairSector, Doubled, FewErrors, CodesOf, Repaired, Verdicts, Sector, VerdictOf, SomeDoubled;
    var vs := Verdicts(damaged, ecc, 4);
    RepairedSectors(damaged, ecc, 4);
    forall k: nat | k < 4
      ensures vs[k] == VerdictOf(page, damaged, k)
    {
      SectorVerdictOf(page, damaged, ecc, k);
    }
    FourVerdicts(page, damaged, vs);
  }

  ghost function VerdictOf(page: seq<byte>, damaged: seq<byte>, k: nat): Verdict
    requires |page| >= PAGE && |damaged| >= PAGE && k < 4
  {
    if Doubled(page, damaged, k) then Uncorrectable
    else if Sector(page, k) == Sector(damaged, k) then Fine
    else Fixed
  }

  lemma SectorVerdictOf(page: seq<byte>, damaged: seq<byte>, ecc: seq<byte>, k: nat)
    requires |page| >= PAGE && |damaged| >= PAGE && |ecc| >= 0x50 && k < 4
    requires CodesOf(page, damaged, ecc) && FewErrors(page, damaged)
    ensures RepairSector(damaged, ecc, k).verdict == VerdictOf(page, damaged, k)
  {
    hide RepairSector, Doubled, FewErrors, CodesOf, Sector;
    SectorOutcome(page, damaged, ecc, k);
  }

  lemma FourVerdicts(page: seq<byte>, damaged: seq<byte>, vs: seq<Verdict>)
    requires |page| >= PAGE && |damaged| >= PAGE && |vs| == 4
    requires forall k: nat :: k < 4 ==> vs[k] == VerdictOf(page, damaged, k)
    ensures Uncorrectable in vs <==> SomeDoubled(page, damaged)
    ensures Fixed !in vs && !SomeDoubled(page, damaged) <==> page[..PAGE] == damaged[..PAGE]
  {
    hide Doubled, Sector;
    SameNotDoubled(page, damaged, 0);
    SameNotDoubled(page, damaged, 1);
    SameNotDoubled(page, damaged, 2);
    SameNotDoubled(page, damaged, 3);
    assert vs == [vs[0], vs[1], vs[2], vs[3]];
    SectorsMakePage(page, damaged);
  }

  lemma SameNotDoubled(page: seq<byte>, damaged: seq<byte>, k: nat)
    requires |page| >= PAGE && |damaged| >= PAGE && k < 4
    ensures Sector(page, k) == Sector(damaged, k) ==> !Doubled(page, damaged, k)
  {
    TwoErrorsDiffer(Sector(page, k));
  }

  lemma PrefixSectors(r: seq<byte>, now: seq<byte>)
    requires |r| == PAGE && r <= now
    ensures forall k :: 0 <= k < 4 ==> Sector(now, k) == r[512 * k..512 * k + 512]
  {
  }

  lemma SectorsMakePage(p: seq<byte>, q: seq<byte>)
    requires |p| >= PAGE && |q| >= PAGE
    ensures p[..PAGE] == q[..PAGE]
       <==> Sector(p, 0) == Sector(q, 0) && Sector(p, 1) == Sector(q, 1) && Sector(p, 2) == Sector(q, 2)
            && Sector(p, 3) == Sector(q, 3)
  {
    assert p[..PAGE] == Sector(p, 0) + Sector(p, 1) + Sector(p, 2) + Sector(p, 3);
    assert q[..PAGE] == Sector(q, 0) + Sector(q, 1) + Sector(q, 2) + Sector(q, 3);
    assert p[..PAGE][..512] == Sector(p, 0) && p[..PAGE][512..1024] == Sector(p, 1);
    assert p[..PAGE][1024..1536] == Sector(p, 2) && p[..PAGE][1536..2048] == Sector(p, 3);
    assert q[..PAGE][..512] == Sector(q, 0) && q[..PAGE][512..1024] == Sector(q, 1);
    assert q[..PAGE][1024..1536] == Sector(q, 2) && q[..PAGE][1536..2048] == Sector(q, 3);
  }

  /** From calc_ecc on the page that is written, through damage of up to two bits in each sector, to
      correction: sectors with one error come back, and the result tells whether all of them did. */
  method StoreDamageCorrect(page: array<byte>, data: array<byte>, ecc: array<byte>) returns (r: int)
    requires page.Length == data.Length == PAGE && ecc.Length >= 0x50
    requires page != data && page != ecc && data != ecc && FewErrors(page[..], data[..])
    modifies data, ecc
    ensures Mended(page[..], old(data[..]), data[..])
    ensures r == NAND_ECC_UNCORRECTABLE <==> SomeDoubled(page[..], old(data[..]))
    ensures r == NAND_ECC_OK <==> page[..] == old(data[..])
    ensures r == NAND_ECC_CORRECTED ==> data[..] == page[..]
    ensures ecc[0x30..0x40] == PageCode(page[..]) && ecc[..0x30] == old(ecc[..0x30])
  {
    hide FewErrors, Doubled, PageCode, Repaired, Verdicts;
    ghost var p, d := page[..], data[..];
    assert page[0..PAGE] == p && data[0..PAGE] == d;
    CalcPage(page, 0, ecc, 0x30);
    CalcPage(data, 0, ecc, 0x40);
    assert ecc[0x40..0x50] == PageCode(d);
    assert ecc[0x30..0x40] == PageCode(p);
    r := Correct(data, ecc);
    PageMended(p, d, ecc[..], data[..]);
    PageVerdicts(p, d, ecc[..]);
    NoneDoubled(p, d, data[..]);
    assert p[..PAGE] == p && d[..PAGE] == d && data[..][..PAGE] == data[..];
  }

  /** A mended page that had no sector with two errors is the page. */
  lemma NoneDoubled(page: seq<byte>, damaged: seq<byte>, now: seq<byte>)
    requires |page| >= PAGE && |damaged| >= PAGE && |now| >= PAGE && Mended(page, damaged, now)
    ensures !SomeDoubled(page, damaged) ==> now[..PAGE] == page[..PAGE]
  {
    hide Doubled;
    SectorsMakePage(now, page);
  }
}
