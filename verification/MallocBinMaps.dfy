/** Bin maps: the 32-bit maps of nonempty bins in wiinandfuse/geckonand/malloc.c. */
module BinMaps {

  type binmap = bv32

  /** idx2bit */
  function BitOf(i: nat): binmap
    requires i < 32
  {
    match i
    case 0 => 0x1
    case 1 => 0x2
    case 2 => 0x4
    case 3 => 0x8
    case 4 => 0x10
    case 5 => 0x20
    case 6 => 0x40
    case 7 => 0x80
    case 8 => 0x100
    case 9 => 0x200
    case 10 => 0x400
    case 11 => 0x800
    case 12 => 0x1000
    case 13 => 0x2000
    case 14 => 0x4000
    case 15 => 0x8000
    case 16 => 0x10000
    case 17 => 0x20000
    case 18 => 0x40000
    case 19 => 0x80000
    case 20 => 0x100000
    case 21 => 0x200000
    case 22 => 0x400000
    case 23 => 0x800000
    case 24 => 0x1000000
    case 25 => 0x2000000
    case 26 => 0x4000000
    case 27 => 0x8000000
    case 28 => 0x10000000
    case 29 => 0x20000000
    case 30 => 0x40000000
    case 31 => 0x80000000
  }

  predicate Has(m: binmap, b: binmap) {
    m & b != 0
  }

  function Or(m: binmap, b: binmap): binmap { m | b }

  function Minus(m: binmap, b: binmap): binmap { m & !b }

  function Keep(x: binmap, y: binmap): binmap { x & y }

  predicate Below(b: binmap, c: binmap) { b < c }

  /** treemap_is_marked, smallmap_is_marked */
  predicate Marked(m: binmap, i: nat)
    requires i < 32
  {
    Has(m, BitOf(i))
  }

  function Mark(m: binmap, i: nat): binmap
    requires i < 32
  {
    Or(m, BitOf(i))
  }

  function Unmark(m: binmap, i: nat): binmap
    requires i < 32
  {
    Minus(m, BitOf(i))
  }

  function LeastBit(x: binmap): binmap {
    x & (0 - x)
  }

  function LeftBits(x: binmap): binmap {
    (x << 1) | (0 - (x << 1))
  }

  /** compute_bit2idx, the portable version. */
  function BitIndexBits(x: binmap): binmap {
    var y := x - 1;
    var k := (y >> 12) & 16;
    var n, y1 := k, y >> (k as bv6);
    var k1 := (y1 >> 5) & 8;
    var n1, y2 := n + k1, y1 >> (k1 as bv6);
    var k2 := (y2 >> 2) & 4;
    var n2, y3 := n1 + k2, y2 >> (k2 as bv6);
    var k3 := (y3 >> 1) & 2;
    var n3, y4 := n2 + k3, y3 >> (k3 as bv6);
    var k4 := y4 & 1;
    var n4, y5 := n3 + k4, y4 >> (k4 as bv6);
    n4 + y5
  }

  // ---------- one-bit masks ----------

  predicate IsBit(b: binmap) {
    b != 0 && b & (b - 1) == 0
  }

  lemma BitOfIsBit(i: nat)
    requires i < 32
    ensures IsBit(BitOf(i))
  {
  }

  lemma BelowNext(i: nat)
    requires i < 31
    ensures Below(BitOf(i), BitOf(i + 1))
  {
  }

  lemma BelowTransitive(a: binmap, b: binmap, c: binmap)
    requires Below(a, b) && Below(b, c)
    ensures Below(a, c)
  {
  }

  lemma BelowStrict(a: binmap, b: binmap)
    requires Below(a, b)
    ensures a != b && !Below(b, a)
  {
  }

  lemma {:induction false} BitOfLess(i: nat, j: nat)
    requires i < j < 32
    ensures Below(BitOf(i), BitOf(j))
    decreases j - i
  {
    hide BitOf, Below;
    BelowNext(i);
    if i + 1 < j {
      BitOfLess(i + 1, j);
      BelowTransitive(BitOf(i), BitOf(i + 1), BitOf(j));
    }
  }

  lemma OrBit(m: binmap, b: binmap, c: binmap)
    requires IsBit(b) && IsBit(c)
    ensures Has(Or(m, b), c) == (b == c || Has(m, c))
  {
    assert (m | b) & c != 0 <==> (b == c || m & c != 0);
  }

  lemma AndNotBit(m: binmap, b: binmap, c: binmap)
    requires IsBit(b) && IsBit(c)
    ensures Has(Minus(m, b), c) == (b != c && Has(m, c))
  {
    assert (m & !b) & c != 0 <==> (b != c && m & c != 0);
  }

  lemma LeastIsBit(x: binmap)
    requires x != 0
    ensures IsBit(LeastBit(x)) && Has(x, LeastBit(x))
  {
  }

  lemma LeastIsLeast(x: binmap, c: binmap)
    requires x != 0 && IsBit(c) && Below(c, LeastBit(x))
    ensures !Has(x, c)
  {
  }

  lemma LeftBitsAbove(b: binmap, c: binmap)
    requires IsBit(b) && IsBit(c)
    ensures Has(LeftBits(b), c) == Below(b, c)
  {
  }

  lemma KeepTrue(x: binmap, y: binmap, c: binmap)
    requires IsBit(c) && Has(Keep(x, y), c)
    ensures Has(x, c) && Has(y, c)
  {
  }

  lemma KeepFalse(x: binmap, y: binmap, c: binmap)
    requires IsBit(c) && Has(x, c) && Has(y, c)
    ensures Has(Keep(x, y), c)
  {
    OnlyBit(x, c);
    OnlyBit(y, c);
    assert (x & y) & c == (x & c) & (y & c);
  }

  lemma OnlyBit(x: binmap, c: binmap)
    requires IsBit(c) && Has(x, c)
    ensures x & c == c
  {
  }

  /** The position of a one-bit mask. */
  lemma Position(b: binmap) returns (i: nat)
    requires IsBit(b)
    ensures i < 32 && b == BitOf(i)
  {
    hide IsBit;
    if b < 0x100 {
      Positions0(b);
      i :| 0 <= i < 8 && b == BitOf(i);
    } else if b < 0x10000 {
      Positions1(b);
      i :| 8 <= i < 16 && b == BitOf(i);
    } else if b < 0x1000000 {
      Positions2(b);
      i :| 16 <= i < 24 && b == BitOf(i);
    } else {
      Positions3(b);
      i :| 24 <= i < 32 && b == BitOf(i);
    }
  }

  lemma Positions0(b: binmap)
    requires IsBit(b) && b < 0x100
    ensures exists i :: 0 <= i < 8 && b == BitOf(i)
  {
    assert b == 0x1 || b == 0x2 || b == 0x4 || b == 0x8 || b == 0x10 || b == 0x20 || b == 0x40 || b == 0x80;
    assert BitOf(0) == 0x1 && BitOf(1) == 0x2 && BitOf(2) == 0x4 && BitOf(3) == 0x8 && BitOf(4) == 0x10
        && BitOf(5) == 0x20 && BitOf(6) == 0x40 && BitOf(7) == 0x80;
  }

  lemma Positions1(b: binmap)
    requires IsBit(b) && 0x100 <= b < 0x10000
    ensures exists i :: 8 <= i < 16 && b == BitOf(i)
  {
    assert b == 0x100 || b == 0x200 || b == 0x400 || b == 0x800 || b == 0x1000 || b == 0x2000 || b == 0x4000
        || b == 0x8000;
    assert BitOf(8) == 0x100 && BitOf(9) == 0x200 && BitOf(10) == 0x400 && BitOf(11) == 0x800 && BitOf(12) == 0x1000
        && BitOf(13) == 0x2000 && BitOf(14) == 0x4000 && BitOf(15) == 0x8000;
  }

  lemma Positions2(b: binmap)
    requires IsBit(b) && 0x10000 <= b < 0x1000000
    ensures exists i :: 16 <= i < 24 && b == BitOf(i)
  {
    assert b == 0x10000 || b == 0x20000 || b == 0x40000 || b == 0x80000 || b == 0x100000 || b == 0x200000
        || b == 0x400000 || b == 0x800000;
    assert BitOf(16) == 0x10000 && BitOf(17) == 0x20000 && BitOf(18) == 0x40000 && BitOf(19) == 0x80000
        && BitOf(20) == 0x100000 && BitOf(21) == 0x200000 && BitOf(22) == 0x400000 && BitOf(23) == 0x800000;
  }

  lemma Positions3(b: binmap)
    requires IsBit(b) && 0x1000000 <= b
    ensures exists i :: 24 <= i < 32 && b == BitOf(i)
  {
    assert b == 0x1000000 || b == 0x2000000 || b == 0x4000000 || b == 0x8000000 || b == 0x10000000 || b == 0x20000000
        || b == 0x40000000 || b == 0x80000000;
    assert BitOf(24) == 0x1000000 && BitOf(25) == 0x2000000 && BitOf(26) == 0x4000000 && BitOf(27) == 0x8000000
        && BitOf(28) == 0x10000000 && BitOf(29) == 0x20000000 && BitOf(30) == 0x40000000 && BitOf(31) == 0x80000000;
  }

  // ---------- maps as sets of indices ----------

  lemma MarkMarked(m: binmap, i: nat, j: nat)
    requires i < 32 && j < 32
    ensures Marked(Mark(m, i), j) == (i == j || Marked(m, j))
  {
    BitOfIsBit(i);
    BitOfIsBit(j);
    Distinct(i, j);
    hide BitOf, IsBit, Has, Or;
    OrBit(m, BitOf(i), BitOf(j));
  }

  lemma UnmarkMarked(m: binmap, i: nat, j: nat)
    requires i < 32 && j < 32
    ensures Marked(Unmark(m, i), j) == (i != j && Marked(m, j))
  {
    BitOfIsBit(i);
    BitOfIsBit(j);
    Distinct(i, j);
    hide BitOf, IsBit, Has, Minus;
    AndNotBit(m, BitOf(i), BitOf(j));
  }

  lemma Distinct(i: nat, j: nat)
    requires i < 32 && j < 32
    ensures BitOf(i) == BitOf(j) <==> i == j
    ensures Below(BitOf(i), BitOf(j)) <==> i < j
  {
    hide BitOf, Below;
    if i < j {
      BitOfLess(i, j);
      BelowStrict(BitOf(i), BitOf(j));
    } else if j < i {
      BitOfLess(j, i);
      BelowStrict(BitOf(j), BitOf(i));
    } else {
      NotBelow(BitOf(i));
    }
  }

  lemma NotBelow(b: binmap)
    ensures !Below(b, b)
  {
  }

  /** The index found in a nonempty map is its least. */
  lemma Least(m: binmap) returns (i: nat)
    requires m != 0
    ensures i < 32 && LeastBit(m) == BitOf(i) && Marked(m, i)
    ensures forall j :: 0 <= j < i ==> !Marked(m, j)
  {
    hide BitOf, LeastBit, IsBit, Has, Below;
    LeastIsBit(m);
    i := Position(LeastBit(m));
    forall j | 0 <= j < i
      ensures !Marked(m, j)
    {
      BitOfLess(j, i);
      BitOfIsBit(j);
      LeastIsLeast(m, BitOf(j));
    }
  }

  lemma EmptyMap(j: nat)
    requires j < 32
    ensures !Marked(0, j)
  {
    hide BitOf;
  }

  lemma LeftMarked(i: nat, m: binmap, j: nat)
    requires i < 32 && j < 32
    ensures Marked(Keep(LeftBits(BitOf(i)), m), j) == (i < j && Marked(m, j))
  {
    BitOfIsBit(i);
    BitOfIsBit(j);
    Distinct(i, j);
    hide BitOf, LeftBits, Keep, IsBit, Has, Below;
    LeftBitsAbove(BitOf(i), BitOf(j));
    if Has(Keep(LeftBits(BitOf(i)), m), BitOf(j)) {
      KeepTrue(LeftBits(BitOf(i)), m, BitOf(j));
    } else if i < j && Has(m, BitOf(j)) {
      KeepFalse(LeftBits(BitOf(i)), m, BitOf(j));
    }
  }

  function BitIndex(x: binmap): int {
    BitIndexBits(x) as int
  }

  /** The conversion finds the position of a one-bit map. */
  lemma BitIndexOf(i: nat)
    requires i < 32
    ensures BitIndex(BitOf(i)) == i
  {
    if i < 16 {
      BitIndexLow(i);
    } else {
      BitIndexHigh(i);
    }
  }

  lemma BitIndexLow(i: nat)
    requires i < 16
    ensures BitIndex(BitOf(i)) == i
  {
  }

  lemma BitIndexHigh(i: nat)
    requires 16 <= i < 32
    ensures BitIndex(BitOf(i)) == i
  {
  }

  // ---------- the small map, shifted by an index ----------

  /** m >> i */
  function Down(m: binmap, i: nat): binmap {
    if i == 0 then m else DownOne(Down(m, i - 1))
  }

  /** m << i */
  function Up(m: binmap, i: nat): binmap {
    if i == 0 then m else UpOne(Up(m, i - 1))
  }

  function DownOne(m: binmap): binmap { m >> 1 }

  function UpOne(m: binmap): binmap { m << 1 }

  lemma BitOfNext(i: nat)
    requires i < 31
    ensures BitOf(i + 1) == UpOne(BitOf(i)) && !Has(BitOf(i), 0x8000_0000)
  {
    BelowNext(i);
    Doubled(i);
    hide BitOf, Has, Below, UpOne;
    NotLast(BitOf(i), BitOf(i + 1));
  }

  lemma NotLast(b: binmap, c: binmap)
    requires Below(b, c) && c == UpOne(b)
    ensures !Has(b, 0x8000_0000)
  {
  }

  lemma Doubled(i: nat)
    requires i < 31
    ensures BitOf(i + 1) == UpOne(BitOf(i))
  {
    var j := i + 1;
    if i < 16 {
      DoubledLow(i, j);
    } else {
      DoubledHigh(i, j);
    }
  }

  lemma DoubledLow(i: nat, j: nat)
    requires i < 16 && j == i + 1
    ensures BitOf(j) == UpOne(BitOf(i))
  {
  }

  lemma DoubledHigh(i: nat, j: nat)
    requires 16 <= i < 31 && j == i + 1
    ensures BitOf(j) == UpOne(BitOf(i))
  {
  }

  lemma DownBit(m: binmap, b: binmap)
    requires !Has(b, 0x8000_0000)
    ensures Has(DownOne(m), b) == Has(m, UpOne(b))
  {
    assert (m >> 1) & b == (m & (b << 1)) >> 1;
    assert (b << 1) & 1 == 0;
  }

  lemma UpBit(m: binmap, b: binmap)
    requires !Has(b, 0x8000_0000)
    ensures Has(UpOne(m), UpOne(b)) == Has(m, b)
  {
    assert (m << 1) & (b << 1) == (m & b) << 1;
  }

  lemma LastBits(m: binmap)
    ensures !Has(DownOne(m), BitOf(31)) && !Has(UpOne(m), BitOf(0))
  {
    assert BitOf(31) == 0x8000_0000 && BitOf(0) == 1;
  }

  lemma {:induction false} DownMarked(m: binmap, i: nat, j: nat)
    requires j < 32
    ensures Marked(Down(m, i), j) == (i + j < 32 && Marked(m, i + j))
    decreases i
  {
    hide BitOf, Has, DownOne, UpOne;
    if i > 0 {
      if j == 31 {
        LastBits(Down(m, i - 1));
      } else {
        BitOfNext(j);
        DownBit(Down(m, i - 1), BitOf(j));
        DownMarked(m, i - 1, j + 1);
      }
    }
  }

  lemma {:induction false} UpMarked(m: binmap, i: nat, j: nat)
    requires j < 32
    ensures Marked(Up(m, i), j) == (i <= j && Marked(m, j - i))
    decreases i
  {
    hide BitOf, Has, DownOne, UpOne;
    if i > 0 {
      if j == 0 {
        LastBits(Up(m, i - 1));
      } else {
        BitOfNext(j - 1);
        UpBit(Up(m, i - 1), BitOf(j - 1));
        UpMarked(m, i - 1, j - 1);
      }
    }
  }

  /** smallbits & 3 */
  lemma LowTwo(m: binmap)
    ensures (m & 3 != 0) == (Marked(m, 0) || Marked(m, 1))
  {
    assert BitOf(0) == 1 && BitOf(1) == 2;
    LowTwoBits(m);
  }

  lemma LowTwoBits(m: binmap)
    ensures (m & 3 != 0) == (Has(m, 1) || Has(m, 2))
  {
  }

  /** ~smallbits & 1 */
  function NotFirst(m: binmap): nat {
    if !m & 1 == 1 then 1 else 0
  }

  lemma NotFirstMarked(m: binmap)
    ensures NotFirst(m) == if Marked(m, 0) then 0 else 1
  {
  }

  /** The marked bins above i, found from the map shifted down and up again. */
  lemma LeftOfShifted(m: binmap, i: nat, j: nat)
    requires i < 32 && j < 32
    ensures Marked(Keep(Up(Down(m, i), i), LeftBits(BitOf(i))), j) == (i < j && Marked(m, j))
  {
    hide BitOf, LeftBits, Keep, Has, Down, Up;
    KeepSwap(Up(Down(m, i), i), LeftBits(BitOf(i)));
    LeftMarked(i, Up(Down(m, i), i), j);
    UpMarked(Down(m, i), i, j);
    if i <= j {
      DownMarked(m, i, j - i);
    }
  }

  lemma KeepSwap(x: binmap, y: binmap)
    ensures Keep(x, y) == Keep(y, x)
  {
  }

  /** A map with a marked bin is not empty. */
  lemma NotEmpty(m: binmap, j: nat)
    requires j < 32 && Marked(m, j)
    ensures m != 0
  {
    hide BitOf;
  }
}
