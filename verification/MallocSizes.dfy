/** Sizes, alignment and tree-bin indices: the macros of wiinandfuse/geckonand/malloc.c. */
module Sizes {
  import opened Arith

  const WORD := 0x1_0000_0000
  const MIN_CHUNK := 16
  const MAX_SIZE := 0xFFFF_FFFF
  const MAX_REQUEST := 0xFFFF_FFC0
  const MAX_SMALL_REQUEST := 244
  const MIN_LARGE := 256
  const HALF_MAX := 0x7FFF_FFFF
  const TOP_FOOT := 40
  const TRIM_THRESHOLD := 0x20_0000

  /** Arithmetic of a 32-bit size_t. */
  function W32(x: int): (r: int)
    ensures 0 <= r < WORD
  {
    x % WORD
  }

  lemma W32Small(x: int)
    requires 0 <= x < WORD
    ensures W32(x) == x
  {
  }

  /** x rounded down to a multiple of 8. */
  function Floor8(x: int): (r: int)
    ensures r % 8 == 0 && r <= x < r + 8
  {
    x - x % 8
  }

  /** The chunk size for a request. */
  function RequestSize(bytes: int): (nb: int)
    requires 0 <= bytes < MAX_REQUEST
    ensures nb % 8 == 0 && MIN_CHUNK <= nb < WORD - 48
    ensures nb >= bytes + 4 && (nb == MIN_CHUNK || nb <= bytes + 11)
    ensures bytes <= MAX_SMALL_REQUEST <==> nb < MIN_LARGE
  {
    if bytes < 11 then MIN_CHUNK else Floor8(bytes + 11)
  }

  /** granularity_align and page_align, with a page of 8 bytes. */
  function PageAlign(s: int): (r: int)
    ensures r % 8 == 0 && 0 <= r < WORD
    ensures 0 <= s < WORD - 8 ==> s < r <= s + 8
  {
    Floor8(W32(s + 8))
  }

  /** What brings a chunk at p to an 8-byte aligned payload. */
  function AlignOffset(p: int): (r: int)
    ensures 0 <= r < 8 && (p + r) % 8 == 0
  {
    if p % 8 == 0 then 0 else 8 - p % 8
  }

  // ---------- powers of two ----------

  function Pow2(n: nat): (r: nat)
    ensures r >= 1
  {
    if n == 0 then 1 else 2 * Pow2(n - 1)
  }

  lemma Pow2Values()
    ensures Pow2(0) == 1 && Pow2(1) == 2 && Pow2(2) == 4 && Pow2(4) == 16 && Pow2(8) == 256
    ensures Pow2(31) == 0x8000_0000 && Pow2(32) == WORD
  {
    assert Pow2(8) == 256;
    assert Pow2(16) == 0x1_0000;
    assert Pow2(24) == 0x100_0000;
  }

  lemma {:induction false} Pow2Add(a: nat, b: nat)
    ensures Pow2(a + b) == Pow2(a) * Pow2(b)
    decreases a
  {
    if a > 0 {
      Pow2Add(a - 1, b);
      MulAssoc(2, Pow2(a - 1), Pow2(b));
    }
  }

  /** Pow2 grows. */
  lemma Pow2Grows(a: nat, b: nat)
    ensures a <= b ==> Pow2(a) <= Pow2(b)
  {
    if a <= b { Pow2Less(a, b); }
  }

  lemma {:induction false} Pow2Less(a: nat, b: nat)
    requires a <= b
    ensures Pow2(a) <= Pow2(b)
    decreases b - a
  {
    if a < b {
      Pow2Less(a + 1, b);
    }
  }

  /** Dividing by twice m is dividing by m and halving. */
  lemma DivTwice(s: int, m: int)
    requires s >= 0 && m > 0
    ensures s / (2 * m) == (s / m) / 2 && s / m >= 0
  {
    DivNonnegative(s, m);
    var q, r := s / m, s % m;
    var h, b := q / 2, q % 2;
    assert s == q * m + r;
    Regroup(q, h, b, m);
    assert 0 <= b * m <= m;
    DivModUnique(s, h, 2 * m, b * m + r);
  }

  lemma Regroup(q: int, h: int, b: int, m: int)
    requires q == 2 * h + b
    ensures q * m == h * (2 * m) + b * m
  {
    assert (2 * h + b) * m == 2 * h * m + b * m;
  }

  /** The part of s above bit w. */
  function Prefix(s: int, w: nat): (p: int)
    requires s >= 0
    ensures p >= 0
  {
    DivNonnegative(s, Pow2(w));
    s / Pow2(w)
  }

  /** Bit w of s. */
  function Turn(s: int, w: nat): (b: int)
    requires s >= 0
    ensures b == 0 || b == 1
  {
    Prefix(s, w) % 2
  }

  lemma PrefixStep(s: int, w: nat)
    requires s >= 0
    ensures Prefix(s, w + 1) == Prefix(s, w) / 2
    ensures Prefix(s, w) == 2 * Prefix(s, w + 1) + Turn(s, w)
  {
    DivTwice(s, Pow2(w));
  }

  lemma PrefixZero(s: int)
    requires s >= 0
    ensures Prefix(s, 0) == s
  {
  }

  lemma PrefixRange(s: int, w: nat)
    requires s >= 0
    ensures Prefix(s, w) * Pow2(w) <= s < (Prefix(s, w) + 1) * Pow2(w)
  {
    var m := Pow2(w);
    assert s == (s / m) * m + s % m;
    assert (Prefix(s, w) + 1) * m == Prefix(s, w) * m + m;
  }

  /** A larger prefix is a larger size. */
  lemma PrefixOrder(s: int, t: int, w: nat)
    requires s >= 0 && t >= 0 && Prefix(s, w) < Prefix(t, w)
    ensures s < t
  {
    PrefixRange(s, w);
    PrefixRange(t, w);
    MulLess(Prefix(s, w) + 1, Prefix(t, w), Pow2(w));
  }

  /** Sizes that agree above bit w agree above every higher bit. */
  lemma {:induction false} PrefixUp(s: int, t: int, w: nat, v: nat)
    requires s >= 0 && t >= 0 && w <= v && Prefix(s, w) == Prefix(t, w)
    ensures Prefix(s, v) == Prefix(t, v)
    decreases v - w
  {
    hide Prefix;
    if w < v {
      PrefixStep(s, w);
      PrefixStep(t, w);
      PrefixUp(s, t, w + 1, v);
    }
  }

  // ---------- tree bins ----------

  /** x & m for a power of two m. */
  function Masked(x: int, m: int): int
    requires m > 0
  {
    x / m % 2 * m
  }

  /** The shift that a normalisation step makes: k places if y is below the limit, by way of the borrow. */
  function Normalise(y: int, limit: int, k: int): (n: int)
    requires 0 <= y <= 0xFFFF && 0 < limit <= 0x4000 && k in {2, 4, 8}
    ensures n == if y < limit then k else 0
  {
    Masked(W32(y - limit) / 0x10000, k)
  }

  /** One normalisation step. */
  function Raise(y: int, limit: int, k: nat): (r: int)
    requires (1 <= y && limit == 0x100 && k == 8) || (0x100 <= y && limit == 0x1000 && k == 4)
          || (0x1000 <= y && limit == 0x4000 && k == 2)
    requires y <= 0xFFFF
    ensures limit <= r <= 0xFFFF && r == y * Pow2(Normalise(y, limit, k))
  {
    SmallPowers();
    y * Pow2(Normalise(y, limit, k))
  }

  /** The position of the highest set bit of x, by three normalisation steps. */
  function HighBit(x: int): (e: nat)
    requires 1 <= x <= 0xFFFF
    ensures e <= 15 && Pow2(e) <= x < 2 * Pow2(e)
  {
    var n, y := Normalise(x, 0x100, 8), Raise(x, 0x100, 8);
    var k, y' := Normalise(y, 0x1000, 4), Raise(y, 0x1000, 4);
    var k', y'' := Normalise(y', 0x4000, 2), Raise(y', 0x4000, 2);
    HighBitPosition(x, n, y, k, y', k', y'');
    14 - (n + k + k') + y'' / 0x8000
  }

  lemma HighBitPosition(x: int, n: nat, y: int, k: nat, y': int, k': nat, y'': int)
    requires y == x * Pow2(n) && y' == y * Pow2(k) && y'' == y' * Pow2(k')
    requires n in {0, 8} && k in {0, 4} && k' in {0, 2} && 0x4000 <= y'' < 0x10000
    ensures var e := 14 - (n + k + k') + y'' / 0x8000; 0 <= e <= 15 && Pow2(e) <= x < 2 * Pow2(e)
  {
    hide Pow2;
    Scaled(x, n, y, k, y', k', y'');
    HighBitRange(x, n + k + k', y'');
  }

  lemma Scaled(x: int, n: nat, y: int, k: nat, y': int, k': nat, y'': int)
    requires y == x * Pow2(n) && y' == y * Pow2(k) && y'' == y' * Pow2(k')
    ensures y'' == x * Pow2(n + k + k')
  {
    Pow2Add(n, k);
    Pow2Add(n + k, k');
    MulAssoc(x, Pow2(n), Pow2(k));
    MulAssoc(x, Pow2(n + k), Pow2(k'));
  }

  lemma HighBitRange(x: int, n: nat, y: int)
    requires y == x * Pow2(n) && 0x4000 <= y < 0x10000 && n <= 14 && n % 2 == 0
    ensures var e := 14 - n + y / 0x8000; 0 <= e <= 15 && Pow2(e) <= x < 2 * Pow2(e)
  {
    SmallPowers();
    assert n == 0 || n == 2 || n == 4 || n == 6 || n == 8 || n == 10 || n == 12 || n == 14;
  }

  /** compute_tree_index, the portable version. */
  function TreeIndex(s: int): int
    requires 0 <= s < WORD
  {
    var x := s / 256;
    if x == 0 then 0
    else if x > 0xFFFF then 31
    else
      var e := HighBit(x);
      2 * e + s / Pow2(e + 7) % 2
  }

  /** The number of size bits a tree at bin i resolves, its root's included. */
  function Bits(i: int): (w: nat)
    requires 0 <= i < 32
    ensures 7 <= w <= 32
  {
    if i == 31 then 32 else i / 2 + 7
  }

  /** What the sizes of bin i have above the resolved bits. */
  function RootPrefix(i: int): int {
    if i == 31 then 0 else 2 + i % 2
  }

  /** minsize_for_tree_index. */
  function MinSize(i: int): int
    requires 0 <= i < 32
  {
    Pow2(i / 2 + 8) + (i % 2) * Pow2(i / 2 + 7)
  }

  lemma SmallPowers()
    ensures Pow2(0) == 1 && Pow2(1) == 2 && Pow2(2) == 4 && Pow2(3) == 8 && Pow2(4) == 16 && Pow2(5) == 32
    ensures Pow2(6) == 64 && Pow2(7) == 128 && Pow2(8) == 256 && Pow2(9) == 512 && Pow2(10) == 0x400
    ensures Pow2(11) == 0x800 && Pow2(12) == 0x1000 && Pow2(13) == 0x2000 && Pow2(14) == 0x4000 && Pow2(15) == 0x8000
  {
  }


  /** Every large size lies in the interval of its bin, and its resolved bits start below the bin's prefix. */
  lemma TreeIndexRange(s: int)
    requires MIN_LARGE <= s < WORD
    ensures var i := TreeIndex(s);
      0 <= i < 32 && MinSize(i) <= s && (i < 31 ==> s < MinSize(i + 1)) && Prefix(s, Bits(i)) == RootPrefix(i)
  {
    hide Pow2;
    Pow2Values();
    if s / 256 > 0xFFFF {
      TopBin(s);
    } else {
      var e := HighBit(s / 256);
      LowerBin(s, e, s / Pow2(e + 7) % 2);
    }
  }

  lemma TopBin(s: int)
    requires 0x100_0000 <= s < WORD
    ensures MinSize(31) <= s && Prefix(s, Bits(31)) == RootPrefix(31)
  {
    Pow2Values();
    SmallPowers();
    Pow2Add(8, 15);
    Pow2Add(8, 14);
    hide Pow2;
    assert 8 + 15 == 23 && 8 + 14 == 22;
    DivModUnique(s, 0, WORD, s);
  }

  lemma LowerBin(s: int, e: nat, b: int)
    requires MIN_LARGE <= s < WORD && s / 256 <= 0xFFFF && e <= 15 && Pow2(e) <= s / 256 < 2 * Pow2(e)
    requires b == s / Pow2(e + 7) % 2
    ensures var i := 2 * e + b;
      MinSize(i) <= s && (i < 31 ==> s < MinSize(i + 1)) && Prefix(s, Bits(i)) == RootPrefix(i)
  {
    var m, i := Pow2(e + 7), 2 * e + b;
    assert 2 * m == 256 * Pow2(e) && Pow2(e + 8) == 2 * m && Pow2(e + 9) == 4 * m by {
      Pow2Values();
      Pow2Add(8, e);
    }
    LeadingBits(s, s / 256, Pow2(e), m);
    assert s / m == 2 + b;
    hide Pow2;
    assert i / 2 == e && i % 2 == b;
    MinSizeAt(e, b, m);
    if i == 31 {
      Pow2Values();
      DivModUnique(s, 0, WORD, s);
    } else {
      assert Bits(i) == e + 7;
    }
  }

  lemma MinSizeAt(e: nat, b: int, m: int)
    requires e <= 15 && (b == 0 || b == 1) && Pow2(e + 7) == m && Pow2(e + 8) == 2 * m && Pow2(e + 9) == 4 * m
    ensures var i := 2 * e + b;
      MinSize(i) == (2 + b) * m && (i < 31 ==> MinSize(i + 1) == (3 + b) * m)
  {
    hide Pow2;
    var i := 2 * e + b;
    assert i / 2 == e && i % 2 == b;
    if b == 0 {
      assert (i + 1) / 2 == e && (i + 1) % 2 == 1;
    } else {
      assert (i + 1) / 2 == e + 1 && (i + 1) % 2 == 0;
      assert e + 1 + 8 == e + 9;
    }
  }

  lemma LeadingBits(s: int, x: int, p: int, m: int)
    requires x == s / 256 && 0 < p <= x < 2 * p && 2 * m == 256 * p && m > 0
    ensures 2 * m <= s < 4 * m && (s / m == 2 || s / m == 3)
    ensures s / m == 2 ==> 2 * m <= s < 3 * m
    ensures s / m == 3 ==> 3 * m <= s < 4 * m
  {
    if s < 3 * m {
      DivModUnique(s, 2, m, s - 2 * m);
    } else {
      DivModUnique(s, 3, m, s - 3 * m);
    }
  }

  lemma MinSizePowers(e: nat)
    ensures Pow2(e + 8) == 2 * Pow2(e + 7) && Pow2(e + 9) == 4 * Pow2(e + 7)
  {
    assert e + 9 - 1 == e + 8 && e + 8 - 1 == e + 7;
  }

  lemma {:induction false} MinSizeOrder(i: int, j: int)
    requires 0 <= i <= j < 32
    ensures MinSize(i) <= MinSize(j)
    decreases j - i
  {
    if i < j {
      MinSizeOrder(i + 1, j);
      hide Pow2;
      var e, b := i / 2, i % 2;
      assert i == 2 * e + b;
      MinSizePowers(e);
      MinSizeAt(e, b, Pow2(e + 7));
    }
  }

  /** Bins are ordered by size. */
  lemma TreeIndexOrder(s: int, t: int)
    requires MIN_LARGE <= s < WORD && MIN_LARGE <= t < WORD && TreeIndex(s) < TreeIndex(t)
    ensures s < t
  {
    hide TreeIndex, MinSize;
    TreeIndexRange(s);
    TreeIndexRange(t);
    MinSizeOrder(TreeIndex(s) + 1, TreeIndex(t));
  }

  // ---------- the shifted size of a descent ----------

  /** The size, shifted so that its highest of w unresolved bits is the sign bit. */
  function SizeBits(s: int, w: nat): (k: int)
    requires s >= 0 && w <= 32
    ensures k >= 0
  {
    (s % Pow2(w)) * Pow2(32 - w)
  }

  /** s << leftshift_for_tree_index(i) */
  lemma SizeBitsStart(s: int, w: nat)
    requires 0 <= s < WORD && w <= 32
    ensures W32(s * Pow2(32 - w)) == SizeBits(s, w)
  {
    Pow2Values();
    Pow2Add(w, 32 - w);
    assert w + (32 - w) == 32;
    ShiftOut(s, Pow2(w), Pow2(32 - w), WORD);
  }

  lemma ShiftOut(s: int, m: int, n: int, word: int)
    requires s >= 0 && m > 0 && n > 0 && m * n == word
    ensures word > 0 && (s * n) % word == (s % m) * n
  {
    var q, r := s / m, s % m;
    assert s == q * m + r;
    assert s * n == q * word + r * n by {
      assert (q * m + r) * n == q * m * n + r * n;
      MulAssoc(q, m, n);
    }
    MulLess(r + 1, m, n);
    assert (r + 1) * n == r * n + n;
    DivModUnique(s * n, q, word, r * n);
  }

  /** The sign bit is the next turn, and one shift left resolves it. */
  lemma SizeBitsStep(s: int, w: nat)
    requires 0 <= s < WORD && 1 <= w <= 32
    ensures SizeBits(s, w) / 0x8000_0000 % 2 == Turn(s, w - 1)
    ensures W32(SizeBits(s, w) * 2) == SizeBits(s, w - 1)
  {
    Pow2Values();
    var m, n := Pow2(w - 1), Pow2(32 - w);
    Pow2Add(w - 1, 32 - w);
    assert w - 1 + (32 - w) == 31;
    assert Pow2(w) == 2 * m && Pow2(32 - (w - 1)) == 2 * n;
    PrefixStep(s, w - 1);
    TopBit(s, Prefix(s, w), Turn(s, w - 1), m, n);
  }

  lemma TopBit(s: int, p: int, b: int, m: int, n: int)
    requires s >= 0 && m > 0 && n > 0 && m * n == 0x8000_0000 && (b == 0 || b == 1) && s / m == 2 * p + b
    ensures (s % (2 * m)) * n / 0x8000_0000 % 2 == b
    ensures ((s % (2 * m)) * n * 2) % WORD == (s % m) * (2 * n)
  {
    var r := s % m;
    assert s == (2 * p + b) * m + r;
    assert (2 * p + b) * m == p * (2 * m) + b * m;
    DivModUnique(s, p, 2 * m, b * m + r);
    MulLess(r + 1, m, n);
    assert (r + 1) * n == r * n + n;
    assert (b * m + r) * n == b * (m * n) + r * n by {
      assert (b * m + r) * n == b * m * n + r * n;
      MulAssoc(b, m, n);
    }
    DivModUnique((b * m + r) * n, b, 0x8000_0000, r * n);
    assert (b * m + r) * n * 2 == b * WORD + r * (2 * n) by {
      MulAssoc(r, 2, n);
    }
    assert r * (2 * n) == 2 * (r * n);
    DivModUnique((b * m + r) * n * 2, b, WORD, r * (2 * n));
  }
}
