/** The file allocation table in its sectors, with entries of 12, 16 or 32 bits: wiinandfuse/geckonand/ff.c. */
module FatTable {
  import opened Arith

  /** SS(fs) */
  const SS := 512

  type byte = x: int | 0 <= x < 256

  type Sector = s: seq<byte> | |s| == SS witness seq(SS, _ => 0)

  type Disk = seq<Sector>

  datatype FatType = Fat12 | Fat16 | Fat32

  /** Byte i of the area that starts at sector base. */
  function At(L: Disk, base: nat, i: nat): byte
    requires base + i / SS < |L|
  {
    L[base + i / SS][i % SS]
  }

  /** The disk with byte i of the area at sector base set. */
  function SetAt(L: Disk, base: nat, i: nat, v: byte): (L': Disk)
    requires base + i / SS < |L|
    ensures |L'| == |L|
  {
    L[base + i / SS := L[base + i / SS][i % SS := v]]
  }

  lemma SetAtAt(L: Disk, base: nat, i: nat, v: byte, j: nat)
    requires base + i / SS < |L| && base + j / SS < |L|
    ensures At(SetAt(L, base, i, v), base, j) == if i == j then v else At(L, base, j)
  {
    assert i == i / SS * SS + i % SS && j == j / SS * SS + j % SS;
  }

  /** The index of the first byte of entry c. */
  function Offset(t: FatType, c: nat): nat {
    match t
    case Fat12 => c * 3 / 2
    case Fat16 => c * 2
    case Fat32 => c * 4
  }

  /** The number of bytes that entry c is spread over. */
  function Width(t: FatType): nat {
    match t
    case Fat12 => 2
    case Fat16 => 2
    case Fat32 => 4
  }

  /** The bytes of entry c are on the disk. */
  predicate Fits(t: FatType, L: Disk, base: nat, c: nat) {
    base + (Offset(t, c) + Width(t) - 1) / SS < |L|
  }

  lemma InFits(t: FatType, L: Disk, base: nat, c: nat, k: nat)
    requires Fits(t, L, base, c) && k < Width(t)
    ensures base + (Offset(t, c) + k) / SS < |L|
  {
    var o := Offset(t, c);
    assert (o + k) / SS <= (o + Width(t) - 1) / SS;
  }

  /** LD_WORD and LD_DWORD: little-endian. */
  function Word(L: Disk, base: nat, i: nat): nat
    requires base + i / SS < |L| && base + (i + 1) / SS < |L|
  {
    At(L, base, i) + 0x100 * At(L, base, i + 1)
  }

  /** The part of a two-byte word that a 12-bit entry is. */
  function Part12(odd: bool, b0: byte, b1: byte): nat {
    if odd then (b0 + 0x100 * b1) / 0x10 else (b0 + 0x100 * b1) % 0x1000
  }

  /** The entry of cluster c: what get_cluster returns for a cluster in range. */
  function Entry(t: FatType, L: Disk, base: nat, c: nat): nat
    requires Fits(t, L, base, c)
  {
    var o := Offset(t, c);
    InFits(t, L, base, c, 0);
    InFits(t, L, base, c, 1);
    match t
    case Fat12 => Part12(c % 2 == 1, At(L, base, o), At(L, base, o + 1))
    case Fat16 => Word(L, base, o)
    case Fat32 =>
      InFits(t, L, base, c, 2);
      (Word(L, base, o) + 0x1_0000 * Word(L, base, o + 2)) % 0x1000_0000
  }

  /** The value that an entry of this type keeps of val. */
  function Stored(t: FatType, val: nat): nat {
    match t
    case Fat12 => val % 0x1000
    case Fat16 => val % 0x1_0000
    case Fat32 => val % 0x1000_0000
  }

  /** The first of the two bytes of a 12-bit entry, where the old byte is b. */
  function Low12(odd: bool, b: byte, val: nat): byte {
    if odd then b % 0x10 + (val % 0x100 * 0x10) % 0x100 else val % 0x100
  }

  /** The second of the two bytes of a 12-bit entry. */
  function High12(odd: bool, b: byte, val: nat): byte {
    if odd then val / 0x10 % 0x100 else b / 0x10 * 0x10 + val / 0x100 % 0x100 % 0x10
  }

  function SetWord(L: Disk, base: nat, i: nat, v: nat): (L': Disk)
    requires base + i / SS < |L| && base + (i + 1) / SS < |L|
    ensures |L'| == |L|
  {
    SetAt(SetAt(L, base, i, v % 0x100), base, i + 1, v / 0x100 % 0x100)
  }

  /** The disk after put_cluster(c, val). */
  function PutEntry(t: FatType, L: Disk, base: nat, c: nat, val: nat): (L': Disk)
    requires Fits(t, L, base, c)
    ensures |L'| == |L|
  {
    var o := Offset(t, c);
    InFits(t, L, base, c, 0);
    InFits(t, L, base, c, 1);
    match t
    case Fat12 =>
      var L1 := SetAt(L, base, o, Low12(c % 2 == 1, At(L, base, o), val));
      SetAt(L1, base, o + 1, High12(c % 2 == 1, At(L1, base, o + 1), val))
    case Fat16 => SetWord(L, base, o, val)
    case Fat32 =>
      InFits(t, L, base, c, 2);
      SetWord(SetWord(L, base, o, val), base, o + 2, val / 0x1_0000)
  }

  lemma WordSetWord(L: Disk, base: nat, i: nat, v: nat)
    requires base + i / SS < |L| && base + (i + 1) / SS < |L|
    ensures Word(SetWord(L, base, i, v), base, i) == v % 0x1_0000
  {
    hide SetAt, At;
    var L1 := SetAt(L, base, i, v % 0x100);
    SetAtAt(L, base, i, v % 0x100, i);
    SetAtAt(L1, base, i + 1, v / 0x100 % 0x100, i);
    SetAtAt(L1, base, i + 1, v / 0x100 % 0x100, i + 1);
  }

  lemma WordOther(L: Disk, base: nat, i: nat, v: nat, j: nat)
    requires base + i / SS < |L| && base + (i + 1) / SS < |L| && base + j / SS < |L| && j != i && j != i + 1
    ensures At(SetWord(L, base, i, v), base, j) == At(L, base, j)
  {
    hide SetAt, At;
    var L1 := SetAt(L, base, i, v % 0x100);
    SetAtAt(L, base, i, v % 0x100, j);
    SetAtAt(L1, base, i + 1, v / 0x100 % 0x100, j);
  }

  lemma Nibbles(odd: bool, b0: byte, b1: byte, val: nat)
    ensures var w := Low12(odd, b0, val) + 0x100 * High12(odd, b1, val);
            (if odd then w / 0x10 else w % 0x1000) == val % 0x1000
  {
    var t := val / 0x10;
    var u := t / 0x10;
    var n0, n1, n2, q := val % 0x10, t % 0x10, u % 0x10, u / 0x10;
    assert val == 0x1000 * q + 0x100 * n2 + 0x10 * n1 + n0;
    Digits(q, n2, n1, n0);
    SharedByte(odd, b0, val);
    if odd {
      DivModUnique(b0 % 0x10 + 0x10 * n0 + 0x100 * (0x10 * n2 + n1), 0x100 * n2 + 0x10 * n1 + n0, 0x10, b0 % 0x10);
    } else {
      var w := 0x10 * n1 + n0 + 0x100 * (b1 / 0x10 * 0x10 + n2);
      DivModUnique(w, b1 / 0x10, 0x1000, 0x100 * n2 + 0x10 * n1 + n0);
    }
  }

  lemma Digits(q: nat, n2: nat, n1: nat, n0: nat)
    requires n2 < 0x10 && n1 < 0x10 && n0 < 0x10
    ensures var v := 0x1000 * q + 0x100 * n2 + 0x10 * n1 + n0;
      && v % 0x1000 == 0x100 * n2 + 0x10 * n1 + n0
      && v % 0x100 == 0x10 * n1 + n0 && v % 0x100 * 0x10 % 0x100 == 0x10 * n0
      && v / 0x10 % 0x100 == 0x10 * n2 + n1 && v / 0x100 % 0x100 % 0x10 == n2
  {
    var v := 0x1000 * q + 0x100 * n2 + 0x10 * n1 + n0;
    DivModUnique(v, q, 0x1000, 0x100 * n2 + 0x10 * n1 + n0);
    DivModUnique(v, 0x10 * q + n2, 0x100, 0x10 * n1 + n0);
    DivModUnique(v, 0x100 * q + 0x10 * n2 + n1, 0x10, n0);
    DivModUnique(v / 0x10, q, 0x100, 0x10 * n2 + n1);
    DivModUnique(0x100 * n1 + 0x10 * n0, n1, 0x100, 0x10 * n0);
    var r := q % 0x10;
    DivModUnique(v / 0x100, q / 0x10, 0x100, 0x10 * r + n2);
    DivModUnique(0x10 * r + n2, r, 0x10, n2);
  }

  /** The neighbour that shares a byte with a 12-bit entry keeps its half. */
  lemma SharedByte(odd: bool, b: byte, val: nat)
    ensures odd ==> Low12(odd, b, val) % 0x10 == b % 0x10
    ensures !odd ==> High12(odd, b, val) / 0x10 == b / 0x10
  {
    var v := val % 0x100;
    DivModUnique(0x10 * v, v / 0x10, 0x100, 0x10 * (v % 0x10));
    DivModUnique(b % 0x10 + 0x10 * (v % 0x10), v % 0x10, 0x10, b % 0x10);
    var n := val / 0x100 % 0x100 % 0x10;
    DivModUnique(b / 0x10 * 0x10 + n, b / 0x10, 0x10, n);
  }

  /** A put makes its entry what the entry can hold of the value. */
  lemma PutGet(t: FatType, L: Disk, base: nat, c: nat, val: nat)
    requires Fits(t, L, base, c)
    ensures Entry(t, PutEntry(t, L, base, c, val), base, c) == Stored(t, val)
  {
    hide SetAt, At;
    var o := Offset(t, c);
    InFits(t, L, base, c, 0);
    InFits(t, L, base, c, 1);
    match t
    case Fat12 =>
      var odd := c % 2 == 1;
      var b0 := Low12(odd, At(L, base, o), val);
      var L1 := SetAt(L, base, o, b0);
      var b1 := High12(odd, At(L1, base, o + 1), val);
      SetAtAt(L, base, o, b0, o);
      SetAtAt(L1, base, o + 1, b1, o);
      SetAtAt(L1, base, o + 1, b1, o + 1);
      Nibbles(odd, At(L, base, o), At(L1, base, o + 1), val);
    case Fat16 =>
      WordSetWord(L, base, o, val);
    case Fat32 =>
      InFits(t, L, base, c, 2);
      InFits(t, L, base, c, 3);
      var L1 := SetWord(L, base, o, val);
      WordSetWord(L, base, o, val);
      WordSetWord(L1, base, o + 2, val / 0x1_0000);
      WordOther(L1, base, o + 2, val / 0x1_0000, o);
      WordOther(L1, base, o + 2, val / 0x1_0000, o + 1);
      Halves(val);
  }

  lemma Halves(val: nat)
    ensures (val % 0x1_0000 + 0x1_0000 * (val / 0x1_0000 % 0x1_0000)) % 0x1000_0000 == val % 0x1000_0000
  {
    var u, l := val / 0x1_0000, val % 0x1_0000;
    var w, v := u / 0x1_0000, u % 0x1_0000;
    ModAddMultiple(l + 0x1_0000 * v, 0x10 * w, 0x1000_0000);
  }

  /** Offsets of 12-bit entries: an even entry and the odd one behind it share the middle byte of three. */
  lemma Offsets12(c: nat, d: nat)
    requires c < d
    ensures Offset(Fat12, c) + 1 <= Offset(Fat12, d)
    ensures Offset(Fat12, c) + 1 == Offset(Fat12, d) <==> c % 2 == 0 && d == c + 1
  {
    var k := c / 2;
    assert c == 2 * k + c % 2;
    assert Offset(Fat12, c) == 3 * k + c % 2;
    var l := d / 2;
    assert d == 2 * l + d % 2;
    assert Offset(Fat12, d) == 3 * l + d % 2;
  }

  lemma Part12Odd(b0: byte, b1: byte)
    ensures Part12(true, b0, b1) == b0 / 0x10 + 0x10 * b1
    ensures Part12(false, b0, b1) == b0 + 0x100 * (b1 % 0x10)
  {
  }

  /** A put changes only its own entry, even where two entries share a byte. */
  lemma PutOther(t: FatType, L: Disk, base: nat, c: nat, val: nat, d: nat)
    requires Fits(t, L, base, c) && Fits(t, L, base, d) && c != d
    ensures Entry(t, PutEntry(t, L, base, c, val), base, d) == Entry(t, L, base, d)
  {
    hide SetAt, At;
    var o, p := Offset(t, c), Offset(t, d);
    InFits(t, L, base, c, 0);
    InFits(t, L, base, c, 1);
    InFits(t, L, base, d, 0);
    InFits(t, L, base, d, 1);
    match t
    case Fat12 =>
      PutOther12(L, base, c, val, d);
    case Fat16 =>
      WordOther(L, base, o, val, p);
      WordOther(L, base, o, val, p + 1);
    case Fat32 =>
      InFits(t, L, base, c, 2);
      InFits(t, L, base, c, 3);
      InFits(t, L, base, d, 2);
      InFits(t, L, base, d, 3);
      ByteOther32(L, base, c, val, d, 0);
      ByteOther32(L, base, c, val, d, 1);
      ByteOther32(L, base, c, val, d, 2);
      ByteOther32(L, base, c, val, d, 3);
  }

  lemma ByteOther32(L: Disk, base: nat, c: nat, val: nat, d: nat, k: nat)
    requires Fits(Fat32, L, base, c) && Fits(Fat32, L, base, d) && c != d && k < 4
    ensures base + (4 * d + k) / SS < |L|
    ensures At(PutEntry(Fat32, L, base, c, val), base, 4 * d + k) == At(L, base, 4 * d + k)
  {
    hide SetAt, At;
    InFits(Fat32, L, base, d, k);
    InFits(Fat32, L, base, c, 0);
    InFits(Fat32, L, base, c, 1);
    InFits(Fat32, L, base, c, 2);
    InFits(Fat32, L, base, c, 3);
    WordOther(L, base, 4 * c, val, 4 * d + k);
    WordOther(SetWord(L, base, 4 * c, val), base, 4 * c + 2, val / 0x1_0000, 4 * d + k);
  }

  lemma PutOther12(L: Disk, base: nat, c: nat, val: nat, d: nat)
    requires Fits(Fat12, L, base, c) && Fits(Fat12, L, base, d) && c != d
    ensures Entry(Fat12, PutEntry(Fat12, L, base, c, val), base, d) == Entry(Fat12, L, base, d)
  {
    hide SetAt, At, Low12, High12, Offset;
    var o, p := Offset(Fat12, c), Offset(Fat12, d);
    InFits(Fat12, L, base, c, 0);
    InFits(Fat12, L, base, c, 1);
    InFits(Fat12, L, base, d, 0);
    InFits(Fat12, L, base, d, 1);
    var odd := c % 2 == 1;
    var b0 := Low12(odd, At(L, base, o), val);
    var L1 := SetAt(L, base, o, b0);
    var b1 := High12(odd, At(L1, base, o + 1), val);
    SetAtAt(L, base, o, b0, o + 1);
    SetAtAt(L, base, o, b0, p);
    SetAtAt(L, base, o, b0, p + 1);
    SetAtAt(L1, base, o + 1, b1, p);
    SetAtAt(L1, base, o + 1, b1, p + 1);
    if c < d { Offsets12(c, d); } else { Offsets12(d, c); }
    SharedByte(odd, At(L, base, o), val);
    SharedByte(odd, At(L, base, o + 1), val);
    var L2 := SetAt(L1, base, o + 1, b1);
    SamePart(d % 2 == 1, At(L, base, p), At(L, base, p + 1), At(L2, base, p), At(L2, base, p + 1));
  }

  lemma SamePart(odd: bool, b0: byte, b1: byte, b0': byte, b1': byte)
    requires if odd then b0' / 0x10 == b0 / 0x10 && b1' == b1 else b0' == b0 && b1' % 0x10 == b1 % 0x10
    ensures Part12(odd, b0', b1') == Part12(odd, b0, b1)
  {
    Part12Odd(b0, b1);
    Part12Odd(b0', b1');
  }

  /** A put stays inside the sectors of its entry. */
  lemma PutSectors(t: FatType, L: Disk, base: nat, c: nat, val: nat, s: nat)
    requires Fits(t, L, base, c) && s < |L|
    requires s < base || s > base + (Offset(t, c) + Width(t) - 1) / SS
    ensures PutEntry(t, L, base, c, val)[s] == L[s]
  {
    var o := Offset(t, c);
    InFits(t, L, base, c, 0);
    InFits(t, L, base, c, 1);
    SectorOrder(o, Width(t) - 1, 0);
    SectorOrder(o, Width(t) - 1, 1);
    match t
    case Fat12 =>
    case Fat16 =>
    case Fat32 =>
      SectorOrder(o, 3, 2);
      SectorOrder(o, 3, 3);
  }

  lemma SectorOrder(o: nat, w: nat, k: nat)
    requires k <= w
    ensures (o + k) / SS <= (o + w) / SS
  {
  }

  // ---------- the table as a whole ----------

  /** Every entry below max is on the disk. */
  ghost predicate TableFits(t: FatType, L: Disk, base: nat, max: nat) {
    forall c: nat {:trigger Fits(t, L, base, c)} :: c < max ==> Fits(t, L, base, c)
  }

  /** The entries of the clusters below max. */
  function Table(t: FatType, L: Disk, base: nat, max: nat): (F: seq<nat>)
    requires TableFits(t, L, base, max)
    ensures |F| == max
    ensures forall c :: 0 <= c < max ==> F[c] == Entry(t, L, base, c)
  {
    seq(max, c requires 0 <= c < max => assert Fits(t, L, base, c); Entry(t, L, base, c))
  }

  /** put_cluster on the sectors is an update of the table of entries. */
  lemma PutTable(t: FatType, L: Disk, base: nat, max: nat, c: nat, val: nat)
    requires TableFits(t, L, base, max) && c < max
    ensures Fits(t, L, base, c)
    ensures var L' := PutEntry(t, L, base, c, val);
            TableFits(t, L', base, max) && Table(t, L', base, max) == Table(t, L, base, max)[c := Stored(t, val)]
  {
    assert Fits(t, L, base, c);
    var L' := PutEntry(t, L, base, c, val);
    hide PutEntry, Entry, Stored;
    forall d: nat | d < max
      ensures Fits(t, L', base, d)
    {
      assert Fits(t, L, base, d);
    }
    forall d: nat | d < max
      ensures Table(t, L', base, max)[d] == Table(t, L, base, max)[c := Stored(t, val)][d]
    {
      assert Fits(t, L, base, d);
      if d == c { PutGet(t, L, base, c, val); } else { PutOther(t, L, base, c, val, d); }
    }
  }

  /** The table depends on the sectors of the table only. */
  lemma TableSame(t: FatType, L: Disk, L': Disk, base: nat, size: nat, max: nat)
    requires TableFits(t, L, base, max) && |L'| == |L| && base + size <= |L|
    requires forall c: nat {:trigger Offset(t, c)} :: c < max ==> Offset(t, c) + Width(t) <= size * SS
    requires forall s :: base <= s < base + size ==> L'[s] == L[s]
    ensures TableFits(t, L', base, max) && Table(t, L', base, max) == Table(t, L, base, max)
  {
    forall d: nat | d < max
      ensures Fits(t, L', base, d) && Entry(t, L', base, d) == Entry(t, L, base, d)
    {
      assert Fits(t, L, base, d);
      EntrySame(t, L, L', base, size, d);
    }
  }

  lemma EntrySame(t: FatType, L: Disk, L': Disk, base: nat, size: nat, d: nat)
    requires Fits(t, L, base, d) && |L'| == |L| && base + size <= |L| && Offset(t, d) + Width(t) <= size * SS
    requires forall s :: base <= s < base + size ==> L'[s] == L[s]
    ensures Fits(t, L', base, d) && Entry(t, L', base, d) == Entry(t, L, base, d)
  {
    InFits(t, L, base, d, 0);
    InFits(t, L, base, d, 1);
    InArea(Offset(t, d), size);
    InArea(Offset(t, d) + 1, size);
    if t == Fat32 {
      InFits(t, L, base, d, 2);
      InFits(t, L, base, d, 3);
      InArea(Offset(t, d) + 2, size);
      InArea(Offset(t, d) + 3, size);
    }
  }

  lemma InArea(i: nat, size: nat)
    requires i < size * SS
    ensures i / SS < size
  {
  }
}
