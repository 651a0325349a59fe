/** A mounted FAT volume behind its one-sector window: wiinandfuse/geckonand/ff.c. */
module FatVolume {
  import opened Arith
  import opened FatTable

  /** free_clust when the number of free clusters is not known. */
  const UNKNOWN := 0xFFFF_FFFF

  /** The value that marks the last cluster of a chain. */
  const EOC := 0x0FFF_FFFF

  /** No cluster number of a volume of this type reaches the end marks (the bounds that auto_mount determines the type
      by). */
  function TypeLimit(t: FatType): nat {
    match t
    case Fat12 => 0xFF6
    case Fat16 => 0xFFF6
    case Fat32 => EOC
  }

  /** What auto_mount finds out about a volume. */
  datatype Layout = Layout(fs_type: FatType, csize: nat, n_fats: nat, sects_fat: nat, max_clust: nat,
                           fatbase: nat, dirbase: nat, database: nat, fsi_sector: nat)

  /** The areas of a volume of that many sectors: the table copies, then the data. */
  ghost predicate Sane(g: Layout, sectors: nat) {
    && 1 <= g.csize <= 128 && g.n_fats >= 1 && g.fatbase >= 1 && g.fatbase + g.n_fats * g.sects_fat <= g.database
    && 2 <= g.max_clust <= TypeLimit(g.fs_type) && g.database + (g.max_clust - 2) * g.csize <= sectors
    && Roomy(g.fs_type, g.sects_fat, g.max_clust) && g.fsi_sector < g.fatbase
  }

  /** One copy of the table has room for every entry. */
  ghost predicate Roomy(t: FatType, size: nat, max: nat) {
    forall c: nat {:trigger Offset(t, c)} :: c < max ==> Offset(t, c) + Width(t) <= size * SS
  }

  /** The sectors of the second and further copies of the table. */
  predicate InCopies(g: Layout, s: int) {
    g.fatbase + g.sects_fat <= s < g.fatbase + g.n_fats * g.sects_fat
  }

  predicate InFat(g: Layout, s: int) {
    g.fatbase <= s < g.fatbase + g.sects_fat
  }

  /** The same sectors, but for the further copies of the table. */
  ghost predicate Kept(g: Layout, L: Disk, L': Disk) {
    |L'| == |L| && forall s :: 0 <= s < |L| && !InCopies(g, s) ==> L'[s] == L[s]
  }

  /** The same sectors outside all copies of the table. */
  ghost predicate DataKept(g: Layout, L: Disk, L': Disk) {
    |L'| == |L| && forall s :: 0 <= s < |L| && !InFat(g, s) && !InCopies(g, s) ==> L'[s] == L[s]
  }

  lemma KeptTwice(g: Layout, L: Disk, M: Disk, N: Disk)
    requires Kept(g, L, M) && Kept(g, M, N)
    ensures Kept(g, L, N)
  {
  }

  lemma KeptSet(g: Layout, L: Disk, L': Disk, i: nat, v: byte)
    requires Kept(g, L, L') && g.fatbase + i / SS < |L| && InFat(g, g.fatbase + i / SS)
    ensures Kept(g, SetAt(L, g.fatbase, i, v), SetAt(L', g.fatbase, i, v))
    ensures At(L', g.fatbase, i) == At(L, g.fatbase, i)
  {
    var s := g.fatbase + i / SS;
    assert !InCopies(g, s);
  }

  /** Copy k of sector s of the table is the same as the first, unless s is the sector except. */
  ghost predicate CopyOK(g: Layout, disk: Disk, s: nat, k: nat, except: int) {
    s < |disk| && s + k * g.sects_fat < |disk| && (s != except ==> disk[s + k * g.sects_fat] == disk[s])
  }

  ghost predicate CopiesOK(g: Layout, disk: Disk, except: int) {
    forall s: nat, k: nat {:trigger CopyOK(g, disk, s, k, except)} :: InFat(g, s) && k < g.n_fats ==>
        CopyOK(g, disk, s, k, except)
  }

  lemma Multiples(n: nat, k: nat, m: nat)
    requires k < n
    ensures 0 <= k * m && k * m + m <= n * m && (k > 0 ==> k * m >= m)
  {
    MulLess(k, n - 1, m);
    assert (n - 1) * m + m == n * m;
    if k > 0 { MulLess(1, k, m); }
  }

  /** The positions of a table sector's copies. */
  lemma CopyPlace(g: Layout, sectors: nat, s: nat, k: nat)
    requires Sane(g, sectors) && InFat(g, s) && k < g.n_fats
    ensures s + k * g.sects_fat < g.fatbase + g.n_fats * g.sects_fat <= sectors
    ensures k > 0 ==> InCopies(g, s + k * g.sects_fat)
  {
    Multiples(g.n_fats, k, g.sects_fat);
    DataRoom(g, sectors);
  }

  lemma DataRoom(g: Layout, sectors: nat)
    requires Sane(g, sectors)
    ensures g.fatbase + g.sects_fat <= g.fatbase + g.n_fats * g.sects_fat <= g.database <= sectors
    ensures g.database + (g.max_clust - 2) * g.csize <= sectors && 1 <= g.csize <= 128 && g.max_clust >= 2
  {
    Multiples(g.n_fats, 0, g.sects_fat);
    MulLess(0, g.max_clust - 2, g.csize);
  }

  lemma CopyDistinct(g: Layout, s: nat, t: nat, j: nat, k: nat)
    requires InFat(g, s) && InFat(g, t) && s + j * g.sects_fat == t + k * g.sects_fat
    ensures s == t && j == k
  {
    var a, b := s - g.fatbase, t - g.fatbase;
    assert a + j * g.sects_fat == b + k * g.sects_fat;
    DivModUnique(a + j * g.sects_fat, j, g.sects_fat, a);
    DivModUnique(b + k * g.sects_fat, k, g.sects_fat, b);
  }

  /** The disk after c has been written to sector w and to the n sectors that follow it at that distance. */
  function Copies(D: Disk, w: nat, step: nat, c: Sector, n: nat): (D': Disk)
    requires w + n * step < |D|
    ensures |D'| == |D|
  {
    if n == 0 then D[w := c]
    else
      MulLess(n - 1, n, step);
      Copies(D, w, step, c, n - 1)[w + n * step := c]
  }

  lemma FirstCopy(D: Disk, w: nat, step: nat, c: Sector)
    requires w < |D|
    ensures Copies(D, w, step, c, 0) == D[w := c]
  {
  }

  lemma CopyRoom(g: Layout, sectors: nat, w: nat)
    requires Sane(g, sectors) && InFat(g, w)
    ensures g.n_fats >= 1 && w + (g.n_fats - 1) * g.sects_fat < sectors
  {
    CopyPlace(g, sectors, w, g.n_fats - 1);
  }

  lemma NextCopy(g: Layout, sectors: nat, D: Disk, w: nat, c: Sector, nf: nat)
    requires Sane(g, sectors) && |D| == sectors && InFat(g, w) && 2 <= nf <= g.n_fats
    ensures var d := (g.n_fats - nf) * g.sects_fat;
      && (g.n_fats - (nf - 1)) * g.sects_fat == d + g.sects_fat && w + d + g.sects_fat < |D|
      && Copies(D, w, g.sects_fat, c, g.n_fats - (nf - 1))
          == Copies(D, w, g.sects_fat, c, g.n_fats - nf)[w + d + g.sects_fat := c]
  {
    CopyPlace(g, sectors, w, g.n_fats - (nf - 1));
  }

  lemma {:induction false} CopiesHit(D: Disk, w: nat, step: nat, c: Sector, n: nat, k: nat)
    requires w + n * step < |D| && k <= n
    ensures w + k * step < |D| && Copies(D, w, step, c, n)[w + k * step] == c
    decreases n
  {
    MulLess(k, n, step);
    if k < n {
      MulLess(n - 1, n, step);
      CopiesHit(D, w, step, c, n - 1, k);
    }
  }

  lemma {:induction false} CopiesMiss(D: Disk, w: nat, step: nat, c: Sector, n: nat, t: nat)
    requires w + n * step < |D| && t < |D| && forall k: nat {:trigger k * step} :: k <= n ==> t != w + k * step
    ensures Copies(D, w, step, c, n)[t] == D[t]
    decreases n
  {
    MulLess(0, n, step);
    assert t != w + 0 * step;
    if n > 0 {
      MulLess(n - 1, n, step);
      CopiesMiss(D, w, step, c, n - 1, t);
    }
  }

  /** Writing back a table sector leaves all copies of it equal, and the other sectors alone. */
  lemma TableWritten(g: Layout, D: Disk, w: nat, c: Sector, D': Disk)
    requires Sane(g, |D|) && InFat(g, w)
    requires w + (g.n_fats - 1) * g.sects_fat < |D| && D' == Copies(D, w, g.sects_fat, c, g.n_fats - 1)
    ensures Kept(g, D[w := c], D')
    ensures forall k: nat {:trigger CopyOK(g, D', w, k, -1)} :: k < g.n_fats ==> CopyOK(g, D', w, k, -1)
    ensures CopiesOK(g, D, w) ==> CopiesOK(g, D', -1)
  {
    MulLess(0, g.n_fats - 1, g.sects_fat);
    hide Copies, Sane, InFat, CopyOK;
    CopyWritten(g, D, w, c, D');
    forall s | 0 <= s < |D| && !InCopies(g, s)
      ensures D'[s] == D[w := c][s]
    {
      OthersWritten(g, D, w, c, D', s);
    }
    if CopiesOK(g, D, w) {
      forall s: nat, k: nat {:trigger CopyOK(g, D', s, k, -1)} | InFat(g, s) && k < g.n_fats
        ensures CopyOK(g, D', s, k, -1)
      {
        if s != w {
          assert CopyOK(g, D, s, k, w);
          CopyStays(g, D, w, c, D', s, k);
        }
      }
    }
  }

  lemma OthersWritten(g: Layout, D: Disk, w: nat, c: Sector, D': Disk, s: nat)
    requires Sane(g, |D|) && InFat(g, w) && s < |D| && !InCopies(g, s)
    requires w + (g.n_fats - 1) * g.sects_fat < |D| && D' == Copies(D, w, g.sects_fat, c, g.n_fats - 1)
    ensures w < |D| && D'[s] == D[w := c][s]
  {
    hide Copies, InFat, InCopies;
    CopiesHit(D, w, g.sects_fat, c, g.n_fats - 1, 0);
    if s != w {
      OutsideCopies(g, |D|, w, s);
      CopiesMiss(D, w, g.sects_fat, c, g.n_fats - 1, s);
    }
  }

  lemma CopyStays(g: Layout, D: Disk, w: nat, c: Sector, D': Disk, s: nat, k: nat)
    requires Sane(g, |D|) && InFat(g, w) && InFat(g, s) && s != w && k < g.n_fats && CopyOK(g, D, s, k, w)
    requires w + (g.n_fats - 1) * g.sects_fat < |D| && D' == Copies(D, w, g.sects_fat, c, g.n_fats - 1)
    ensures CopyOK(g, D', s, k, -1)
  {
    hide Copies, InFat, InCopies;
    CopyKept(g, D, w, c, D', s, k);
    CopyKept(g, D, w, c, D', s, 0);
  }

  lemma CopyWritten(g: Layout, D: Disk, w: nat, c: Sector, D': Disk)
    requires Sane(g, |D|) && InFat(g, w)
    requires w + (g.n_fats - 1) * g.sects_fat < |D| && D' == Copies(D, w, g.sects_fat, c, g.n_fats - 1)
    ensures forall k: nat {:trigger CopyOK(g, D', w, k, -1)} :: k < g.n_fats ==> CopyOK(g, D', w, k, -1)
  {
    forall k: nat {:trigger CopyOK(g, D', w, k, -1)} | k < g.n_fats
      ensures CopyOK(g, D', w, k, -1)
    {
      CopiesHit(D, w, g.sects_fat, c, g.n_fats - 1, 0);
      CopiesHit(D, w, g.sects_fat, c, g.n_fats - 1, k);
    }
  }

  lemma OutsideCopies(g: Layout, sectors: nat, w: nat, s: nat)
    requires Sane(g, sectors) && InFat(g, w) && !InCopies(g, s) && s != w
    ensures forall k: nat {:trigger k * g.sects_fat} :: k <= g.n_fats - 1 ==> s != w + k * g.sects_fat
  {
    forall k: nat {:trigger k * g.sects_fat} | k <= g.n_fats - 1
      ensures s != w + k * g.sects_fat
    {
      CopyPlace(g, sectors, w, k);
    }
  }

  lemma CopyKept(g: Layout, D: Disk, w: nat, c: Sector, D': Disk, s: nat, k: nat)
    requires Sane(g, |D|) && InFat(g, w) && InFat(g, s) && s != w && k < g.n_fats
    requires w + (g.n_fats - 1) * g.sects_fat < |D| && D' == Copies(D, w, g.sects_fat, c, g.n_fats - 1)
    ensures s + k * g.sects_fat < |D| && D'[s + k * g.sects_fat] == D[s + k * g.sects_fat]
  {
    CopyPlace(g, |D|, s, k);
    var t := s + k * g.sects_fat;
    forall j: nat {:trigger j * g.sects_fat} | j <= g.n_fats - 1
      ensures t != w + j * g.sects_fat
    {
      if t == w + j * g.sects_fat {
        CopyDistinct(g, s, w, k, j);
      }
    }
    CopiesMiss(D, w, g.sects_fat, c, g.n_fats - 1, t);
  }

  /** A write outside the table leaves the copies as they were. */
  lemma OtherWritten(g: Layout, D: Disk, w: nat, c: Sector)
    requires Sane(g, |D|) && w < |D| && !InFat(g, w) && !InCopies(g, w)
    ensures CopiesOK(g, D, w) ==> CopiesOK(g, D[w := c], -1)
  {
    var D' := D[w := c];
    if CopiesOK(g, D, w) {
      forall s: nat, k: nat {:trigger CopyOK(g, D', s, k, -1)} | InFat(g, s) && k < g.n_fats
        ensures CopyOK(g, D', s, k, -1)
      {
        assert CopyOK(g, D, s, k, w);
        CopyPlace(g, |D|, s, k);
      }
    }
  }

  lemma SectorInFat(g: Layout, sectors: nat, c: nat, k: nat)
    requires Sane(g, sectors) && c < g.max_clust && k < Width(g.fs_type)
    ensures var s := g.fatbase + (Offset(g.fs_type, c) + k) / SS; InFat(g, s) && s < sectors && s > 0 && !InCopies(g, s)
  {
    DataRoom(g, sectors);
    hide Width, TypeLimit;
    assert Offset(g.fs_type, c) + Width(g.fs_type) <= g.sects_fat * SS;
    InArea(Offset(g.fs_type, c) + k, g.sects_fat);
  }

  lemma FatFits(g: Layout, L: Disk)
    requires Sane(g, |L|)
    ensures TableFits(g.fs_type, L, g.fatbase, g.max_clust)
  {
    forall c: nat | c < g.max_clust
      ensures Fits(g.fs_type, L, g.fatbase, c)
    {
      SectorInFat(g, |L|, c, Width(g.fs_type) - 1);
    }
  }

  /** The entries of the table on the disk L. */
  function FatOf(g: Layout, L: Disk): (F: seq<nat>)
    requires Sane(g, |L|)
    ensures |F| == g.max_clust
  {
    FatFits(g, L);
    Table(g.fs_type, L, g.fatbase, g.max_clust)
  }

  lemma FatKept(g: Layout, L: Disk, L': Disk)
    requires Sane(g, |L|) && Kept(g, L, L')
    ensures FatOf(g, L') == FatOf(g, L)
  {
    FatFits(g, L);
    DataRoom(g, |L|);
    TableSame(g.fs_type, L, L', g.fatbase, g.sects_fat, g.max_clust);
  }

  /** Once the sectors are those of a put, so is the table. */
  lemma FatPut(g: Layout, L: Disk, c: nat, val: nat, L': Disk)
    requires Sane(g, |L|) && c < g.max_clust && Fits(g.fs_type, L, g.fatbase, c)
      && Kept(g, PutEntry(g.fs_type, L, g.fatbase, c, val), L')
    ensures FatOf(g, L') == FatOf(g, L)[c := Stored(g.fs_type, val)]
    ensures DataKept(g, L, L')
  {
    var M := PutEntry(g.fs_type, L, g.fatbase, c, val);
    FatFits(g, L);
    PutTable(g.fs_type, L, g.fatbase, g.max_clust, c, val);
    FatKept(g, M, L');
    forall s | 0 <= s < |L| && !InFat(g, s) && !InCopies(g, s)
      ensures L'[s] == L[s]
    {
      SectorInFat(g, |L|, c, Width(g.fs_type) - 1);
      PutSectors(g.fs_type, L, g.fatbase, c, val, s);
    }
  }

  /** Byte i of the table is byte j of sector s. */
  predicate Placed(base: nat, i: nat, s: nat, j: nat) {
    base + i / SS == s && i % SS == j && j < SS
  }

  /** Where the code looks for byte k of entry c of a 16-bit table. */
  lemma Place16(base: nat, c: nat, k: nat)
    requires k < 2
    ensures Placed(base, Offset(Fat16, c) + k, base + c / (SS / 2), c % 0x1_0000 * 2 % SS + k)
  {
    var w, h := c / 0x1_0000, c % 0x1_0000;
    var u, r := h / 256, h % 256;
    var q := 256 * w + u;
    assert c == q * 256 + r;
    DivModUnique(c, q, 256, r);
    DivModUnique(c * 2 + k, q, SS, r * 2 + k);
    DivModUnique(h * 2, u, SS, r * 2);
  }

  /** Where the code looks for byte k of entry c of a 32-bit table. */
  lemma Place32(base: nat, c: nat, k: nat)
    requires k < 4
    ensures Placed(base, Offset(Fat32, c) + k, base + c / (SS / 4), c % 0x1_0000 * 4 % SS + k)
  {
    var w, h := c / 0x1_0000, c % 0x1_0000;
    var u, r := h / 128, h % 128;
    var q := 512 * w + u;
    assert c == q * 128 + r;
    DivModUnique(c, q, 128, r);
    DivModUnique(c * 4 + k, q, SS, r * 4 + k);
    DivModUnique(h * 4, u, SS, r * 4);
  }

  lemma ReservedRoom(g: Layout, sectors: nat)
    requires Sane(g, sectors)
    ensures sectors > 0 && !InCopies(g, 0)
  {
    DataRoom(g, sectors);
  }

  lemma KeptAt(g: Layout, L: Disk, L': Disk, i: nat)
    requires Kept(g, L, L') && g.fatbase + i / SS < |L| && !InCopies(g, g.fatbase + i / SS)
    ensures At(L', g.fatbase, i) == At(L, g.fatbase, i)
  {
  }

  lemma FatEntry(g: Layout, L: Disk, c: nat)
    requires Sane(g, |L|) && c < g.max_clust
    ensures Fits(g.fs_type, L, g.fatbase, c) && FatOf(g, L)[c] == Entry(g.fs_type, L, g.fatbase, c)
  {
    FatFits(g, L);
    assert Fits(g.fs_type, L, g.fatbase, c);
  }

  /** Where the code looks for the two bytes of a 12-bit entry. */
  lemma Entry12Places(g: Layout, L: Disk, c: nat)
    requires Sane(g, |L|) && g.fs_type == Fat12 && c < g.max_clust
    ensures c % 0x1_0000 * 3 / 2 == Offset(Fat12, c) && Fits(Fat12, L, g.fatbase, c)
    ensures var s := g.fatbase + Offset(Fat12, c) / SS; 0 < s < |L| && InFat(g, s) && !InCopies(g, s)
    ensures var s := g.fatbase + (Offset(Fat12, c) + 1) / SS; 0 < s < |L| && InFat(g, s) && !InCopies(g, s)
  {
    assert c < 0x1_0000;
    SmallMod(c, 0x1_0000);
    hide Sane;
    SectorInFat(g, |L|, c, 0);
    SectorInFat(g, |L|, c, 1);
    FatEntry(g, L, c);
  }

  /** The two halves of a 12-bit entry, one read after the other. */
  lemma Read12(g: Layout, L: Disk, M: Disk, c: nat, b0: byte, b1: byte)
    requires Sane(g, |L|) && g.fs_type == Fat12 && c < g.max_clust && Kept(g, L, M)
    requires var o := Offset(Fat12, c);
      && g.fatbase + o / SS < |L| && g.fatbase + (o + 1) / SS < |L|
      && b0 == At(L, g.fatbase, o) && b1 == At(M, g.fatbase, o + 1)
    ensures FatOf(g, L)[c] == if c % 2 == 1 then (b0 + 0x100 * b1) / 0x10 else (b0 + 0x100 * b1) % 0x1000
  {
    FatEntry(g, L, c);
    SectorInFat(g, |L|, c, 1);
    KeptAt(g, L, M, Offset(Fat12, c) + 1);
  }

  /** The sector that holds a 16-bit or 32-bit entry, and the place in it, as the code computes them. */
  function WideSector(g: Layout, c: nat): nat
    requires g.fs_type != Fat12
  {
    if g.fs_type == Fat16 then g.fatbase + c / (SS / 2) else g.fatbase + c / (SS / 4)
  }

  function WideIndex(g: Layout, c: nat): nat
    requires g.fs_type != Fat12
  {
    if g.fs_type == Fat16 then c % 0x1_0000 * 2 % SS else c % 0x1_0000 * 4 % SS
  }

  lemma WidePlace(g: Layout, sectors: nat, c: nat, k: nat)
    requires Sane(g, sectors) && c < g.max_clust && g.fs_type != Fat12 && k < Width(g.fs_type)
    ensures Placed(g.fatbase, Offset(g.fs_type, c) + k, WideSector(g, c), WideIndex(g, c) + k)
    ensures var s := WideSector(g, c); 0 < s < sectors && InFat(g, s) && !InCopies(g, s)
  {
    if g.fs_type == Fat16 { Place16(g.fatbase, c, k); } else { Place32(g.fatbase, c, k); }
    SectorInFat(g, sectors, c, k);
  }

  /** LD_DWORD */
  function LoadDouble(c: Sector, j: nat): nat
    requires j + 4 <= SS
  {
    var b0: int, b1: int, b2: int, b3: int := c[j], c[j + 1], c[j + 2], c[j + 3];
    b0 + 0x100 * b1 + 0x1_0000 * b2 + 0x100_0000 * b3
  }

  /** LD_WORD */
  function LoadWord(c: Sector, j: nat): nat
    requires j + 2 <= SS
  {
    var b0: int, b1: int := c[j], c[j + 1];
    b0 + 0x100 * b1
  }

  /** A 16-bit entry as two bytes of its sector. */
  lemma Read16(g: Layout, L: Disk, c: nat)
    requires Sane(g, |L|) && c < g.max_clust && g.fs_type == Fat16
    ensures var s, j := WideSector(g, c), WideIndex(g, c);
      && 0 < s < |L| && InFat(g, s) && !InCopies(g, s) && j + 2 <= SS
      && FatOf(g, L)[c] == LoadWord(L[s], j)
  {
    hide Sane, WideSector, WideIndex, Offset;
    WidePlace(g, |L|, c, 0);
    WidePlace(g, |L|, c, 1);
    FatEntry(g, L, c);
  }

  /** A 32-bit entry as four bytes of its sector. */
  lemma Read32(g: Layout, L: Disk, c: nat)
    requires Sane(g, |L|) && c < g.max_clust && g.fs_type == Fat32
    ensures var s, j := WideSector(g, c), WideIndex(g, c);
      && 0 < s < |L| && InFat(g, s) && !InCopies(g, s) && j + 4 <= SS
      && FatOf(g, L)[c] == (LoadWord(L[s], j) + 0x1_0000 * LoadWord(L[s], j + 2)) % 0x1000_0000
  {
    hide Sane, WideSector, WideIndex, Offset;
    WidePlace(g, |L|, c, 0);
    WidePlace(g, |L|, c, 1);
    WidePlace(g, |L|, c, 2);
    WidePlace(g, |L|, c, 3);
    FatEntry(g, L, c);
  }

  /** The bytes of the sector with v stored at j, little-endian. */
  function Poked(c: Sector, j: nat, n: nat, v: nat): (c': Sector)
    requires j + n <= SS && (n == 2 || n == 4)
  {
    if n == 2 then c[j := v % 0x100][j + 1 := v / 0x100 % 0x100]
    else c[j := v % 0x100][j + 1 := v / 0x100 % 0x100][j + 2 := v / 0x1_0000 % 0x100][j + 3 := v / 0x100_0000 % 0x100]
  }

  /** A wide entry stored in its sector is the put of the entry. */
  lemma Write16(g: Layout, L: Disk, c: nat, val: nat)
    requires Sane(g, |L|) && c < g.max_clust && g.fs_type == Fat16
    ensures var s, j := WideSector(g, c), WideIndex(g, c);
      && s < |L| && j + 2 <= SS && Fits(Fat16, L, g.fatbase, c)
      && PutEntry(Fat16, L, g.fatbase, c, val) == L[s := Poked(L[s], j, 2, val)]
  {
    hide Sane, WideSector, WideIndex, Offset;
    WidePlace(g, |L|, c, 0);
    WidePlace(g, |L|, c, 1);
    FatEntry(g, L, c);
  }

  lemma Write32(g: Layout, L: Disk, c: nat, val: nat)
    requires Sane(g, |L|) && c < g.max_clust && g.fs_type == Fat32
    ensures var s, j := WideSector(g, c), WideIndex(g, c);
      && s < |L| && j + 4 <= SS && Fits(Fat32, L, g.fatbase, c)
      && PutEntry(Fat32, L, g.fatbase, c, val) == L[s := Poked(L[s], j, 4, val)]
  {
    hide Sane, WideSector, WideIndex, Offset;
    WidePlace(g, |L|, c, 0);
    WidePlace(g, |L|, c, 1);
    WidePlace(g, |L|, c, 2);
    WidePlace(g, |L|, c, 3);
    FatEntry(g, L, c);
    ThirdByte(val);
  }

  lemma ThirdByte(val: nat)
    ensures val / 0x1_0000 / 0x100 % 0x100 == val / 0x100_0000 % 0x100
  {
    var q, r := val / 0x100_0000, val % 0x100_0000;
    DivModUnique(val, q * 0x100 + r / 0x1_0000, 0x1_0000, r % 0x1_0000);
    DivModUnique(val / 0x1_0000, q, 0x100, r / 0x1_0000);
  }

  lemma CopiesExcept(g: Layout, disk: Disk, except: int)
    requires CopiesOK(g, disk, -1)
    ensures CopiesOK(g, disk, except)
  {
    forall s: nat, k: nat {:trigger CopyOK(g, disk, s, k, except)} | InFat(g, s) && k < g.n_fats
      ensures CopyOK(g, disk, s, k, except)
    {
      assert CopyOK(g, disk, s, k, -1);
    }
  }

  /** The two byte writes of a 12-bit put, with window moves before each. */
  lemma Write12(g: Layout, L: Disk, c: nat, val: nat, M1: Disk, M2: Disk, M3: Disk, M4: Disk)
    requires Sane(g, |L|) && g.fs_type == Fat12 && c < g.max_clust && Kept(g, L, M1) && Kept(g, M2, M3)
    requires var o := Offset(Fat12, c);
      && g.fatbase + o / SS < |L| && g.fatbase + (o + 1) / SS < |L|
      && M2 == SetAt(M1, g.fatbase, o, Low12(c % 2 == 1, At(M1, g.fatbase, o), val))
      && M4 == SetAt(M3, g.fatbase, o + 1, High12(c % 2 == 1, At(M3, g.fatbase, o + 1), val))
    ensures FatOf(g, M4) == FatOf(g, L)[c := Stored(Fat12, val)] && DataKept(g, L, M4)
  {
    hide SetAt, At, Low12, High12, Sane, InFat, InCopies, Offset, Kept, DataKept, FatOf;
    var o := Offset(Fat12, c);
    Entry12Places(g, L, c);
    var low := Low12(c % 2 == 1, At(L, g.fatbase, o), val);
    var L1 := SetAt(L, g.fatbase, o, low);
    KeptSet(g, L, M1, o, low);
    KeptTwice(g, L1, M2, M3);
    var high := High12(c % 2 == 1, At(L1, g.fatbase, o + 1), val);
    KeptSet(g, L1, M3, o + 1, high);
    FatPut(g, L, c, val, M4);
  }

  /** A put through the window of a wide entry. */
  lemma WriteWide(g: Layout, L: Disk, c: nat, val: nat, M: Disk, M': Disk)
    requires Sane(g, |L|) && g.fs_type != Fat12 && c < g.max_clust && Kept(g, L, M)
    requires var s, j, n := WideSector(g, c), WideIndex(g, c), Width(g.fs_type);
      s < |L| && j + n <= SS && M' == M[s := Poked(M[s], j, n, val)]
    ensures FatOf(g, M') == FatOf(g, L)[c := Stored(g.fs_type, val)] && DataKept(g, L, M')
  {
    if g.fs_type == Fat16 { Write16(g, L, c, val); } else { Write32(g, L, c, val); }
    WidePlace(g, |L|, c, 0);
    hide PutEntry, Sane, WideSector, WideIndex, Offset, FatOf, DataKept, Poked;
    FatPut(g, L, c, val, M');
  }

  /** What the table keeps of the end mark is no cluster number. */
  lemma EndMark(g: Layout, sectors: nat, c: nat)
    requires Sane(g, sectors)
    ensures Stored(g.fs_type, EOC) >= g.max_clust && Stored(g.fs_type, 0) == 0
    ensures c < g.max_clust ==> Stored(g.fs_type, c) == c
    ensures g.max_clust <= EOC
  {
  }

  /** A write beside the table leaves the table alone. */
  lemma FatBeside(g: Layout, L: Disk, s: nat, c: Sector)
    requires Sane(g, |L|) && s < |L| && !InFat(g, s)
    ensures FatOf(g, L[s := c]) == FatOf(g, L)
  {
    FatFits(g, L);
    DataRoom(g, |L|);
    TableSame(g.fs_type, L, L[s := c], g.fatbase, g.sects_fat, g.max_clust);
  }

  lemma CopiesBeside(g: Layout, disk: Disk, s: nat, c: Sector, except: int)
    requires Sane(g, |disk|) && s < |disk| && !InFat(g, s) && !InCopies(g, s)
    ensures CopiesOK(g, disk, except) ==> CopiesOK(g, disk[s := c], except)
  {
    var D' := disk[s := c];
    if CopiesOK(g, disk, except) {
      forall t: nat, k: nat {:trigger CopyOK(g, D', t, k, except)} | InFat(g, t) && k < g.n_fats
        ensures CopyOK(g, D', t, k, except)
      {
        assert CopyOK(g, disk, t, k, except);
        CopyPlace(g, |disk|, t, k);
      }
    }
  }

  lemma InfoBeside(g: Layout, sectors: nat)
    requires Sane(g, sectors)
    ensures g.fsi_sector < sectors && !InFat(g, g.fsi_sector) && !InCopies(g, g.fsi_sector) && !InCopies(g, 0)
  {
    DataRoom(g, sectors);
  }

  /** The bytes of the sector with a word stored at j, little-endian. */
  function Poked2(c: Sector, j: nat, v: nat): (c': Sector)
    requires j + 2 <= SS
  {
    Poked(c, j, 2, v)
  }

  lemma LoadPoked(c: Sector, j: nat, v: nat, i: nat)
    requires j + 2 <= SS && i + 2 <= SS && (i == j || i + 2 <= j || j + 2 <= i)
    ensures LoadWord(Poked2(c, j, v), i) == if i == j then v % 0x1_0000 else LoadWord(c, i)
  {
    WordDigits(v);
  }

  lemma WordDigits(v: nat)
    ensures v % 0x100 + 0x100 * (v / 0x100 % 0x100) == v % 0x1_0000
  {
    var q, r := v / 0x1_0000, v % 0x1_0000;
    var h, l := r / 0x100, r % 0x100;
    DivModUnique(v, 0x100 * q + h, 0x100, l);
    DivModUnique(0x100 * q + h, q, 0x100, h);
  }
}
