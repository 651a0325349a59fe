/** Open files on a FAT volume: f_write, f_read, f_sync and f_truncate in wiinandfuse/geckonand/ff.c. */
module FatFile {
  import opened Arith
  import opened FatTable
  import opened FatChains
  import opened FatVolume
  import opened FatData
  import opened FatFs

  datatype FResult = FR_OK | FR_INT_ERR | FR_DENIED

  /** The first of the sectors and tables of a volume where a directory entry can be. */
  ghost predicate DirPlace(g: Layout, sectors: nat, dir_sect: nat, dir_ptr: nat) {
    && g.fatbase + g.n_fats * g.sects_fat <= dir_sect < sectors && !InFat(g, dir_sect) && !InCopies(g, dir_sect)
    && dir_ptr + 32 <= SS && dir_sect != g.fsi_sector
  }

  /** The directory entry is not in a cluster that the file may write to. */
  ghost predicate DirApart(g: Layout, F: seq<nat>, chain: seq<nat>, dir_sect: nat) {
    !OwnSector(g, F, chain, dir_sect)
  }

  /** n sectors of the chain have been begun, the last csect of them in its last cluster. */
  ghost predicate Cursor(g: Layout, F: seq<nat>, chain: seq<nat>, org: nat, curr: nat, csect: nat, n: nat) {
    if chain == [] then n == 0 && csect >= g.csize && org == 0
    else
      && IsChain(F, chain) && chain[0] == org && chain[|chain| - 1] == curr && csect <= g.csize
      && n == (|chain| - 1) * g.csize + csect
  }

  /** The next sector, when the last cluster has room for it. */
  lemma CursorNext(g: Layout, F: seq<nat>, chain: seq<nat>, org: nat, curr: nat, csect: nat, n: nat, k: nat)
    requires Cursor(g, F, chain, org, curr, csect, n) && g.csize >= 1 && csect + k < g.csize
    ensures chain != [] && (n + k) / g.csize == |chain| - 1
      && FileSector(g, chain, n + k) == SectorOf(g, curr, csect + k)
  {
    DivModUnique(n + k, |chain| - 1, g.csize, csect + k);
  }

  lemma CursorFull(g: Layout, F: seq<nat>, chain: seq<nat>, org: nat, curr: nat, csect: nat, n: nat)
    requires Cursor(g, F, chain, org, curr, csect, n) && csect >= g.csize >= 1
    ensures if chain == [] then n == 0 && org == 0
      else IsChain(F, chain) && n > 0 && chain[|chain| - 1] == curr && chain[0] == org
    ensures chain != [] ==> IsCluster(F, curr) && F[curr] >= |F|
  {
    if chain != [] { MulLess(0, |chain| - 1, g.csize); }
  }

  /** The cursor at the start of a cluster added to the chain. */
  lemma CursorLonger(g: Layout, F: seq<nat>, chain: seq<nat>, org: nat, curr: nat, csect: nat, n: nat, F': seq<nat>,
      r: nat)
    requires Cursor(g, F, chain, org, curr, csect, n) && csect >= g.csize && IsChain(F', chain + [r])
    ensures Cursor(g, F', chain + [r], if chain == [] then r else org, r, 0, n)
  {
    if chain != [] { assert |chain| * g.csize == (|chain| - 1) * g.csize + g.csize; }
  }

  lemma SameFileSector(g: Layout, chain: seq<nat>, c: nat, i: nat)
    requires g.csize >= 1 && i / g.csize < |chain|
    ensures i / g.csize < |chain + [c]| && FileSector(g, chain + [c], i) == FileSector(g, chain, i)
  {
  }

  /** Writes to the table leave the sectors of a file as they were. */
  lemma ViewKept(g: Layout, chain: seq<nat>, n: nat, L: Disk, L': Disk, dirty: bool, dsect: nat, b: Sector)
    requires Sane(g, |L|) && Clusters(g, chain) && DataKept(g, L, L') && (dirty ==> dsect < |L|)
    ensures Untouched(g, chain, n, if dirty then L[dsect := b] else L, if dirty then L'[dsect := b] else L')
  {
    hide FileSector;
    forall i: nat {:trigger FileSector(g, chain, i)} | i < n && i / g.csize < |chain|
        && 0 <= FileSector(g, chain, i) < |L|
      ensures L'[FileSector(g, chain, i)] == L[FileSector(g, chain, i)]
    {
      FileSectorInside(g, |L|, chain, i);
    }
  }

  lemma CreatedFull(F: seq<nat>, c: nat, last: nat, eoc: nat, F': seq<nat>)
    requires Created(F, c, last, eoc, 0, F')
    ensures F' == F && Full(F)
  {
  }

  lemma DirStays(g: Layout, F: seq<nat>, chain: seq<nat>, F': seq<nat>, chain': seq<nat>, dir_sect: nat)
    requires DirApart(g, F, chain, dir_sect) && Within(F, chain, F', chain')
    ensures DirApart(g, F', chain', dir_sect)
  {
    if OwnSector(g, F', chain', dir_sect) {
      WithinSector(g, F, chain, F', chain', dir_sect);
    }
  }

  /** Taking a free cluster takes it from those that may be written to next. */
  lemma DirAfter(g: Layout, F: seq<nat>, chain: seq<nat>, c: nat, last: nat, eoc: nat, r: nat, F': seq<nat>,
      dir_sect: nat)
    requires DirApart(g, F, chain, dir_sect) && Created(F, c, last, eoc, r, F') && |F'| == |F| && eoc >= |F|
    requires c == 0 || (IsCluster(F, c) && F[c] >= |F|)
    ensures DirApart(g, F', chain, dir_sect)
  {
    forall d {:trigger Own(F', chain, d)} | Own(F', chain, d)
      ensures Own(F, chain, d)
    {
    }
    DirStays(g, F, chain, F', chain, dir_sect);
  }

  /** The first sector that has not been begun. */
  lemma CursorSector(g: Layout, sectors: nat, F: seq<nat>, chain: seq<nat>, org: nat, curr: nat, csect: nat, n: nat)
    requires Sane(g, sectors) && |F| == g.max_clust && Cursor(g, F, chain, org, curr, csect, n) && csect < g.csize
    ensures chain != [] && n / g.csize < |chain| && Clust2Sect(g, curr) > 0
    ensures FileSector(g, chain, n) == Clust2Sect(g, curr) + csect
    ensures Cursor(g, F, chain, org, curr, csect + 1, n + 1)
  {
    DataRoom(g, sectors);
    hide Sane;
    CursorNext(g, F, chain, org, curr, csect, n, 0);
    if chain != [] { MulLess(0, curr - 2, g.csize); }
  }

  /** Sector n of the file is none of the first n. */
  lemma OnlySector(g: Layout, chain: seq<nat>, V: Disk, n: nat, c: Sector)
    requires Clusters(g, chain) && n / g.csize < |chain| && 0 <= FileSector(g, chain, n) < |V|
    ensures Untouched(g, chain, n, V, V[FileSector(g, chain, n) := c])
  {
    hide FileSector;
    var V' := V[FileSector(g, chain, n) := c];
    forall i: nat {:trigger FileSector(g, chain, i)} | i < n && i / g.csize < |chain|
        && 0 <= FileSector(g, chain, i) < |V|
      ensures V'[FileSector(g, chain, i)] == V[FileSector(g, chain, i)]
    {
      if FileSector(g, chain, i) == FileSector(g, chain, n) { FileSectorsDistinct(g, chain, i, n); }
    }
  }

  /** The window holds no sector of the file. */
  lemma NotInWindow(g: Layout, sectors: nat, F: seq<nat>, chain: seq<nat>, dir_sect: nat, winsect: nat, i: nat)
    requires Clusters(g, chain) && i / g.csize < |chain|
    requires |F| == g.max_clust && DirApart(g, F, chain, dir_sect)
      && (winsect == 0 || winsect == dir_sect || InFat(g, winsect))
    requires Sane(g, sectors)
    ensures var s := FileSector(g, chain, i);
      s != winsect && s != dir_sect && g.database <= s < sectors && !InFat(g, s) && !InCopies(g, s)
    ensures Own(F, chain, chain[i / g.csize])
  {
    hide Sane;
    FileSectorInside(g, sectors, chain, i);
    IndexParts(i, g.csize);
    var c, k := chain[i / g.csize], i % g.csize;
    assert Own(F, chain, c);
    assert SectorOf(g, c, k) == FileSector(g, chain, i);
  }

  /** A chain of a sane volume is made of clusters of it. */
  lemma ChainClusters(g: Layout, F: seq<nat>, chain: seq<nat>)
    requires g.csize >= 1 && |F| == g.max_clust && (chain == [] || IsChain(F, chain))
    ensures Clusters(g, chain)
  {
    if chain != [] { ChainDistinct(F, chain); }
  }

  /** The start cluster and the size in the directory entry at place p of a sector. */
  function EntryCluster(c: Sector, p: nat): nat
    requires p + 32 <= SS
  {
    0x1_0000 * LoadWord(c, p + 20) + LoadWord(c, p + 26)
  }

  function EntrySize(c: Sector, p: nat): nat
    requires p + 32 <= SS
  {
    LoadWord(c, p + 28) + 0x1_0000 * LoadWord(c, p + 30)
  }

  /** Where f_sync puts what into the 32 bytes of an entry: the archive bit at 11, the time of the last write at 22, the
      cluster in halves at 26 and 20, the size at 28; every other bit of the sector stays. */
  lemma EntryFields(c: Sector, p: nat, size: nat, clust: nat, tim: nat)
    requires p + 32 <= SS && size < 0x1_0000_0000 && clust < 0x1_0000_0000 && tim < 0x1_0000_0000
    ensures var e := Volume.Entered(c, p, size, clust, tim);
      && LoadDouble(e, p + 22) == tim && LoadDouble(e, p + 28) == size
      && LoadWord(e, p + 26) == clust % 0x1_0000 && LoadWord(e, p + 20) == clust / 0x1_0000
      && (var x: int, a: int := e[p + 11], c[p + 11]; x / 32 % 2 == 1 && x % 32 == a % 32 && x / 64 == a / 64)
      && forall q :: 0 <= q < SS && !(p + 20 <= q < p + 32) && q != p + 11 ==> e[q] == c[q]
  {
    EntryBytes(c, p, size, clust, tim);
    hide Volume.Entered;
    Halves(tim);
    Halves(size);
    Halves(clust);
    ArchiveBit(c[p + 11]);
  }

  lemma EntryBytes(c: Sector, p: nat, size: nat, clust: nat, tim: nat)
    requires p + 32 <= SS
    ensures var e := Volume.Entered(c, p, size, clust, tim);
      && (var a: int := c[p + 11]; e[p + 11] == if a / 32 % 2 == 1 then a else a + 32)
      && WordAt(e, p + 20, clust / 0x1_0000) && WordAt(e, p + 22, tim) && WordAt(e, p + 24, tim / 0x1_0000)
      && WordAt(e, p + 26, clust) && WordAt(e, p + 28, size) && WordAt(e, p + 30, size / 0x1_0000)
      && forall q :: 0 <= q < SS && !(p + 20 <= q < p + 32) && q != p + 11 ==> e[q] == c[q]
  {
  }

  predicate WordAt(e: Sector, j: nat, v: nat)
    requires j + 2 <= SS
  {
    e[j] == v % 0x100 && e[j + 1] == v / 0x100 % 0x100
  }

  lemma Halves(v: nat)
    requires v < 0x1_0000_0000
    ensures v % 0x1_0000 == v % 0x100 + 0x100 * (v / 0x100 % 0x100)
    ensures v / 0x1_0000 == v / 0x1_0000 % 0x100 + 0x100 * (v / 0x1_0000 / 0x100 % 0x100)
    ensures v == v % 0x1_0000 + 0x1_0000 * (v / 0x1_0000)
  {
  }

  lemma ArchiveBit(a: int)
    requires 0 <= a < 256
    ensures var x := if a / 32 % 2 == 1 then a else a + 32; x / 32 % 2 == 1 && x % 32 == a % 32 && x / 64 == a / 64
  {
  }

  /** The entry that f_sync writes is the one that f_open reads. */
  lemma EntryRead(c: Sector, p: nat, size: nat, clust: nat, tim: nat)
    requires p + 32 <= SS && size < 0x1_0000_0000 && clust < 0x1_0000_0000
    ensures var e := Volume.Entered(c, p, size, clust, tim); EntrySize(e, p) == size && EntryCluster(e, p) == clust
  {
    hide Poked2, LoadWord;
    var a: int := c[p + 11];
    var c0: Sector := c[p + 11 := if a / 0x20 % 2 == 1 then a else a + 0x20];
    var d1 := Poked2(c0, p + 28, size);
    var d2 := Poked2(d1, p + 30, size / 0x1_0000);
    var d3 := Poked2(d2, p + 26, clust);
    var d4 := Poked2(d3, p + 20, clust / 0x1_0000);
    var d5 := Poked2(d4, p + 22, tim);
    LoadPoked(c0, p + 28, size, p + 28);
    LoadPoked(d1, p + 30, size / 0x1_0000, p + 28);
    LoadPoked(d1, p + 30, size / 0x1_0000, p + 30);
    LoadPoked(d2, p + 26, clust, p + 26);
    LoadPoked(d3, p + 20, clust / 0x1_0000, p + 20);
    LoadPoked(d3, p + 20, clust / 0x1_0000, p + 26);
    EntryApart(d2, p, p + 26, clust);
    EntryApart(d3, p, p + 20, clust / 0x1_0000);
    EntryApart(d4, p, p + 22, tim);
    EntryApart(d5, p, p + 24, tim / 0x1_0000);
    TwoWords(size);
    TwoWords(clust);
  }

  /** Words of the entry other than the one stored at j. */
  lemma EntryApart(c: Sector, p: nat, j: nat, v: nat)
    requires p + 32 <= SS && j in {p + 20, p + 22, p + 24, p + 26}
    ensures var e := Poked2(c, j, v);
      && (j == p + 20 || LoadWord(e, p + 20) == LoadWord(c, p + 20))
      && (j == p + 26 || LoadWord(e, p + 26) == LoadWord(c, p + 26))
      && LoadWord(e, p + 28) == LoadWord(c, p + 28) && LoadWord(e, p + 30) == LoadWord(c, p + 30)
  {
  }

  lemma TwoWords(v: nat)
    requires v < 0x1_0000_0000
    ensures v % 0x1_0000 + 0x1_0000 * (v / 0x1_0000 % 0x1_0000) == v
  {
  }

  /** Only the directory entry, the FSInfo sector and the further copies of the table have changed. */
  ghost predicate EntryOnly(g: Layout, dir_sect: nat, L: Disk, L': Disk) {
    |L'| == |L| && forall s :: 0 <= s < |L| && !InCopies(g, s) && s != dir_sect && s != g.fsi_sector ==> L'[s] == L[s]
  }

  lemma EntryKeeps(g: Layout, sectors: nat, F: seq<nat>, chain: seq<nat>, dir_sect: nat, n: nat, L: Disk, L': Disk)
    requires Sane(g, sectors) && |L| == sectors && |F| == g.max_clust && Clusters(g, chain)
      && DirApart(g, F, chain, dir_sect)
    requires EntryOnly(g, dir_sect, L, L')
    ensures Untouched(g, chain, n, L, L')
  {
    DataRoom(g, sectors);
    InfoBeside(g, sectors);
    hide Sane, FileSector;
    forall i: nat {:trigger FileSector(g, chain, i)} | i < n && i / g.csize < |chain|
        && 0 <= FileSector(g, chain, i) < |L|
      ensures L'[FileSector(g, chain, i)] == L[FileSector(g, chain, i)]
    {
      NotInWindow(g, sectors, F, chain, dir_sect, dir_sect, i);
    }
  }

  lemma SectorUntouched(g: Layout, chain: seq<nat>, n: nat, V: Disk, V': Disk, i: nat)
    requires Untouched(g, chain, n, V, V') && g.csize >= 1 && i < n && i / g.csize < |chain|
      && 0 <= FileSector(g, chain, i) < |V|
    ensures V'[FileSector(g, chain, i)] == V[FileSector(g, chain, i)]
  {
  }

  /** A sector of the file, by way of clust2sect. */
  lemma ReadSector(g: Layout, sectors: nat, F: seq<nat>, chain: seq<nat>, dir_sect: nat, winsect: nat, curr: nat,
      csect: nat, n: nat, i: nat)
    requires Sane(g, sectors) && |F| == g.max_clust && Clusters(g, chain) && DirApart(g, F, chain, dir_sect)
    requires (winsect == 0 || winsect == dir_sect || InFat(g, winsect)) && ReadReady(g, chain, curr, csect, n)
      && csect + i < g.csize
    ensures (n + i) / g.csize < |chain| && Clust2Sect(g, curr) > 0
    ensures var s := Clust2Sect(g, curr) + csect + i;
      && FileSector(g, chain, n + i) == s && 0 < s < sectors && s != winsect && !InFat(g, s) && !InCopies(g, s)
  {
    hide Sane, SectorOf, FileSector, Clust2Sect, ReadReady, Clusters, DirApart;
    ReadyCluster(g, chain, curr, csect, n);
    ReadPlace(g, chain, curr, csect, n, i);
    DataRoom(g, sectors);
    ClustPlace(g, sectors, curr, csect + i);
    NotInWindow(g, sectors, F, chain, dir_sect, winsect, n + i);
  }

  /** Moving the window leaves the sectors of a file alone. */
  lemma WindowMoved(g: Layout, chain: seq<nat>, n: nat, L: Disk, L': Disk)
    requires Sane(g, |L|) && Clusters(g, chain) && Kept(g, L, L')
    ensures Untouched(g, chain, n, L, L')
  {
    hide Sane, FileSector;
    forall i: nat {:trigger FileSector(g, chain, i)} | i < n && i / g.csize < |chain|
        && 0 <= FileSector(g, chain, i) < |L|
      ensures L'[FileSector(g, chain, i)] == L[FileSector(g, chain, i)]
    {
      FileSectorInside(g, |L|, chain, i);
    }
  }

  lemma SectorThere(g: Layout, chain: seq<nat>, V: Disk, w: seq<byte>, p: nat)
    requires Holds(g, chain, V, w) && p < |w|
    ensures g.csize >= 1 && p / SS / g.csize < |chain|
  {
    assert ByteHeld(g, chain, V, w, p);
  }

  lemma DirFacts(g: Layout, sectors: nat, dir_sect: nat, dir_ptr: nat)
    requires Sane(g, sectors) && DirPlace(g, sectors, dir_sect, dir_ptr)
    ensures dir_sect > 0
    ensures g.fatbase <= dir_sect < sectors && !InFat(g, dir_sect) && !InCopies(g, dir_sect) && dir_ptr + 32 <= SS
      && dir_sect != g.fsi_sector
  {
    MulLess(0, g.n_fats, g.sects_fat);
  }

  lemma OrgBound(g: Layout, sectors: nat, F: seq<nat>, chain: seq<nat>, org: nat, curr: nat, csect: nat, n: nat)
    requires Sane(g, sectors) && |F| == g.max_clust && Cursor(g, F, chain, org, curr, csect, n)
    ensures org < 0x1_0000_0000 && g.fatbase > 0
  {
    EndMark(g, sectors, 0);
  }

  lemma SparedDir(g: Layout, F: seq<nat>, chain: seq<nat>, L: Disk, M: Disk, dir_sect: nat)
    requires Spared(g, F, chain, L, M) && DirApart(g, F, chain, dir_sect) && dir_sect < |L| && !InFat(g, dir_sect)
      && !InCopies(g, dir_sect)
    ensures dir_sect < |M| && M[dir_sect] == L[dir_sect]
  {
  }

  class File {
    const fs: Volume
    const can_read: bool
    const can_write: bool
    var written: bool
    var dirty: bool
    var error: bool
    var csect: nat
    var fptr: nat
    var fsize: nat
    var org_clust: nat
    var curr_clust: nat
    var dsect: nat
    const dir_sect: nat
    const dir_ptr: nat
    const buf: array<byte>
    /** The clusters of the file. */
    ghost var chain: seq<nat>

    /** The end of f_open, with the directory entry in the window. */
    constructor (fs: Volume, can_read: bool, can_write: bool, created: bool, dir_ptr: nat, ghost chain: seq<nat>)
      requires fs.Valid() && dir_ptr + 32 <= SS
      ensures this.fs == fs && this.can_read == can_read && this.can_write == can_write && fresh(buf)
        && buf.Length == SS
      ensures dir_sect == fs.winsect && this.dir_ptr == dir_ptr && written == created && !dirty && !error
      ensures org_clust == EntryCluster(fs.win[..], dir_ptr) && fsize == EntrySize(fs.win[..], dir_ptr)
      ensures fptr == 0 && csect == 255 && dsect == 0 && this.chain == chain
    {
      this.fs, this.can_read, this.can_write, this.dir_ptr := fs, can_read, can_write, dir_ptr;
      this.dir_sect := fs.winsect;
      org_clust := 0x1_0000 * fs.WindowWord(dir_ptr + 20) + fs.WindowWord(dir_ptr + 26);
      fsize := fs.WindowWord(dir_ptr + 28) + 0x1_0000 * fs.WindowWord(dir_ptr + 30);
      written, dirty, error := created, false, false;
      fptr, csect, dsect, curr_clust := 0, 255, 0, 0;
      buf := new byte[SS](_ => 0);
      this.chain := chain;
    }

    /** The volume is as the file needs it. */
    ghost predicate Mounted()
      reads fs`disk, fs`winsect, fs`wflag, fs.win, fs`free_clust, this`chain
    {
      && fs.Valid() && fs.Counted() && Forest(fs.Fat()) && buf != fs.win && buf.Length == SS
      && DirPlace(fs.g, fs.sectors, dir_sect, dir_ptr) && DirApart(fs.g, fs.Fat(), chain, dir_sect)
      && (fs.winsect == 0 || fs.winsect == dir_sect || InFat(fs.g, fs.winsect)) && Clusters(fs.g, chain)
    }

    /** The disk as it will be once the window and the file's buffer are written back. */
    ghost function View(): (V: Disk)
      requires fs.Valid() && buf.Length == SS && (dirty ==> dsect < fs.sectors)
      reads fs`disk, fs`winsect, fs`wflag, fs.win, this`dirty, this`dsect, buf
      ensures |V| == fs.sectors
    {
      if dirty then fs.Logical()[dsect := buf[..]] else fs.Logical()
    }

    /** The file holds w and nothing else, and n of its sectors have been begun. */
    ghost predicate Appending(w: seq<byte>, n: nat)
      reads fs`disk, fs`winsect, fs`wflag, fs.win, fs`free_clust, this`chain, this`org_clust, this`curr_clust,
          this`csect, this`fptr, this`dirty, this`dsect, buf
    {
      && Mounted() && Cursor(fs.g, fs.Fat(), chain, org_clust, curr_clust, csect, n)
      && fptr == |w| <= n * SS
      && (dirty ==>
          0 < n && (n - 1) / fs.g.csize < |chain| && dsect == FileSector(fs.g, chain, n - 1) && dsect < fs.sectors)
      && Holds(fs.g, chain, View(), w)
    }

    /** The buffer holds sector n - 1 of the file. */
    ghost predicate Buffered(n: nat)
      reads fs`disk, fs`winsect, fs`wflag, fs.win, this`chain, this`dirty, this`dsect, buf
    {
      && n > 0 && fs.Valid() && buf.Length == SS && fs.g.csize >= 1 && (n - 1) / fs.g.csize < |chain|
      && dsect == FileSector(fs.g, chain, n - 1) && dsect < fs.sectors && buf[..] == View()[dsect]
    }

    /** A file that has been written from its beginning without seeking, between calls. */
    ghost predicate Writer(w: seq<byte>)
      reads fs`disk, fs`winsect, fs`wflag, fs.win, fs`free_clust, this`chain, this`org_clust, this`curr_clust,
          this`csect, this`fptr, this`dirty, this`dsect, buf, this`fsize
    {
      && Appending(w, (|w| + SS - 1) / SS) && fsize == fptr && (|w| % SS != 0 ==> Buffered((|w| + SS - 1) / SS))
          && |w| < 0x1_0000_0000
    }

    /** Since the volume had the table F0 and the sectors L0, and the file the clusters c0, only its own clusters and
        free ones have been written to. */
    ghost predicate Since(F0: seq<nat>, c0: seq<nat>, L0: Disk)
      requires fs.Valid()
      reads fs`disk, fs`winsect, fs`wflag, fs.win, this`chain
    {
      Spared(fs.g, F0, c0, L0, fs.Logical()) && Within(F0, c0, fs.Fat(), chain)
    }

    /** Writes the sector buffer to the disk if it is dirty. */
    method Flush(ghost w: seq<byte>, ghost n: nat, ghost F0: seq<nat>, ghost c0: seq<nat>, ghost L0: Disk)
      requires Appending(w, n) && Since(F0, c0, L0)
      modifies this`dirty, fs`disk
      ensures Appending(w, n) && Since(F0, c0, L0) && !dirty && fs.Fat() == old(fs.Fat()) && View() == old(View())
      ensures old(fs.Mirrored()) ==> fs.Mirrored()
    {
      hide Forest, Holds, IsChain, Clusters, DirPlace, DirApart, Spared, Within, FileSector, Cursor, Own;
      if dirty {
        NotInWindow(fs.g, fs.sectors, fs.Fat(), chain, dir_sect, fs.winsect, n - 1);
        FileSpared(fs.g, F0, c0, L0, fs.Logical(), fs.Fat(), chain, n - 1, buf[..]);
        fs.WriteSector(dsect, buf[..]);
        dirty := false;
      }
    }

    /** The next cluster as create_chain delivers it. */
    method NextLink(ghost n: nat) returns (clst: nat)
      requires Mounted() && Cursor(fs.g, fs.Fat(), chain, org_clust, curr_clust, csect, n) && csect >= fs.g.csize
      requires fptr == n * SS
      modifies this`org_clust
      modifies fs`disk, fs`winsect, fs`wflag, fs.win, fs`free_clust, fs`fsi_flag, fs`last_clust
      ensures Mounted() && DataKept(fs.g, old(fs.Logical()), fs.Logical()) && clst != 1
      ensures Created(old(fs.Fat()), if chain == [] then 0 else chain[|chain| - 1], old(fs.last_clust),
                      Stored(fs.g.fs_type, EOC), clst, fs.Fat())
      ensures Stored(fs.g.fs_type, EOC) >= |fs.Fat()|
      ensures org_clust == if chain == [] then clst else old(org_clust)
      ensures old(fs.Mirrored()) ==> fs.Mirrored()
    {
      hide Forest, Clusters, DirPlace, DirApart, Created, IsChain, Cursor, Stored;
      hide Sane, FatOf, CopiesOK, Allocated, Full, DataKept, InFat, InCopies;
      ghost var F := fs.Fat();
      DataRoom(fs.g, fs.sectors);
      CursorFull(fs.g, F, chain, org_clust, curr_clust, csect, n);
      ghost var last, c := fs.last_clust, if chain == [] then 0 else curr_clust;
      if fptr == 0 {
        clst := org_clust;
        if clst == 0 {
          clst := fs.CreateChain(0);
          org_clust := clst;
        }
      } else {
        clst := fs.CreateChain(curr_clust);
      }
      EndMark(fs.g, fs.sectors, 0);
      DirAfter(fs.g, F, chain, c, last, Stored(fs.g.fs_type, EOC), clst, fs.Fat(), dir_sect);
    }

    /** At the end of the last cluster: the next one, or the first; full if the disk is. */
    method NextCluster(ghost w: seq<byte>, ghost n: nat, ghost F0: seq<nat>, ghost c0: seq<nat>,
        ghost L0: Disk) returns (full: bool)
      requires Appending(w, n) && Since(F0, c0, L0) && |w| == n * SS && csect >= fs.g.csize
      modifies this`org_clust, this`curr_clust, this`csect, this`chain
      modifies fs`disk, fs`winsect, fs`wflag, fs.win, fs`free_clust, fs`fsi_flag, fs`last_clust
      ensures Appending(w, n) && Since(F0, c0, L0)
      ensures if full then Full(fs.Fat()) else csect == 0 && chain != []
      ensures old(fs.Mirrored()) ==> fs.Mirrored()
    {
      hide Forest, Holds, Clusters, DirPlace, DirApart, Spared, Within, FileSector, Created, IsChain, Cursor, Stored,
        Own;
      hide Sane, FatOf, CopiesOK, Allocated, Full, DataKept, InFat, InCopies, Untouched;
      ghost var F, C, L := fs.Fat(), chain, fs.Logical();
      ghost var V, last, eoc := View(), fs.last_clust, Stored(fs.g.fs_type, EOC);
      DataRoom(fs.g, fs.sectors);
      CursorFull(fs.g, F, C, org_clust, curr_clust, csect, n);
      var clst := NextLink(n);
      ViewKept(fs.g, C, n, L, fs.Logical(), dirty, dsect, buf[..]);
      HoldsUntouched(fs.g, C, n, V, View(), w);
      SparedSame(fs.g, F0, c0, L0, L, fs.Logical());
      if clst == 0 {
        CreatedFull(F, if C == [] then 0 else C[|C| - 1], last, eoc, fs.Fat());
        return true;
      }
      ChainGrows(F, C, last, eoc, clst, fs.Fat());
      WithinTwice(F0, c0, F, C, fs.Fat(), C + [clst]);
      HoldsLonger(fs.g, C, clst, View(), w);
      DirStays(fs.g, F, C, fs.Fat(), C + [clst], dir_sect);
      ChainClusters(fs.g, fs.Fat(), C + [clst]);
      CursorLonger(fs.g, F, C, old(org_clust), curr_clust, csect, n, fs.Fat(), clst);
      if dirty { SameFileSector(fs.g, C, clst, n - 1); }
      curr_clust := clst;
      csect := 0;
      chain := chain + [clst];
      return false;
    }

    lemma AppendingValid(w: seq<byte>, n: nat)
      requires Appending(w, n)
      ensures fs.Valid() && fptr == |w| && buf.Length == SS && 1 <= fs.g.csize <= 128 && (chain == [] ==> n == 0)
    {
      DataRoom(fs.g, fs.sectors);
    }

    /** One whole sector is written past the buffer. */
    method WriteNext(c: Sector, ghost w: seq<byte>, ghost n: nat, ghost F0: seq<nat>, ghost c0: seq<nat>,
        ghost L0: Disk)
      requires Appending(w, n) && Since(F0, c0, L0) && |w| == n * SS && !dirty && csect < fs.g.csize
      modifies fs`disk, this`csect, this`fptr
      ensures Appending(w + c, n + 1) && Since(F0, c0, L0) && !dirty && csect == old(csect) + 1
      ensures old(fs.Mirrored()) ==> fs.Mirrored()
    {
      hide Forest, Holds, Clusters, DirPlace, DirApart, Spared, Within, FileSector, IsChain, Cursor, Own, SectorOf;
      hide Sane, FatOf, CopiesOK, Allocated, InFat, InCopies, Clust2Sect;
      CursorSector(fs.g, fs.sectors, fs.Fat(), chain, org_clust, curr_clust, csect, n);
      NotInWindow(fs.g, fs.sectors, fs.Fat(), chain, dir_sect, fs.winsect, n);
      var sect := Clust2Sect(fs.g, curr_clust);
      FileSpared(fs.g, F0, c0, L0, fs.Logical(), fs.Fat(), chain, n, c);
      WholeSector(n, w);
      HoldsSector(fs.g, chain, View(), w, c);
      fs.WriteSector(sect + csect, c);
      csect := csect + 1;
      fptr := fptr + SS;
    }

    static lemma WholeSector(n: nat, w: seq<byte>)
      requires |w| == n * SS
      ensures |w| % SS == 0 && |w| / SS == n
    {
      DivModUnique(|w|, n, SS, 0);
    }

    /** disk_write of cc sectors, all in the current cluster. */
    method WriteWhole(buff: array<byte>, off: nat, cc: nat, ghost w: seq<byte>, ghost n: nat,
                      ghost F0: seq<nat>, ghost c0: seq<nat>, ghost L0: Disk)
      requires Appending(w, n) && Since(F0, c0, L0) && |w| == n * SS && !dirty && csect + cc <= fs.g.csize
      requires off + cc * SS <= buff.Length && buff != buf && buff != fs.win
      modifies fs`disk, this`csect, this`fptr
      ensures Appending(w + buff[off..off + cc * SS], n + cc) && Since(F0, c0, L0) && !dirty
      ensures old(fs.Mirrored()) ==> fs.Mirrored()
    {
      hide Sane, FatOf, CopiesOK, Allocated, InFat, InCopies, Cursor, Holds, Clusters, DirPlace, DirApart, Forest,
        FileSector;
      hide Spared, Within, Mounted;
      AppendingValid(w, n);
      hide Appending, Since;
      assert w + buff[off..off] == w;
      for k := 0 to cc
        invariant fs.Valid() && Appending(w + buff[off..off + k * SS], n + k) && Since(F0, c0, L0) && !dirty
        invariant csect == old(csect) + k
        invariant old(fs.Mirrored()) ==> fs.Mirrored()
      {
        WriteOne(buff, off, k, w, n, F0, c0, L0);
      }
    }

    method WriteOne(buff: array<byte>, off: nat, k: nat, ghost w: seq<byte>, ghost n: nat,
                    ghost F0: seq<nat>, ghost c0: seq<nat>, ghost L0: Disk)
      requires off + k * SS + SS <= buff.Length && |w| == n * SS && !dirty && csect < fs.g.csize
      requires Appending(w + buff[off..off + k * SS], n + k) && Since(F0, c0, L0)
      modifies fs`disk, this`csect, this`fptr
      ensures fs.Valid() && Appending(w + buff[off..off + (k + 1) * SS], n + (k + 1)) && Since(F0, c0, L0) && !dirty
      ensures csect == old(csect) + 1
      ensures old(fs.Mirrored()) ==> fs.Mirrored()
    {
      hide Sane, FatOf, CopiesOK, Allocated, InFat, InCopies, Cursor, Holds, Clusters, DirPlace, DirApart, Forest,
        FileSector;
      hide Spared, Within;
      ghost var b := buff[..];
      var c: Sector := buff[off + k * SS..off + k * SS + SS];
      Slices(b, w, off, k, n);
      assert c == b[off + k * SS..off + k * SS + SS] && buff[off..off + k * SS] == b[off..off + k * SS];
      WriteNext(c, w + b[off..off + k * SS], n + k, F0, c0, L0);
      assert buff[off..off + (k + 1) * SS] == b[off..off + (k + 1) * SS];
      AppendingValid(w + b[off..off + k * SS] + c, n + k + 1);
    }

    static lemma Slices(b: seq<byte>, w: seq<byte>, off: nat, k: nat, n: nat)
      requires off + k * SS + SS <= |b| && |w| == n * SS
      ensures w + b[off..off + k * SS] + b[off + k * SS..off + k * SS + SS] == w + b[off..off + (k + 1) * SS]
      ensures |w + b[off..off + k * SS]| == (n + k) * SS
    {
    }

    /** The next sector becomes the one in the buffer, with nothing in it yet. */
    method OpenSector(ghost w: seq<byte>, ghost n: nat)
      requires Appending(w, n) && |w| == n * SS && !dirty && csect < fs.g.csize
      modifies this`dsect, this`csect
      ensures Appending(w, n + 1) && n / fs.g.csize < |chain| && dsect == FileSector(fs.g, chain, n)
    {
      hide Forest, Holds, Clusters, DirPlace, DirApart, FileSector, IsChain, Cursor, Own, SectorOf;
      hide Sane, FatOf, CopiesOK, Allocated, InFat, InCopies, Clust2Sect;
      CursorSector(fs.g, fs.sectors, fs.Fat(), chain, org_clust, curr_clust, csect, n);
      NotInWindow(fs.g, fs.sectors, fs.Fat(), chain, dir_sect, fs.winsect, n);
      var sect := Clust2Sect(fs.g, curr_clust);
      dsect := sect + csect;
      csect := csect + 1;
    }

    /** MemCpy of cnt bytes to place o of the sector buffer. */
    method FillBuffer(buff: array<byte>, off: nat, o: nat, cnt: nat)
      requires buf.Length == SS && o + cnt <= SS && off + cnt <= buff.Length && buff != buf
      modifies buf
      ensures buf[..] == Patched(old(buf[..]), o, buff[off..off + cnt])
    {
      for i := 0 to cnt
        invariant buf[..] == Patched(old(buf[..]), o, buff[off..off + i])
      {
        buf[o + i] := buff[off + i];
        assert buff[off..off + i + 1] == buff[off..off + i] + [buff[off + i]];
      }
    }

    /** cnt bytes go into the sector in the buffer, the last one begun. */
    method PutPartial(buff: array<byte>, off: nat, cnt: nat, ghost w: seq<byte>, ghost n: nat)
      requires Appending(w, n) && n > 0 && (n - 1) * SS <= |w| && |w| + cnt <= n * SS
      requires (n - 1) / fs.g.csize < |chain| && dsect == FileSector(fs.g, chain, n - 1)
        && (Buffered(n) || (!dirty && |w| == (n - 1) * SS))
      requires off + cnt <= buff.Length && buff != buf && buff != fs.win && cnt > 0
      modifies buf, this`dirty, this`fptr
      ensures Appending(w + buff[off..off + cnt], n) && Buffered(n)
    {
      hide Forest, Holds, Clusters, DirPlace, DirApart, FileSector, IsChain, Cursor, Own, Untouched, Patched;
      hide Sane, FatOf, CopiesOK, Allocated, InFat, InCopies;
      DataRoom(fs.g, fs.sectors);
      ghost var V, d := View(), buff[off..off + cnt];
      var o := fptr % SS;
      DivModUnique(fptr, n - 1, SS, fptr - (n - 1) * SS);
      NotInWindow(fs.g, fs.sectors, fs.Fat(), chain, dir_sect, fs.winsect, n - 1);
      ghost var V1 := V[dsect := buf[..]];
      if !Buffered(n) {
        OnlySector(fs.g, chain, V, n - 1, buf[..]);
        HoldsUntouched(fs.g, chain, n - 1, V, V1, w);
      } else {
        assert V1 == V;
      }
      HoldsBytes(fs.g, chain, V1, w, n - 1, d);
      FillBuffer(buff, off, o, cnt);
      dirty := true;
      fptr := fptr + cnt;
      assert View() == V1[dsect := Patched(V1[dsect], o, d)];
    }

    /** The state of a write between two transfers: the sectors begun are those the bytes need. */
    ghost predicate Between(w: seq<byte>, F0: seq<nat>, c0: seq<nat>, L0: Disk)
      reads fs`disk, fs`winsect, fs`wflag, fs.win, fs`free_clust, this`chain, this`org_clust, this`curr_clust,
          this`csect, this`fptr, this`dirty, this`dsect, buf
    {
      && Appending(w, (|w| + SS - 1) / SS) && (|w| % SS != 0 ==> Buffered((|w| + SS - 1) / SS)) && Since(F0, c0, L0)
      && fs.Valid() && fptr == |w|
    }

    static lemma Rounded(m: nat, n: nat)
      ensures m % SS == 0 ==> (m + SS - 1) / SS * SS == m
      ensures n > 0 && (n - 1) * SS < m <= n * SS ==> (m + SS - 1) / SS == n
      ensures m % SS != 0 ==> (m + SS - 1) / SS > 0 && ((m + SS - 1) / SS - 1) * SS == m - m % SS
    {
    }

    /** From a sector boundary, as many whole sectors as are left and fit the cluster. */
    method WriteSectors(buff: array<byte>, off: nat, btw: nat, ghost w: seq<byte>,
                        ghost F0: seq<nat>, ghost c0: seq<nat>, ghost L0: Disk) returns (wcnt: nat)
      requires Between(w, F0, c0, L0) && |w| % SS == 0 && csect < fs.g.csize && btw / SS > 0 && !dirty
      requires off + btw <= buff.Length && buff != buf && buff != fs.win
      modifies this`csect, this`fptr, fs`disk
      ensures 0 < wcnt <= btw && Between(w + buff[off..off + wcnt], F0, c0, L0)
      ensures old(fs.Mirrored()) ==> fs.Mirrored()
    {
      hide Sane, FatOf, CopiesOK, Allocated, InFat, InCopies, Cursor, Holds, Clusters, DirPlace, DirApart, Forest,
        FileSector;
      hide Spared, Within;
      ghost var n := (|w| + SS - 1) / SS;
      Rounded(|w|, n);
      var cc := btw / SS;
      if csect + cc > fs.g.csize {
        cc := fs.g.csize - csect;
      }
      WriteWhole(buff, off, cc, w, n, F0, c0, L0);
      wcnt := SS * cc;
      AppendingValid(w + buff[off..off + wcnt], n + cc);
      Rounded(|w| + wcnt, n + cc);
    }

    /** From a sector boundary, less than a sector. */
    method WriteStart(buff: array<byte>, off: nat, btw: nat, ghost w: seq<byte>,
                      ghost F0: seq<nat>, ghost c0: seq<nat>, ghost L0: Disk)
      requires Between(w, F0, c0, L0) && |w| % SS == 0 && csect < fs.g.csize && 0 < btw < SS && !dirty && fsize <= fptr
      requires off + btw <= buff.Length && buff != buf && buff != fs.win
      modifies this`csect, this`fptr, this`dirty, this`dsect, buf
      ensures Between(w + buff[off..off + btw], F0, c0, L0)
    {
      hide Sane, FatOf, CopiesOK, Allocated, InFat, InCopies, Cursor, Holds, Clusters, DirPlace, DirApart, Forest,
        FileSector;
      hide Spared, Within;
      ghost var n := (|w| + SS - 1) / SS;
      Rounded(|w|, n);
      AppendingValid(w, n);
      OpenSector(w, n);
      PutPartial(buff, off, btw, w, n + 1);
      AppendingValid(w + buff[off..off + btw], n + 1);
      Rounded(|w| + btw, n + 1);
    }

    /** Inside a sector: up to its end. */
    method WriteRest(buff: array<byte>, off: nat, btw: nat, ghost w: seq<byte>,
                     ghost F0: seq<nat>, ghost c0: seq<nat>, ghost L0: Disk) returns (wcnt: nat)
      requires Between(w, F0, c0, L0) && |w| % SS != 0 && btw > 0
      requires off + btw <= buff.Length && buff != buf && buff != fs.win
      modifies this`fptr, this`dirty, buf
      ensures 0 < wcnt <= btw && Between(w + buff[off..off + wcnt], F0, c0, L0)
    {
      hide Sane, FatOf, CopiesOK, Allocated, InFat, InCopies, Cursor, Holds, Clusters, DirPlace, DirApart, Forest,
        FileSector;
      hide Spared, Within;
      ghost var n := (|w| + SS - 1) / SS;
      Rounded(|w|, n);
      wcnt := SS - fptr % SS;
      if wcnt > btw {
        wcnt := btw;
      }
      PutPartial(buff, off, wcnt, w, n);
      AppendingValid(w + buff[off..off + wcnt], n);
      Rounded(|w| + wcnt, n);
    }

    /** From a sector boundary, with room in the cluster. */
    method WriteInCluster(buff: array<byte>, off: nat, btw: nat, ghost w: seq<byte>,
                          ghost F0: seq<nat>, ghost c0: seq<nat>, ghost L0: Disk) returns (wcnt: nat)
      requires Between(w, F0, c0, L0) && |w| % SS == 0 && btw > 0 && fsize <= fptr && csect < fs.g.csize
      requires off + btw <= buff.Length && buff != buf && buff != fs.win
      modifies this`csect, this`fptr, this`dirty, this`dsect, buf, fs`disk
      ensures 0 < wcnt <= btw && Between(w + buff[off..off + wcnt], F0, c0, L0)
      ensures old(fs.Mirrored()) ==> fs.Mirrored()
    {
      hide Sane, FatOf, CopiesOK, Allocated, InFat, InCopies, Cursor, Holds, Clusters, DirPlace, DirApart, Forest,
        FileSector;
      hide Spared, Within, Mounted;
      ghost var n := (|w| + SS - 1) / SS;
      Flush(w, n, F0, c0, L0);
      AppendingValid(w, n);
      if btw / SS > 0 {
        wcnt := WriteSectors(buff, off, btw, w, F0, c0, L0);
      } else {
        WriteStart(buff, off, btw, w, F0, c0, L0);
        wcnt := btw;
      }
    }

    /** From a sector boundary: first a cluster if the last one is full, then the bytes. */
    method WriteBoundary(buff: array<byte>, off: nat, btw: nat, ghost w: seq<byte>,
                         ghost F0: seq<nat>, ghost c0: seq<nat>, ghost L0: Disk) returns (wcnt: nat)
      requires Between(w, F0, c0, L0) && |w| % SS == 0 && btw > 0 && fsize <= fptr
      requires off + btw <= buff.Length && buff != buf && buff != fs.win
      modifies this`csect, this`fptr, this`dirty, this`dsect, this`org_clust, this`curr_clust, this`chain, buf
      modifies fs`disk, fs`winsect, fs`wflag, fs.win, fs`free_clust, fs`fsi_flag, fs`last_clust
      ensures wcnt <= btw && Between(w + buff[off..off + wcnt], F0, c0, L0)
      ensures wcnt == 0 ==> Full(fs.Fat())
      ensures old(fs.Mirrored()) ==> fs.Mirrored()
    {
      hide Sane, FatOf, CopiesOK, Allocated, InFat, InCopies, Cursor, Holds, Clusters, DirPlace, DirApart, Forest,
        FileSector;
      hide Spared, Within;
      hide Full;
      ghost var n := (|w| + SS - 1) / SS;
      Rounded(|w|, n);
      AppendingValid(w, n);
      if csect >= fs.g.csize {
        var full := NextCluster(w, n, F0, c0, L0);
        AppendingValid(w, n);
        if full {
          assert w + buff[off..off] == w;
          return 0;
        }
      }
      wcnt := WriteInCluster(buff, off, btw, w, F0, c0, L0);
    }

    /** The transfer loop of f_write. */
    method Transfer(buff: array<byte>, btw0: nat, ghost w: seq<byte>,
                    ghost F0: seq<nat>, ghost c0: seq<nat>, ghost L0: Disk) returns (bw: nat)
      requires Between(w, F0, c0, L0) && btw0 <= buff.Length && buff != buf && buff != fs.win && fsize <= fptr
      modifies this`csect, this`fptr, this`dirty, this`dsect, this`org_clust, this`curr_clust, this`chain, buf
      modifies fs`disk, fs`winsect, fs`wflag, fs.win, fs`free_clust, fs`fsi_flag, fs`last_clust
      ensures bw <= btw0 && Between(w + buff[..bw], F0, c0, L0) && (bw < btw0 ==> Full(fs.Fat()))
      ensures old(fs.Mirrored()) ==> fs.Mirrored()
    {
      hide Appending, Since, Sane, FatOf, CopiesOK, Allocated, Forest, Full;
      ghost var b := buff[..];
      bw := 0;
      var btw := btw0;
      assert w + b[..0] == w;
      while btw > 0
        invariant bw + btw == btw0 && Between(w + b[..bw], F0, c0, L0) && fsize <= fptr && b == buff[..]
        invariant old(fs.Mirrored()) ==> fs.Mirrored()
      {
        var wcnt;
        if fptr % SS == 0 {
          wcnt := WriteBoundary(buff, bw, btw, w + b[..bw], F0, c0, L0);
          if wcnt == 0 {
            assert w + b[..bw] + b[bw..bw] == w + b[..bw];
            break;
          }
        } else {
          wcnt := WriteRest(buff, bw, btw, w + b[..bw], F0, c0, L0);
        }
        assert w + b[..bw] + b[bw..bw + wcnt] == w + b[..bw + wcnt];
        bw := bw + wcnt;
        btw := btw - wcnt;
      }
    }

    /** f_write: the bytes taken are added to the file; fewer than asked for only if the disk is full
        or the size would pass 4 GB. */
    method Write(buff: array<byte>, btw0: nat, ghost w: seq<byte>) returns (res: FResult, bw: nat)
      requires Writer(w) && btw0 <= buff.Length && btw0 < 0x1_0000_0000 && buff != buf && buff != fs.win
      modifies this`csect, this`fptr, this`fsize, this`dirty, this`dsect, this`org_clust, this`curr_clust, this`written
      modifies this`chain, buf, fs`disk, fs`winsect, fs`wflag, fs.win, fs`free_clust, fs`fsi_flag, fs`last_clust
      ensures res == if error then FR_INT_ERR else if !can_write then FR_DENIED else FR_OK
      ensures bw <= btw0 && Writer(w + buff[..bw]) && fs.Valid() && Since(old(fs.Fat()), old(chain), old(fs.Logical()))
      ensures buf.Length == SS && (dirty ==> dsect < fs.sectors) && OnDisk(fs.g, chain, View(), w + buff[..bw])
      ensures res == FR_OK ==> written && (bw < btw0 ==> Full(fs.Fat()) || (bw == 0 && |w| + btw0 >= 0x1_0000_0000))
      ensures res != FR_OK ==> bw == 0
      ensures old(fs.Mirrored()) ==> fs.Mirrored()
    {
      hide Appending, Buffered, Sane, FatOf, CopiesOK, Allocated, Forest, Full, Spared, Within, OnDisk, View;
      bw := 0;
      WriterStarts(w);
      WriterOnDisk(w);
      assert w + buff[..0] == w;
      if error {
        return FR_INT_ERR, 0;
      }
      if !can_write {
        return FR_DENIED, 0;
      }
      var btw := btw0;
      if (fsize + btw) % 0x1_0000_0000 < fsize {
        btw := 0;
      }
      SizeFits(fsize, btw0);
      bw := Transfer(buff, btw, w, fs.Fat(), chain, fs.Logical());
      if fptr > fsize {
        fsize := fptr;
      }
      written := true;
      res := FR_OK;
      WriterOnDisk(w + buff[..bw]);
    }

    static lemma SizeFits(fsize: nat, btw: nat)
      requires fsize < 0x1_0000_0000 && btw < 0x1_0000_0000
      ensures (fsize + btw) % 0x1_0000_0000 < fsize <==> fsize + btw >= 0x1_0000_0000
    {
      if fsize + btw >= 0x1_0000_0000 {
        DivModUnique(fsize + btw, 1, 0x1_0000_0000, fsize + btw - 0x1_0000_0000);
      } else {
        SmallMod(fsize + btw, 0x1_0000_0000);
      }
    }

    lemma CleanView()
      requires fs.Valid() && buf.Length == SS && !dirty && !fs.wflag
      ensures View() == fs.disk
    {
    }

    lemma WriterOnDisk(w: seq<byte>)
      requires Writer(w)
      ensures buf.Length == SS && (dirty ==> dsect < fs.sectors) && fs.Valid() && OnDisk(fs.g, chain, View(), w)
    {
      HeldOnDisk(fs.g, chain, View(), w);
    }

    lemma WriterStarts(w: seq<byte>)
      requires Writer(w)
      ensures Between(w, fs.Fat(), chain, fs.Logical())
    {
    }

    /** f_sync: if the file has been written, its bytes and its directory entry are on the disk; otherwise nothing
        happens. */
    method SyncFile(tim: nat, ghost w: seq<byte>)
      requires Writer(w)
      modifies this`dirty, this`written, fs`disk, fs`winsect, fs`wflag, fs.win, fs`fsi_flag
      ensures Writer(w) && !written && fs.Fat() == old(fs.Fat())
      ensures !old(written) ==> unchanged(this, fs, fs.win)
      ensures old(written) ==>
        && !dirty && !fs.wflag
        && fs.disk[dir_sect] == Volume.Entered(old(fs.Logical())[dir_sect], dir_ptr, fsize, org_clust, tim)
        && EntrySize(fs.disk[dir_sect], dir_ptr) == |w| && EntryCluster(fs.disk[dir_sect], dir_ptr) == org_clust
        && OnDisk(fs.g, chain, fs.disk, w)
      ensures old(fs.Mirrored()) ==> fs.Mirrored()
    {
      hide Appending, Buffered, Writer, Sane, FatOf, CopiesOK, Volume.Entered, EntrySize, EntryCluster, OnDisk, View;
      if written {
        SyncWritten(tim, w);
        WriterOnDisk(w);
        CleanView();
      }
    }

    method SyncWritten(tim: nat, ghost w: seq<byte>)
      requires Writer(w)
      modifies this`dirty, this`written, fs`disk, fs`winsect, fs`wflag, fs.win, fs`fsi_flag
      ensures Writer(w) && !dirty && !written && !fs.wflag && fs.Fat() == old(fs.Fat())
      ensures fs.disk[dir_sect] == Volume.Entered(old(fs.Logical())[dir_sect], dir_ptr, fsize, org_clust, tim)
      ensures EntrySize(fs.disk[dir_sect], dir_ptr) == |w| && EntryCluster(fs.disk[dir_sect], dir_ptr) == org_clust
      ensures old(fs.Mirrored()) ==> fs.Mirrored()
    {
      hide Forest, Holds, Clusters, DirApart, FileSector, IsChain, Cursor, Own, Untouched, Spared, Within, EntryOnly;
      hide Sane, FatOf, CopiesOK, Allocated, InFat, Volume.Entered, EntrySize, EntryCluster, DirPlace;
      ghost var n := (|w| + SS - 1) / SS;
      ghost var F, L := fs.Fat(), fs.Logical();
      WriterStarts(w);
      OrgBound(fs.g, fs.sectors, F, chain, org_clust, curr_clust, csect, n);
      DirFacts(fs.g, fs.sectors, dir_sect, dir_ptr);
      Rounded(|w|, n);
      ghost var V := View();
      Flush(w, n, F, chain, L);
      SparedDir(fs.g, F, chain, L, V, dir_sect);
      WriteEntry(tim);
      written := false;
      EntryKeeps(fs.g, fs.sectors, F, chain, dir_sect, n, V, fs.Logical());
      HoldsUntouched(fs.g, chain, n, V, fs.Logical(), w);
      if |w| % SS != 0 { SectorUntouched(fs.g, chain, n, V, fs.Logical(), n - 1); }
      EntryRead(V[dir_sect], dir_ptr, fsize, org_clust, tim);
    }

    /** The directory entry, by way of the window, and sync. */
    method WriteEntry(tim: nat)
      requires fs.Valid() && fs.Counted() && DirPlace(fs.g, fs.sectors, dir_sect, dir_ptr)
      modifies fs`disk, fs`winsect, fs`wflag, fs.win, fs`fsi_flag
      ensures fs.Valid() && fs.Counted() && !fs.wflag && fs.winsect in {0, dir_sect} && fs.Fat() == old(fs.Fat())
      ensures dir_sect < fs.sectors && EntryOnly(fs.g, dir_sect, old(fs.Logical()), fs.Logical())
      ensures fs.Logical()[dir_sect] == Volume.Entered(old(fs.Logical())[dir_sect], dir_ptr, fsize, org_clust, tim)
      ensures old(fs.Mirrored()) ==> fs.Mirrored()
    {
      hide Sane, FatOf, CopiesOK, Allocated, InFat, Volume.Entered, DirPlace;
      DirFacts(fs.g, fs.sectors, dir_sect, dir_ptr);
      ghost var M := fs.Logical();
      fs.MoveWindow(dir_sect);
      FatKept(fs.g, M, fs.Logical());
      fs.StoreEntry(dir_ptr, fsize, org_clust, tim);
      fs.Sync();
    }

    // ---------- reading ----------

    /** The volume holds w in the chain of the file, of which fptr bytes have been read. */
    ghost predicate Readable(w: seq<byte>)
      reads fs`disk, fs`winsect, fs`wflag, fs.win, fs`free_clust, this`chain, this`org_clust, this`fptr, this`fsize,
          this`dirty, this`dsect, buf
    {
      && Mounted() && fs.Valid() && Holds(fs.g, chain, fs.Logical(), w) && fsize == |w| && fptr <= |w| && !dirty
      && (if chain == [] then w == [] else IsChain(fs.Fat(), chain) && chain[0] == org_clust)
      && (dsect == 0 || (dsect < fs.sectors && !InCopies(fs.g, dsect) && buf[..] == fs.Logical()[dsect]))
    }

    /** A file to be read from where it is, between calls. */
    ghost predicate Reader(w: seq<byte>)
      reads fs`disk, fs`winsect, fs`wflag, fs.win, fs`free_clust, this`chain, this`org_clust, this`fptr, this`fsize,
          this`dirty, this`dsect, buf
      reads this`curr_clust, this`csect
    {
      && Readable(w) && ReadCursor(fs.g, chain, curr_clust, csect, (fptr + SS - 1) / SS)
      && (fptr % SS != 0 ==> InSector())
    }

    /** The buffer is the sector that fptr is in. */
    ghost predicate InSector()
      requires Mounted()
      reads fs`disk, fs`winsect, fs`wflag, fs.win, fs`free_clust, this`chain, this`fptr, this`dsect
    {
      fs.g.csize >= 1 && fptr / SS / fs.g.csize < |chain| && dsect == FileSector(fs.g, chain, fptr / SS) && dsect > 0
    }

    /** The sector at fptr is found, in the next cluster if the current one has been read. */
    method FindSector(ghost w: seq<byte>) returns (sect: nat)
      requires Reader(w) && fptr % SS == 0 && fptr < |w|
      modifies this`curr_clust, this`csect, fs`disk, fs`winsect, fs`wflag, fs.win
      ensures Readable(w) && ReadReady(fs.g, chain, curr_clust, csect, fptr / SS) && csect < fs.g.csize <= 128
      ensures sect == Clust2Sect(fs.g, curr_clust) + csect && Clust2Sect(fs.g, curr_clust) > 0
      ensures fs.Valid() && fs.Fat() == old(fs.Fat())
      ensures old(fs.Mirrored()) ==> fs.Mirrored()
    {
      hide Forest, Holds, Clusters, DirPlace, DirApart, FileSector, IsChain, Untouched, Own;
      hide Sane, FatOf, CopiesOK, Allocated, InFat, Clust2Sect, ReadReady, ReadCursor;
      ghost var n, L := fptr / SS, fs.Logical();
      Rounded(fptr, n);
      SectorThere(fs.g, chain, L, w, fptr);
      DataRoom(fs.g, fs.sectors);
      if csect >= fs.g.csize {
        ReadTurn(fs.g, fs.Fat(), chain, curr_clust, csect, n);
        var clst;
        if fptr == 0 {
          clst := org_clust;
        } else {
          clst := fs.GetCluster(curr_clust);
          WindowMoved(fs.g, chain, (|w| + SS - 1) / SS, L, fs.Logical());
          Rounded(|w|, (|w| + SS - 1) / SS);
          HoldsUntouched(fs.g, chain, (|w| + SS - 1) / SS, L, fs.Logical(), w);
        }
        curr_clust := clst;
        csect := 0;
      } else {
        ReadSame(fs.g, chain, curr_clust, csect, n);
      }
      ReadyBound(fs.g, chain, curr_clust, csect, n);
      ReadSector(fs.g, fs.sectors, fs.Fat(), chain, dir_sect, fs.winsect, curr_clust, csect, n, 0);
      sect := Clust2Sect(fs.g, curr_clust) + csect;
    }

    static lemma ReadyBound(g: Layout, chain: seq<nat>, curr: nat, csect: nat, n: nat)
      requires ReadReady(g, chain, curr, csect, n)
      ensures csect < g.csize
    {
    }

    /** memcpy */
    static method CopyBytes(dst: array<byte>, off: nat, data: seq<byte>)
      requires off + |data| <= dst.Length
      modifies dst
      ensures dst[..] == Spliced(old(dst[..]), off, data)
    {
      hide Spliced;
      SplicedNone(dst[..], off);
      for i := 0 to |data|
        invariant dst[..] == Spliced(old(dst[..]), off, data[..i])
      {
        SplicedNext(old(dst[..]), off, data, i);
        dst[off + i] := data[i];
      }
      assert data[..|data|] == data;
    }

    static lemma SplicedNext(d: seq<byte>, off: nat, data: seq<byte>, i: nat)
      requires off + |data| <= |d| && i < |data|
      ensures Spliced(d, off, data[..i])[off + i := data[i]] == Spliced(d, off, data[..i + 1])
    {
    }

    static lemma SplicedTwice(d: seq<byte>, off: nat, a: seq<byte>, b: seq<byte>)
      requires off + |a| + |b| <= |d|
      ensures Spliced(Spliced(d, off, a), off + |a|, b) == Spliced(d, off, a + b)
    {
    }

    method ReadOne(buff: array<byte>, off: nat, sect: nat, k: nat, ghost w: seq<byte>, ghost n: nat)
      requires Readable(w) && fptr == n * SS && ReadReady(fs.g, chain, curr_clust, csect, n)
      requires csect + k < fs.g.csize && fptr + k * SS + SS <= |w|
      requires Clust2Sect(fs.g, curr_clust) > 0 && sect == Clust2Sect(fs.g, curr_clust) + csect
      requires off + k * SS + SS <= buff.Length && buff != buf && buff != fs.win
      modifies buff
      ensures buff[..] == Spliced(old(buff[..]), off + k * SS, w[fptr + k * SS..fptr + k * SS + SS])
    {
      hide Forest, Holds, Clusters, DirPlace, DirApart, FileSector, IsChain, Own;
      hide Sane, FatOf, CopiesOK, Allocated, InFat, Clust2Sect, ReadReady, Spliced;
      DataRoom(fs.g, fs.sectors);
      ReadSector(fs.g, fs.sectors, fs.Fat(), chain, dir_sect, fs.winsect, curr_clust, csect, n, k);
      WholeBytes(fs.g, chain, fs.Logical(), w, n + k);
      CopyBytes(buff, off + k * SS, fs.disk[sect + k]);
    }

    /** disk_read of cc whole sectors into the caller's buffer. */
    method ReadWhole(buff: array<byte>, off: nat, sect: nat, cc: nat, ghost w: seq<byte>)
      requires Readable(w) && fptr % SS == 0 && ReadReady(fs.g, chain, curr_clust, csect, fptr / SS)
      requires csect + cc <= fs.g.csize && fptr + cc * SS <= |w| && cc > 0
      requires Clust2Sect(fs.g, curr_clust) > 0 && sect == Clust2Sect(fs.g, curr_clust) + csect
      requires off + cc * SS <= buff.Length && buff != buf && buff != fs.win
      modifies buff, this`csect, this`fptr
      ensures Reader(w) && fptr == old(fptr) + cc * SS
      ensures buff[..] == Spliced(old(buff[..]), off, w[old(fptr)..fptr])
    {
      hide Forest, Holds, Clusters, DirPlace, DirApart, FileSector, IsChain, Own;
      hide Sane, FatOf, CopiesOK, Allocated, InFat, Clust2Sect, ReadReady, ReadCursor, Spliced;
      ghost var n := fptr / SS;
      SplicedNone(buff[..], off);
      assert w[fptr..fptr + 0 * SS] == [];
      for k := 0 to cc
        modifies buff
        invariant buff[..] == Spliced(old(buff[..]), off, w[fptr..fptr + k * SS])
      {
        ReadOne(buff, off, sect, k, w, n);
        assert w[fptr..fptr + k * SS] + w[fptr + k * SS..fptr + k * SS + SS] == w[fptr..fptr + (k + 1) * SS];
        SplicedTwice(old(buff[..]), off, w[fptr..fptr + k * SS], w[fptr + k * SS..fptr + k * SS + SS]);
      }
      ReadMore(fs.g, chain, curr_clust, csect, n, cc);
      csect := csect + cc;
      fptr := fptr + SS * cc;
      Rounded(fptr, n + cc);
    }

    static lemma SplicedNone(d: seq<byte>, off: nat)
      requires off <= |d|
      ensures Spliced(d, off, []) == d
    {
    }

    static lemma WholeBytes(g: Layout, chain: seq<nat>, V: Disk, w: seq<byte>, n: nat)
      requires Holds(g, chain, V, w) && g.csize >= 1 && n * SS + SS <= |w| && n / g.csize < |chain|
        && 0 <= FileSector(g, chain, n) < |V|
      ensures V[FileSector(g, chain, n)] == w[n * SS..n * SS + SS]
    {
      ReadBytes(g, chain, V, w, n, 0, SS);
      var c := V[FileSector(g, chain, n)];
      assert c[0..SS] == c;
    }

    /** The sector at fptr is brought into the buffer. */
    method LoadSector(sect: nat, ghost w: seq<byte>)
      requires Readable(w) && fptr % SS == 0 && fptr < |w| && ReadReady(fs.g, chain, curr_clust, csect, fptr / SS)
      requires Clust2Sect(fs.g, curr_clust) > 0 && sect == Clust2Sect(fs.g, curr_clust) + csect
      modifies this`csect, this`dsect, buf
      ensures Readable(w) && ReadCursor(fs.g, chain, curr_clust, csect, fptr / SS + 1) && InSector()
      ensures fs.Valid() && fs.Fat() == old(fs.Fat())
    {
      hide Forest, Holds, Clusters, DirPlace, DirApart, FileSector, IsChain, Own;
      hide Sane, FatOf, CopiesOK, Allocated, InFat, Clust2Sect, ReadReady, ReadCursor, Spliced;
      ghost var n := fptr / SS;
      DataRoom(fs.g, fs.sectors);
      ReadyBound(fs.g, chain, curr_clust, csect, n);
      ReadSector(fs.g, fs.sectors, fs.Fat(), chain, dir_sect, fs.winsect, curr_clust, csect, n, 0);
      ReadMore(fs.g, chain, curr_clust, csect, n, 1);
      if dsect != sect {
        CopyBytes(buf, 0, fs.disk[sect]);
        SplicedAll(old(buf[..]), fs.disk[sect]);
      }
      dsect := sect;
      csect := csect + 1;
    }

    static lemma SplicedAll(d: seq<byte>, c: Sector)
      requires |d| == SS
      ensures Spliced(d, 0, c) == c
    {
    }

    /** Bytes from the sector in the buffer. */
    method ReadPartial(buff: array<byte>, off: nat, cnt: nat, ghost w: seq<byte>)
      requires Readable(w) && InSector() && ReadCursor(fs.g, chain, curr_clust, csect, fptr / SS + 1)
      requires 0 < cnt <= SS - fptr % SS && fptr + cnt <= |w| && off + cnt <= buff.Length && buff != buf
        && buff != fs.win
      modifies buff, this`fptr
      ensures Reader(w) && fptr == old(fptr) + cnt
      ensures buff[..] == Spliced(old(buff[..]), off, w[old(fptr)..fptr])
      ensures fs.Valid() && fs.Fat() == old(fs.Fat())
    {
      hide Forest, Holds, Clusters, DirPlace, DirApart, FileSector, IsChain, Own;
      hide Sane, FatOf, CopiesOK, Allocated, InFat, ReadCursor, Spliced;
      var o := fptr % SS;
      ghost var n := fptr / SS;
      ReadBytes(fs.g, chain, fs.Logical(), w, n, o, cnt);
      InSectorAfter(fptr, cnt);
      CopyBytes(buff, off, buf[o..o + cnt]);
      fptr := fptr + cnt;
    }

    /** Where fptr is after a step inside a sector. */
    static lemma InSectorAfter(p: nat, cnt: nat)
      requires 0 < cnt <= SS - p % SS
      ensures (p + cnt + SS - 1) / SS == p / SS + 1
      ensures (p + cnt) % SS != 0 ==> (p + cnt) / SS == p / SS
      ensures p == p / SS * SS + p % SS
    {
    }

    /** Between calls, the sector that fptr is inside of is in the buffer. */
    lemma ReaderFacts(w: seq<byte>)
      requires Reader(w)
      ensures fs.Valid() && buf != fs.win && Readable(w)
      ensures Mounted() && fptr % SS != 0 ==> InSector() && ReadCursor(fs.g, chain, curr_clust, csect, fptr / SS + 1)
    {
      hide Holds, IsChain, Forest, Sane, FatOf, CopiesOK, Allocated, ReadCursor;
      if fptr % SS != 0 {
        InSectorAfter(fptr, SS - fptr % SS);
        Rounded(fptr, fptr / SS + 1);
      }
    }

    /** One turn of the loop of f_read: whole sectors, or what is left of one. */
    method ReadStep(buff: array<byte>, off: nat, btr: nat, ghost w: seq<byte>) returns (rcnt: nat)
      requires Reader(w) && btr > 0 && fptr + btr <= |w| && off + btr <= buff.Length && buff != buf && buff != fs.win
      modifies buff, buf, this`fptr, this`csect, this`curr_clust, this`dsect, fs`disk, fs`winsect, fs`wflag, fs.win
      ensures Reader(w) && 0 < rcnt <= btr && fptr == old(fptr) + rcnt
      ensures fs.Valid() && fs.Fat() == old(fs.Fat())
      ensures buff[..] == Spliced(old(buff[..]), off, w[old(fptr)..fptr])
      ensures old(fs.Mirrored()) ==> fs.Mirrored()
    {
      ReaderFacts(w);
      hide Mounted, Holds, IsChain, Forest, Sane, FatOf, CopiesOK, Allocated, ReadReady, ReadCursor, Spliced,
        Clust2Sect, FileSector, Reader, Readable, InSector;
      if fptr % SS == 0 {
        var sect := FindSector(w);
        if btr / SS > 0 {
          rcnt := ReadRun(buff, off, btr, sect, w);
          return;
        }
        LoadSector(sect, w);
      }
      rcnt := ReadInside(buff, off, btr, w);
    }

    /** What the request takes of the sector in the buffer. */
    method ReadInside(buff: array<byte>, off: nat, btr: nat, ghost w: seq<byte>) returns (rcnt: nat)
      requires Readable(w) && Mounted() && InSector() && fs.Valid()
      requires ReadCursor(fs.g, chain, curr_clust, csect, fptr / SS + 1)
      requires btr > 0 && fptr + btr <= |w| && off + btr <= buff.Length && buff != buf && buff != fs.win
      modifies buff, this`fptr
      ensures Reader(w) && 0 < rcnt <= btr && fptr == old(fptr) + rcnt
      ensures fs.Valid() && fs.Fat() == old(fs.Fat())
      ensures buff[..] == Spliced(old(buff[..]), off, w[old(fptr)..fptr])
    {
      hide Mounted, Readable, Reader, InSector, ReadCursor, Spliced, Sane, FatOf;
      rcnt := SS - fptr % SS;
      if rcnt > btr {
        rcnt := btr;
      }
      ReadPartial(buff, off, rcnt, w);
    }

    /** The whole sectors of the request that lie in the current cluster, without the buffer. */
    method ReadRun(buff: array<byte>, off: nat, btr: nat, sect: nat, ghost w: seq<byte>) returns (rcnt: nat)
      requires Readable(w) && fptr % SS == 0 && ReadReady(fs.g, chain, curr_clust, csect, fptr / SS)
      requires btr >= SS && fptr + btr <= |w| && off + btr <= buff.Length && csect < fs.g.csize
      requires Clust2Sect(fs.g, curr_clust) > 0 && sect == Clust2Sect(fs.g, curr_clust) + csect
      requires buff != buf && buff != fs.win
      modifies buff, this`csect, this`fptr
      ensures Reader(w) && 0 < rcnt <= btr && fptr == old(fptr) + rcnt
      ensures buff[..] == Spliced(old(buff[..]), off, w[old(fptr)..fptr])
    {
      hide Clust2Sect, ReadReady, Spliced, Readable, Reader;
      var cc := btr / SS;
      if csect + cc > fs.g.csize {
        cc := fs.g.csize - csect;
      }
      ReadWhole(buff, off, sect, cc, w);
      rcnt := SS * cc;
    }

    /** f_read: the next bytes of the file, as many as asked for or as there are. */
    method Read(buff: array<byte>, btr0: nat, ghost w: seq<byte>) returns (res: FResult, br: nat)
      requires Reader(w) && btr0 <= buff.Length && buff != buf && buff != fs.win
      modifies buff, buf, this`fptr, this`csect, this`curr_clust, this`dsect, fs`disk, fs`winsect, fs`wflag, fs.win
      ensures res == if error then FR_INT_ERR else if !can_read then FR_DENIED else FR_OK
      ensures Reader(w) && fs.Valid() && fptr == old(fptr) + br && old(fptr) <= |w|
      ensures fs.Fat() == old(fs.Fat())
      ensures br == if res != FR_OK then 0 else if btr0 <= |w| - old(fptr) then btr0 else |w| - old(fptr)
      ensures fptr <= |w| && buff[..] == Spliced(old(buff[..]), 0, w[old(fptr)..fptr])
      ensures OnDisk(fs.g, chain, fs.Logical(), w)
      ensures old(fs.Mirrored()) ==> fs.Mirrored()
    {
      ReaderOnDisk(w);
      hide Mounted, Holds, IsChain, Forest, Sane, FatOf, CopiesOK, Allocated, ReadReady, ReadCursor, Spliced, OnDisk;
      br := 0;
      SplicedNone(buff[..], 0);
      assert w[fptr..fptr] == [];
      if error {
        return FR_INT_ERR, 0;
      }
      if !can_read {
        return FR_DENIED, 0;
      }
      var remain := fsize - fptr;
      var btr := btr0;
      if btr > remain {
        btr := remain;
      }
      ReadLoop(buff, btr, w);
      ReaderOnDisk(w);
      return FR_OK, btr;
    }

    lemma ReaderOnDisk(w: seq<byte>)
      requires Reader(w)
      ensures fs.Valid() && OnDisk(fs.g, chain, fs.Logical(), w)
    {
      HeldOnDisk(fs.g, chain, fs.Logical(), w);
    }

    /** The transfer loop of f_read. */
    method ReadLoop(buff: array<byte>, btr0: nat, ghost w: seq<byte>)
      requires Reader(w) && btr0 <= buff.Length && fptr + btr0 <= |w| && buff != buf && buff != fs.win
      modifies buff, buf, this`fptr, this`csect, this`curr_clust, this`dsect, fs`disk, fs`winsect, fs`wflag, fs.win
      ensures Reader(w) && fptr == old(fptr) + btr0 && fptr <= |w|
      ensures fs.Fat() == old(fs.Fat())
      ensures buff[..] == Spliced(old(buff[..]), 0, w[old(fptr)..fptr])
      ensures old(fs.Mirrored()) ==> fs.Mirrored()
    {
      hide Mounted, Holds, IsChain, Forest, Sane, FatOf, CopiesOK, Allocated, ReadReady, ReadCursor, Spliced, InSector;
      var br, btr := 0, btr0;
      ghost var p0 := fptr;
      SplicedNone(buff[..], 0);
      assert w[p0..p0] == [];
      while btr > 0
        invariant Reader(w) && fptr == p0 + br && br + btr == btr0 && fs.Fat() == old(fs.Fat())
        invariant buff[..] == Spliced(old(buff[..]), 0, w[p0..fptr])
        invariant old(fs.Mirrored()) ==> fs.Mirrored()
      {
        ghost var p := fptr;
        var rcnt := ReadStep(buff, br, btr, w);
        assert w[p0..p] + w[p..fptr] == w[p0..fptr];
        SplicedTwice(old(buff[..]), 0, w[p0..p], w[p..fptr]);
        br := br + rcnt;
        btr := btr - rcnt;
      }
    }

    // ---------- opening a file that has been written ----------

    /** f_open of the file that f has written and synchronized: the directory entry is read through the window. */
    static method Reopen(f: File, ghost w: seq<byte>) returns (r: File)
      requires f.Writer(w) && !f.dirty && !f.fs.wflag
      requires f.dir_ptr + 32 <= SS && f.dir_sect < f.fs.sectors
      requires EntrySize(f.fs.disk[f.dir_sect], f.dir_ptr) == |w|
        && EntryCluster(f.fs.disk[f.dir_sect], f.dir_ptr) == f.org_clust
      modifies f.fs`disk, f.fs`winsect, f.fs`wflag, f.fs.win
      ensures fresh(r) && fresh(r.buf) && r.fs == f.fs && r.Reader(w) && r.fptr == 0 && r.can_read && !r.error
      ensures f.fs.Valid() && f.fs.Fat() == old(f.fs.Fat())
    {
      hide Holds, Forest, Sane, FatOf, CopiesOK, Allocated, DirApart, Clusters, EntrySize, EntryCluster, IsChain,
        Untouched, FileSector;
      hide InFat, DirPlace;
      ghost var n, L := (|w| + SS - 1) / SS, f.fs.Logical();
      Rounded(|w|, n);
      DirFacts(f.fs.g, f.fs.sectors, f.dir_sect, f.dir_ptr);
      DataRoom(f.fs.g, f.fs.sectors);
      f.fs.MoveWindow(f.dir_sect);
      FatKept(f.fs.g, L, f.fs.Logical());
      WindowMoved(f.fs.g, f.chain, n, L, f.fs.Logical());
      HoldsUntouched(f.fs.g, f.chain, n, L, f.fs.Logical(), w);
      EmptyWithout(f.fs.g, f.chain, f.fs.Logical(), w);
      r := new File(f.fs, true, false, false, f.dir_ptr, f.chain);
    }

    static lemma EmptyWithout(g: Layout, chain: seq<nat>, V: Disk, w: seq<byte>)
      requires Holds(g, chain, V, w)
      ensures chain == [] ==> w == []
    {
      if w != [] { SectorThere(g, chain, V, w, 0); }
    }

    // ---------- f_truncate ----------

    /** The chain of a file that f_truncate can shorten, with the current cluster in it unless fptr is 0. */
    ghost predicate Truncatable()
      requires fs.Valid()
      reads fs`disk, fs`winsect, fs`wflag, fs.win, this`chain, this`org_clust, this`curr_clust, this`fptr
    {
      && Forest(fs.Fat()) && WholeChain(fs.Fat(), chain) && chain[0] == org_clust
      && (fptr == 0 || curr_clust in chain)
    }

    /** f_truncate on any table. In a table of disjoint chains the file ends at fptr, and the clusters behind the
        current one are free. */
    method Truncate() returns (res: FResult)
      requires fs.Valid()
      modifies this`fsize, this`written, this`error, this`org_clust, this`chain
      modifies fs`disk, fs`winsect, fs`wflag, fs.win, fs`free_clust, fs`fsi_flag
      ensures fs.Valid() && DataKept(fs.g, old(fs.Logical()), fs.Logical())
      ensures old(error) ==> res == FR_INT_ERR && unchanged(this, fs, fs.win)
      ensures !old(error) && !can_write ==> res == FR_DENIED && unchanged(this, fs, fs.win)
      ensures !old(error) && can_write && old(fsize) <= fptr ==> res == FR_OK && unchanged(this, fs, fs.win)
      ensures !old(error) && can_write && old(fsize) > fptr ==>
        var F, org, eoc := old(fs.Fat()), old(org_clust), Stored(fs.g.fs_type, EOC);
        && res == (if Shortens(F, org, fptr == 0, curr_clust, eoc) then FR_OK else FR_INT_ERR)
        && error == (res != FR_OK) && fs.Fat() == Shortened(F, org, fptr == 0, curr_clust, eoc)
        && fsize == fptr && written && org_clust == (if fptr == 0 then 0 else org)
        && (old(Truncatable()) ==>
              && res == FR_OK && Forest(fs.Fat())
              && Cut(F, old(chain), if fptr == 0 then 0 else curr_clust, fs.Fat(), chain))
      ensures old(fs.Counted()) && (old(Truncatable()) || fptr == 0) ==> fs.Counted()
      ensures old(fs.Mirrored()) ==> fs.Mirrored()
    {
      hide Sane, FatOf, CopiesOK, Allocated, Forest, InFat, DataKept, Zeroed, Trail, IsHead, Cut, Stored, Broken,
        IsChain, WholeChain, Shortened, Shortens;
      ghost var F, L, s, org := fs.Fat(), fs.Logical(), chain, org_clust;
      fs.DataSame(L);
      if error {
        return FR_INT_ERR;
      }
      if !can_write {
        return FR_DENIED;
      }
      res := FR_OK;
      if fsize > fptr {
        fsize := fptr;
        written := true;
        EndMark(fs.g, fs.sectors, 0);
        if Truncatable() {
          chain := ShortenedCut(F, s, org, fptr == 0, curr_clust, Stored(fs.g.fs_type, EOC));
        }
        var ok;
        if fptr == 0 {
          ok := fs.RemoveChain(org_clust);
          ShortenedAtStart(F, org, curr_clust, Stored(fs.g.fs_type, EOC));
          org_clust := 0;
        } else {
          ok := CutTail(F, org);
        }
        if !ok {
          error := true;
          res := FR_INT_ERR;
        }
      }
    }

    /** The chain ends at the current cluster; the clusters behind it are free. False is FR_INT_ERR. */
    method CutTail(ghost F: seq<nat>, ghost org: nat) returns (ok: bool)
      requires fs.Valid() && F == fs.Fat()
      modifies fs`disk, fs`winsect, fs`wflag, fs.win, fs`free_clust, fs`fsi_flag
      ensures fs.Valid() && DataKept(fs.g, old(fs.Logical()), fs.Logical())
      ensures var eoc := Stored(fs.g.fs_type, EOC);
        && fs.Fat() == Shortened(F, org, false, curr_clust, eoc) && ok == Shortens(F, org, false, curr_clust, eoc)
      ensures old(fs.Counted()) && (IsCluster(F, curr_clust) ==> F[curr_clust] != 0) ==> fs.Counted()
      ensures old(fs.Mirrored()) ==> fs.Mirrored()
    {
      hide Sane, FatOf, CopiesOK, Allocated, Forest, InFat, DataKept, Zeroed, Trail, Stored, Broken;
      ghost var L := fs.Logical();
      fs.DataSame(L);
      EndMark(fs.g, fs.sectors, 0);
      var ncl := fs.GetNext(curr_clust, L);
      ok := ncl != 1;
      if ok && ncl < fs.g.max_clust {
        EntryCount(F, curr_clust, Stored(fs.g.fs_type, EOC));
        ghost var L1 := fs.Logical();
        var put := fs.PutCluster(curr_clust, EOC);
        fs.DataTwice(L, L1, fs.Logical());
        ghost var L2 := fs.Logical();
        ok := fs.RemoveChain(ncl);
        fs.DataTwice(L, L2, fs.Logical());
      }
    }
  }

  lemma EntryCount(F: seq<nat>, c: nat, eoc: nat)
    requires IsCluster(F, c) && eoc >= |F|
    ensures F[c] != 0 ==> Allocated(F[c := eoc]) == Allocated(F)
  {
    CountUpdate(F, 2, c, eoc);
  }

  /** The table after f_truncate of a file that starts at org and stands at its beginning or in cluster c. */
  function Shortened(F: seq<nat>, org: nat, start: bool, c: nat, eoc: nat): seq<nat> {
    if start then Zeroed(F, Trail(F, org))
    else if !IsCluster(F, c) || F[c] == 1 || F[c] >= |F| then F
    else Zeroed(F[c := eoc], Trail(F[c := eoc], F[c]))
  }

  /** f_truncate meets no internal error. */
  predicate Shortens(F: seq<nat>, org: nat, start: bool, c: nat, eoc: nat) {
    if start then IsCluster(F, org) && !Broken(F, org)
    else IsCluster(F, c) && F[c] != 1 && (F[c] < |F| ==> IsCluster(F, F[c]) && !Broken(F[c := eoc], F[c]))
  }

  lemma ShortenedAtStart(F: seq<nat>, org: nat, c: nat, eoc: nat)
    ensures Shortened(F, org, true, c, eoc) == Zeroed(F, Trail(F, org))
    ensures Shortens(F, org, true, c, eoc) == (IsCluster(F, org) && !Broken(F, org))
  {
  }

  /** In a forest the chain of the file is cut, without an error, and a forest is left. */
  lemma ShortenedCut(F: seq<nat>, s: seq<nat>, org: nat, start: bool, c: nat, eoc: nat) returns (s': seq<nat>)
    requires Forest(F) && WholeChain(F, s) && s[0] == org && (start || c in s) && eoc >= |F|
    ensures Shortens(F, org, start, c, eoc) && Forest(Shortened(F, org, start, c, eoc))
    ensures Cut(F, s, if start then 0 else c, Shortened(F, org, start, c, eoc), s')
    ensures !start ==> IsCluster(F, c) && F[c] != 0
  {
    hide Allocated, Forest, Zeroed, Trail, IsHead, Cut, Broken;
    if start {
      ChainNotBroken(F, s);
      ChainMember(F, s, 0);
      RemovedAll(F, s);
      RemoveKeepsForest(F, org);
      s' := [];
    } else {
      var i :| 0 <= i < |s| && s[i] == c;
      ChainMember(F, s, i);
      s' := s[..i + 1];
      if F[c] < |F| {
        CutKeepsForest(F, c, eoc);
        RemovedTail(F, s, i, eoc);
        RemoveKeepsForest(F[c := eoc], F[c]);
        TailNotBroken(F, s, i, eoc);
      } else {
        KeptWhole(F, s, i);
      }
    }
  }

  lemma TailNotBroken(F: seq<nat>, s: seq<nat>, i: nat, eoc: nat)
    requires Forest(F) && IsChain(F, s) && i + 1 < |s| && eoc >= |F|
    ensures IsCluster(F, s[i]) && F[s[i]] == s[i + 1] && !Broken(F[s[i] := eoc], s[i + 1])
  {
    ChainDistinct(F, s);
    TailChain(F, s, i, eoc);
    ChainNotBroken(F[s[i] := eoc], s[i + 1..]);
  }

  /** F' is F with the chain s cut behind cluster c, or gone if c is 0; s' is what is left of it. */
  ghost predicate Cut(F: seq<nat>, s: seq<nat>, c: nat, F': seq<nat>, s': seq<nat>) {
    && |F'| == |F| && s' <= s && (if c == 0 then s' == [] else s' != [] && s'[|s'| - 1] == c && IsChain(F', s'))
    && (forall d :: 0 <= d < |F| && d in s && d !in s' ==> F'[d] == 0)
    && (forall d :: 0 <= d < |F| && d !in s ==> F'[d] == F[d])
  }

  lemma ChainMember(F: seq<nat>, s: seq<nat>, i: nat)
    requires IsChain(F, s) && i < |s|
    ensures IsCluster(F, s[i]) && F[s[i]] != 0 && F[s[i]] == (if i + 1 < |s| then s[i + 1] else F[s[i]])
    ensures F[s[i]] < |F| <==> i + 1 < |s|
    ensures F[s[i]] < |F| ==> IsCluster(F, F[s[i]])
  {
    ChainAllocated(F, s, i);
  }

  lemma RemovedAll(F: seq<nat>, s: seq<nat>)
    requires Forest(F) && WholeChain(F, s)
    ensures Cut(F, s, 0, Zeroed(F, Trail(F, s[0])), [])
  {
    TrailOfChain(F, s);
  }

  lemma TailChain(F: seq<nat>, s: seq<nat>, i: nat, eoc: nat)
    requires IsChain(F, s) && NoRepeats(s) && i + 1 < |s|
    ensures IsCluster(F, s[i]) && IsChain(F[s[i] := eoc], s[i + 1..])
  {
  }

  lemma HeadChain(F: seq<nat>, s: seq<nat>, i: nat, eoc: nat)
    requires IsChain(F, s) && NoRepeats(s) && i + 1 < |s| && eoc >= |F|
    ensures IsCluster(F, s[i]) && IsChain(Zeroed(F[s[i] := eoc], s[i + 1..]), s[..i + 1])
    ensures F[s[i]] == s[i + 1]
  {
    forall j | 0 <= j <= i
      ensures s[j] !in s[i + 1..]
    {
    }
  }

  lemma CutAt(F: seq<nat>, s: seq<nat>, i: nat, F1: seq<nat>, F2: seq<nat>)
    requires i + 1 < |s| && |F1| == |F| == |F2| && NoRepeats(s) && IsChain(F2, s[..i + 1])
    requires forall d :: 0 <= d < |F| && d != s[i] ==> F1[d] == F[d]
    requires forall d :: 0 <= d < |F| ==> F2[d] == if d in s[i + 1..] then 0 else F1[d]
    ensures Cut(F, s, s[i], F2, s[..i + 1])
  {
    hide IsChain, NoRepeats;
    assert s == s[..i + 1] + s[i + 1..];
    assert s[i] in s;
    ClustersPositive(F2, s[..i + 1], i);
  }

  lemma ClustersPositive(F: seq<nat>, s: seq<nat>, i: nat)
    requires IsChain(F, s) && i < |s|
    ensures s[i] != 0
  {
  }

  lemma RemovedTail(F: seq<nat>, s: seq<nat>, i: nat, eoc: nat)
    requires Forest(F) && IsChain(F, s) && i + 1 < |s| && eoc >= |F|
    ensures IsCluster(F, s[i]) && F[s[i]] == s[i + 1]
    ensures var F1 := F[s[i] := eoc]; Cut(F, s, s[i], Zeroed(F1, Trail(F1, s[i + 1])), s[..i + 1])
  {
    var F1, t := F[s[i] := eoc], s[i + 1..];
    ChainDistinct(F, s);
    TailChain(F, s, i, eoc);
    TrailOfChain(F1, t);
    HeadChain(F, s, i, eoc);
    hide IsChain, Trail, NoRepeats, Forest;
    CutAt(F, s, i, F1, Zeroed(F1, t));
  }

  lemma KeptWhole(F: seq<nat>, s: seq<nat>, i: nat)
    requires IsChain(F, s) && i < |s| && F[s[i]] >= |F|
    ensures Cut(F, s, s[i], F, s[..i + 1])
  {
    ChainMember(F, s, i);
    assert s[..i + 1] == s;
  }
}
