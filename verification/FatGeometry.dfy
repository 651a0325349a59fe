/** The layouts that f_mkfs makes and auto_mount finds: wiinandfuse/geckonand/ff.c. The erase block of the drive is 512
    sectors. */
module FatGeometry {
  import opened Arith
  import opened FatTable
  import opened FatVolume

  const MIN_SECTOR := 2000
  const MAX_SECTOR := 131072000
  const N_ROOTDIR := 512
  const BLOCK := 512

  /** The fields of the boot record that the layout depends on, as they are stored. */
  datatype Bpb = Bpb(secPerClus: nat, rsvdSecCnt: nat, numFats: nat, rootEntCnt: nat, totSec16: nat, totSec32: nat,
                     fatSz16: nat, fatSz32: nat, rootClus: nat, fsInfo: nat)

  datatype Outcome = Made(bpb: Bpb, b_part: nat, n_part: nat, fmt: FatType, n_clst: nat) | Aborted

  function Word16(x: nat): nat { x % 0x1_0000 }

  // ---------- auto_mount ----------

  /** The FAT type for a number of clusters plus 2. */
  function TypeOf(max_clust: nat): FatType {
    if max_clust >= 0xFFF7 then Fat32 else if max_clust >= 0xFF7 then Fat16 else Fat12
  }

  function FatSize(b: Bpb): nat { if b.fatSz16 == 0 then b.fatSz32 else b.fatSz16 }

  function TotalSectors(b: Bpb): nat { if b.totSec16 == 0 then b.totSec32 else b.totSec16 }

  /** The layout that auto_mount computes from the boot record at sector bsect. */
  function Mount(b: Bpb, bsect: nat): Layout
    requires b.secPerClus > 0
    requires TotalSectors(b) >= b.rsvdSecCnt + FatSize(b) * b.numFats + b.rootEntCnt / 16
  {
    var fsize := FatSize(b) * b.numFats;
    var fatbase := bsect + b.rsvdSecCnt;
    var max := (TotalSectors(b) - b.rsvdSecCnt - fsize - b.rootEntCnt / 16) / b.secPerClus + 2;
    Layout(TypeOf(max), b.secPerClus, b.numFats, FatSize(b), max, fatbase,
           if TypeOf(max) == Fat32 then b.rootClus else fatbase + fsize,
           fatbase + fsize + b.rootEntCnt / 16, bsect + b.fsInfo)
  }

  /** On any record the areas lie one behind the other: reserved sectors, copies of the table, root directory, clusters;
      the clusters are as many as the sectors hold, and the type goes by their number. */
  lemma MountAreas(b: Bpb, bsect: nat)
    requires b.secPerClus > 0
    requires TotalSectors(b) >= b.rsvdSecCnt + FatSize(b) * b.numFats + b.rootEntCnt / 16
    ensures var g, root := Mount(b, bsect), bsect + b.rsvdSecCnt + FatSize(b) * b.numFats;
      && g.fatbase == bsect + b.rsvdSecCnt && g.n_fats == b.numFats && g.sects_fat == FatSize(b)
      && g.database == root + b.rootEntCnt / 16 && g.csize == b.secPerClus && g.max_clust >= 2
      && g.database + (g.max_clust - 2) * g.csize <= bsect + TotalSectors(b) < g.database + (g.max_clust - 1) * g.csize
      && (g.fs_type == Fat12 <==> g.max_clust - 2 < 4085)
      && (g.fs_type == Fat16 <==> 4085 <= g.max_clust - 2 < 65525)
      && (g.fs_type == Fat32 <==> 65525 <= g.max_clust - 2)
      && g.dirbase == (if g.fs_type == Fat32 then b.rootClus else root)
      && g.fsi_sector == bsect + b.fsInfo
  {
    var x, m := TotalSectors(b) - b.rsvdSecCnt - FatSize(b) * b.numFats - b.rootEntCnt / 16, b.secPerClus;
    var n := Mount(b, bsect).max_clust - 2;
    assert n == x / m && x == n * m + x % m;
    assert (n + 1) * m == n * m + m;
  }

  // ---------- the loop that looks for the cluster size ----------

  /** The 16-bit loop variable after k turns. */
  function Shifted(k: nat): nat {
    if k == 0 then 512 else Shifted(k - 1) * 2 % 0x1_0000
  }

  predicate IsAllocSize(a: nat) {
    a in {512, 1024, 2048, 4096, 8192, 16384, 32768}
  }

  lemma {:induction false} ShiftedOut(k: nat)
    requires k >= 7
    ensures Shifted(k) == 0
  {
    if k == 7 {
      assert Shifted(1) == 1024 && Shifted(2) == 2048 && Shifted(3) == 4096;
      assert Shifted(4) == 8192 && Shifted(5) == 16384 && Shifted(6) == 32768;
    } else {
      ShiftedOut(k - 1);
    }
  }

  lemma ShiftedValues()
    ensures Shifted(0) == 512 && Shifted(1) == 1024 && Shifted(2) == 2048 && Shifted(3) == 4096
    ensures Shifted(4) == 8192 && Shifted(5) == 16384 && Shifted(6) == 32768
  {
  }

  /** The loop ends exactly for the sizes it is meant for: any other size but 0 keeps it turning at 0, past the
      test that would have rejected it. */
  lemma LoopEnds(a: nat)
    requires 0 < a < 0x1_0000
    ensures (exists k {:trigger Shifted(k)} :: !(Shifted(k) <= 32768 && Shifted(k) != a)) <==> IsAllocSize(a)
  {
    ShiftedValues();
    forall k: nat
      ensures Shifted(k) == 0 || IsAllocSize(Shifted(k))
    {
      if k >= 7 { ShiftedOut(k); }
    }
  }

  // ---------- f_mkfs ----------

  function SizeTable(): seq<nat> {
    [2048000, 1024000, 512000, 256000, 128000, 64000, 32000, 16000, 8000, 4000, 0]
  }

  function ClusterTable(): seq<nat> {
    [32768, 16384, 8192, 4096, 2048, 16384, 8192, 4096, 2048, 1024, 512]
  }

  /** The first entry of the size table, from n on, that is not above n_part. */
  function FirstEntry(n_part: nat, n: nat): (k: nat)
    requires n <= 10
    ensures n <= k <= 10 && n_part >= SizeTable()[k]
    ensures forall m :: n <= m < k ==> n_part < SizeTable()[m]
    decreases 10 - n
  {
    if n_part >= SizeTable()[n] then n else FirstEntry(n_part, n + 1)
  }

  /** It gives the cluster size. */
  method AutoSize(n_part: nat) returns (a: nat)
    ensures IsAllocSize(a) && a == ClusterTable()[FirstEntry(n_part, 0)]
  {
    var n := 0;
    while n_part < SizeTable()[n]
      invariant 0 <= n <= 10 && FirstEntry(n_part, 0) == FirstEntry(n_part, n)
      decreases 10 - n
    {
      n := n + 1;
    }
    return ClusterTable()[n];
  }

  /** The sectors per cluster that f_mkfs works with. */
  function ClusterSectors(n_part: nat, allocsize: nat): nat {
    (if allocsize == 0 then ClusterTable()[FirstEntry(n_part, 0)] else allocsize) / SS
  }

  /** The sectors of one table for n clusters. */
  function TableSectors(t: FatType, n: nat): nat {
    match t
    case Fat12 => ((n * 3 + 1) / 2 + 3 + SS - 1) / SS
    case Fat16 => (n * 2 + 4 + SS - 1) / SS
    case Fat32 => (n * 4 + 8 + SS - 1) / SS
  }

  function GuessType(n: nat): FatType {
    if n >= 0xFFF5 then Fat32 else if n >= 0xFF5 then Fat16 else Fat12
  }

  /** With the cluster size left to f_mkfs there are 12-bit tables below 128000 sectors, 32-bit ones from 4193600 on,
      and
      16-bit ones between; clusters have 64 sectors from 2048000 on, and half as many for each halving down to 4. */
  lemma AutoTypes(n_part: nat)
    ensures var spc := ClusterSectors(n_part, 0);
      && 1 <= spc <= 64
      && GuessType(PerCluster(n_part, spc)) ==
           (if n_part < 128000 then Fat12 else if n_part < 4193600 then Fat16 else Fat32)
      && (n_part >= 2048000 ==> spc == 64)
      && (128000 <= n_part < 2048000 ==> 32000 * spc <= n_part < 64000 * spc)
      && (4000 <= n_part < 128000 ==> 2000 * spc <= n_part < 4000 * spc)
  {
    AutoSectors(n_part);
    var spc := ClusterSectors(n_part, 0);
    hide SizeTable, ClusterTable, FirstEntry, PerCluster, ClusterSectors;
    FewerClusters(n_part, spc, 4085);
    FewerClusters(n_part, spc, 65525);
  }

  lemma AutoSectors(n_part: nat)
    ensures ClusterSectors(n_part, 0) ==
      if n_part >= 2048000 then 64 else if n_part >= 1024000 then 32 else if n_part >= 512000 then 16
      else if n_part >= 256000 then 8 else if n_part >= 128000 then 4 else if n_part >= 64000 then 32
      else if n_part >= 32000 then 16 else if n_part >= 16000 then 8 else if n_part >= 8000 then 4
      else if n_part >= 4000 then 2 else 1
  {
    var k := FirstEntry(n_part, 0);
    EntryValues(k);
    if k > 0 {
      EntryValues(k - 1);
      assert n_part < SizeTable()[k - 1];
    }
  }

  lemma FewerClusters(x: nat, m: nat, c: nat)
    requires m >= 1
    ensures PerCluster(x, m) < c <==> x < c * m
  {
    var n := x / m;
    assert x == n * m + x % m;
    if n < c { MulLess(n + 1, c, m); } else { MulLess(c, n, m); }
  }

  lemma EntryValues(k: nat)
    requires k <= 10
    ensures (SizeTable()[k], ClusterTable()[k] / SS) ==
      [(2048000, 64), (1024000, 32), (512000, 16), (256000, 8), (128000, 4), (64000, 32), (32000, 16), (16000, 8),
       (8000, 4), (4000, 2), (0, 1)][k]
  {
  }

  /** The table has room for the entries of n clusters and the two reserved ones, if it was computed for at least as
      many. */
  lemma TableRoom(t: FatType, n: nat, m: nat, size: nat)
    requires n <= m && size >= TableSectors(t, m)
    ensures Roomy(t, size, n + 2)
  {
    forall c: nat {:trigger Offset(t, c)} | c < n + 2
      ensures Offset(t, c) + Width(t) <= size * SS
    {
      var s := TableSectors(t, m);
      assert s * SS <= size * SS;
      match t
      case Fat12 =>
        assert s * SS >= (m * 3 + 1) / 2 + 3;
        assert c * 3 / 2 + 2 <= (m * 3 + 3) / 2 + 2;
      case Fat16 =>
        assert s * SS >= m * 2 + 4;
      case Fat32 =>
        assert s * SS >= m * 4 + 8;
    }
  }

  /** For 12-bit entries the size before rounding to sectors is exactly what the last entry needs. */
  lemma Tight12(n: nat)
    ensures Offset(Fat12, n + 1) + Width(Fat12) == (n * 3 + 1) / 2 + 3
  {
    assert (n + 1) * 3 / 2 + 2 == (n * 3 + 3) / 2 + 2;
  }

  /** How many clusters of spc sectors there are in so many sectors. */
  function PerCluster(sectors: nat, spc: nat): nat
    requires spc >= 1
  {
    sectors / spc
  }

  /** What the reserved sectors, the table and the root directory take stays far below the partition. */
  lemma OverheadFits(n_part: nat, spc: nat, t: FatType, n: nat)
    requires n_part >= MIN_SECTOR - 63 && spc >= 1 && n == PerCluster(n_part, spc)
    ensures n <= n_part && TableSectors(t, n) + 33 + 32 + BLOCK <= n_part
  {
    Quotient(n_part, spc);
    match t
    case Fat12 => assert TableSectors(t, n) <= n / 256 + 2;
    case Fat16 => assert TableSectors(t, n) <= n / 256 + 2;
    case Fat32 => assert TableSectors(t, n) <= n / 128 + 3;
  }

  lemma Quotient(x: nat, m: nat)
    requires m >= 1
    ensures PerCluster(x, m) * m <= x && PerCluster(x, m) <= x
  {
    assert x == x / m * m + x % m;
    MulLess(1, m, x / m);
  }

  lemma Smaller(x: nat, y: nat, m: nat)
    requires x <= y && m >= 1
    ensures PerCluster(x, m) <= PerCluster(y, m)
  {
    Quotient(x, m);
    assert y == y / m * m + y % m;
    if x / m > y / m { MulLess(y / m + 1, x / m, m); }
  }

  /** The sectors of the partition on a disk of n_disk sectors. */
  function PartSectors(n_disk: nat, partition: nat): (n: nat)
    requires n_disk >= MIN_SECTOR
    ensures n <= n_disk
  {
    (if n_disk > MAX_SECTOR then MAX_SECTOR else n_disk) - if partition == 0 then 63 else 0
  }

  /** The layout part of f_mkfs: what is made, auto_mount takes for the same type with the same clusters; every entry
      is inside the table; and the areas lie one behind the other inside the partition. */
  method Mkfs(n_disk: nat, partition: nat, allocsize0: nat) returns (r: Outcome)
    requires allocsize0 == 0 || IsAllocSize(allocsize0)
    ensures n_disk < MIN_SECTOR || partition >= 2 ==> r.Aborted?
    ensures n_disk >= MIN_SECTOR && partition < 2 && r.Aborted? ==>
      var n_part := PartSectors(n_disk, partition);
      OnTheEdge(n_part, ClusterSectors(n_part, allocsize0))
    ensures r.Made? ==>
      && n_disk >= MIN_SECTOR && r.b_part == (if partition == 0 then 63 else 0)
      && r.n_part == PartSectors(n_disk, partition)
      && r.b_part + r.n_part <= n_disk
      && r.bpb.secPerClus > 0 && TotalSectors(r.bpb) >= r.bpb.rsvdSecCnt + FatSize(r.bpb) * r.bpb.numFats
          + r.bpb.rootEntCnt / 16
      && var g := Mount(r.bpb, r.b_part);
      && g.fs_type == r.fmt && g.max_clust == r.n_clst + 2 && Sane(g, r.b_part + r.n_part)
      && g.database % BLOCK == 0 && g.database == g.fatbase + g.sects_fat + r.bpb.rootEntCnt / 16
      && g.csize == ClusterSectors(r.n_part, allocsize0) && Rooted(g, r.b_part)
      && g.fatbase == r.b_part + if r.fmt == Fat32 then 33 - partition else 1 + partition
  {
    hide Mount, Sane, OnTheEdge, FatSize, TotalSectors;
    if partition >= 2 {
      return Aborted;
    }
    if n_disk < MIN_SECTOR {
      return Aborted;
    }
    var n_part := n_disk;
    if n_part > MAX_SECTOR {
      n_part := MAX_SECTOR;
    }
    var b_part := if partition == 0 then 63 else 0;
    n_part := n_part - b_part;
    var allocsize := allocsize0;
    if allocsize == 0 {
      allocsize := AutoSize(n_part);
    }
    var spc := allocsize / SS;
    r := Layout1(b_part, n_part, partition, spc);
    assert n_part == PartSectors(n_disk, partition);
    assert r.Aborted? ==> OnTheEdge(PartSectors(n_disk, partition), spc);
  }

  /** The clusters that the tables leave are fewer than the type assumed for them needs. */
  predicate OnTheEdge(n_part: nat, spc: nat) {
    && spc >= 1 && var n := PerCluster(n_part, spc);
    var t := GuessType(n);
    n_part >= TableSectors(t, n) + 33 + 32 + BLOCK
        && t != GuessType(PerCluster(n_part - TableSectors(t, n) - 33 - 32 - BLOCK, spc))
  }

  lemma EdgeTest(n_part: nat, spc: nat, rest: nat)
    requires spc >= 1 && rest <= n_part && var n := PerCluster(n_part, spc);
      rest >= n_part - TableSectors(GuessType(n), n) - 33 - 32 - BLOCK >= 0
    requires var t := GuessType(PerCluster(n_part, spc));
      (t == Fat16 && PerCluster(rest, spc) < 0xFF5) || (t == Fat32 && PerCluster(rest, spc) < 0xFFF5)
    ensures OnTheEdge(n_part, spc)
  {
    var n := PerCluster(n_part, spc);
    Smaller(n_part - TableSectors(GuessType(n), n) - 33 - 32 - BLOCK, rest, spc);
  }

  /** From the number of sectors per cluster on. */
  method Layout1(b_part: nat, n_part: nat, partition: nat, spc: nat) returns (r: Outcome)
    requires partition <= 1 && MIN_SECTOR - 63 <= n_part && b_part == (if partition == 0 then 63 else 0)
    requires b_part + n_part <= MAX_SECTOR && 1 <= spc <= 64
    ensures r.Aborted? ==> OnTheEdge(n_part, spc)
    ensures r.Made? ==>
      && r.b_part == b_part && r.n_part == n_part
      && r.bpb.secPerClus == spc && TotalSectors(r.bpb) >= r.bpb.rsvdSecCnt + FatSize(r.bpb) * r.bpb.numFats
          + r.bpb.rootEntCnt / 16
      && var g := Mount(r.bpb, b_part);
      && g.fs_type == r.fmt && g.max_clust == r.n_clst + 2 && g.csize == spc && Sane(g, b_part + n_part)
      && g.database % BLOCK == 0 && g.database == g.fatbase + g.sects_fat + r.bpb.rootEntCnt / 16
      && Rooted(g, b_part) && g.fatbase == b_part + if r.fmt == Fat32 then 33 - partition else 1 + partition
  {
    hide Mount, Record, Roomy, Sane, TableSectors, FatSize, TotalSectors, PerCluster, OnTheEdge;
    var n_clst := PerCluster(n_part, spc);
    ghost var guess := n_clst;
    var fmt := GuessType(n_clst);
    var n_fat := TableSectors(fmt, n_clst);
    var n_rsv := if fmt == Fat32 then 33 - partition else 1 + partition;
    var n_dir := if fmt == Fat32 then 0 else N_ROOTDIR * 32 / SS;
    OverheadFits(n_part, spc, fmt, n_clst);
    SmallTable(n_clst);
    var b_data := b_part + n_rsv + n_fat + n_dir;
    var n := (b_data + BLOCK - 1) / BLOCK * BLOCK;
    RoundedUp(b_data, n);
    n_fat := n_fat + (n - b_data);
    n_clst := PerCluster(n_part - n_rsv - n_fat - n_dir, spc);
    if (fmt == Fat16 && n_clst < 0xFF5) || (fmt == Fat32 && n_clst < 0xFFF5) {
      EdgeTest(n_part, spc, n_part - n_rsv - n_fat - n_dir);
      return Aborted;
    }
    Smaller(n_part - n_rsv - n_fat - n_dir, n_part, spc);
    Quotient(n_part - n_rsv - n_fat - n_dir, spc);
    TableRoom(fmt, n_clst, guess, n_fat);
    var bpb := Record(n_part, spc, n_rsv, n_dir, n_fat, fmt);
    MountMade(b_part, n_part, spc, n_rsv, n_dir, n_fat, fmt, n_clst);
    r := Made(bpb, b_part, n_part, fmt, n_clst);
  }

  /** The boot record as f_mkfs stores it. */
  function Record(n_part: nat, spc: nat, n_rsv: nat, n_dir: nat, n_fat: nat, fmt: FatType): Bpb {
    Bpb(spc % 0x100, Word16(n_rsv), 1, Word16(SS / 32 * n_dir),
        if n_part < 0x1_0000 then Word16(n_part) else 0, if n_part < 0x1_0000 then 0 else n_part,
        if fmt == Fat32 then 0 else Word16(n_fat), if fmt == Fat32 then n_fat else 0,
        if fmt == Fat32 then 2 else 0, if fmt == Fat32 then 1 else 0)
  }

  lemma SmallTable(n: nat)
    ensures TableSectors(GuessType(n), n) > 0 && (GuessType(n) != Fat32 ==> TableSectors(GuessType(n), n) <= 300)
  {
  }

  lemma RoundedUp(x: nat, n: nat)
    requires n == (x + BLOCK - 1) / BLOCK * BLOCK
    ensures x <= n < x + BLOCK && n % BLOCK == 0
  {
    ModOfMultiple((x + BLOCK - 1) / BLOCK, BLOCK);
  }

  /** One table; the root directory behind it or, for 32 bits, in cluster 2, with the information sector right behind
      the
      boot record. */
  predicate Rooted(g: Layout, b_part: nat) {
    && g.n_fats == 1
    && if g.fs_type == Fat32 then g.dirbase == 2 && g.fsi_sector == b_part + 1
       else g.dirbase == g.fatbase + g.sects_fat
  }

  /** auto_mount on the record of f_mkfs. */
  lemma MountMade(b_part: nat, n_part: nat, spc: nat, n_rsv: nat, n_dir: nat, n_fat: nat, fmt: FatType, n_clst: nat)
    requires 1 <= spc <= 64 && 1 <= n_rsv <= 33 && n_dir == (if fmt == Fat32 then 0 else 32)
      && (fmt == Fat32 ==> n_rsv >= 32)
    requires 0 < n_part && n_rsv + n_fat + n_dir <= n_part <= MAX_SECTOR && n_fat > 0
      && (fmt != Fat32 ==> n_fat < 0x1_0000)
    requires n_clst == PerCluster(n_part - n_rsv - n_fat - n_dir, spc) && n_clst * spc <= n_part - n_rsv - n_fat - n_dir
      && n_clst <= n_part
    requires TypeOf(n_clst + 2) == fmt && Roomy(fmt, n_fat, n_clst + 2) && (b_part > 0 || n_rsv > 0)
    ensures var b := Record(n_part, spc, n_rsv, n_dir, n_fat, fmt);
      && b.secPerClus == spc && TotalSectors(b) >= b.rsvdSecCnt + FatSize(b) * b.numFats + b.rootEntCnt / 16
      && var g := Mount(b, b_part);
      && g.fs_type == fmt && g.max_clust == n_clst + 2 && g.csize == spc && Sane(g, b_part + n_part)
      && g.database == b_part + n_rsv + n_fat + n_dir && g.fatbase == b_part + n_rsv && g.sects_fat == n_fat
      && b.rootEntCnt / 16 == n_dir && Rooted(g, b_part)
  {
    hide Roomy;
    var b := Record(n_part, spc, n_rsv, n_dir, n_fat, fmt);
    SmallMod(spc, 0x100);
    SmallMod(n_rsv, 0x1_0000);
    SmallMod(SS / 32 * n_dir, 0x1_0000);
    if n_part < 0x1_0000 { SmallMod(n_part, 0x1_0000); }
    if fmt != Fat32 { SmallMod(n_fat, 0x1_0000); }
    assert FatSize(b) == n_fat && TotalSectors(b) == n_part && b.rootEntCnt / 16 == n_dir;
  }
}
