/** The bytes of a file in the sectors of its cluster chain: wiinandfuse/geckonand/ff.c. */
module FatData {
  import opened Arith
  import opened FatTable
  import opened FatChains
  import opened FatVolume

  /** Sector k of cluster c. */
  function SectorOf(g: Layout, c: int, k: int): int {
    (c - 2) * g.csize + g.database + k
  }

  /** clust2sect: 0 for what is no cluster. */
  function Clust2Sect(g: Layout, c: nat): int {
    if c < 2 || c >= g.max_clust then 0 else SectorOf(g, c, 0)
  }

  /** Sector i of the file with this chain. */
  function FileSector(g: Layout, chain: seq<nat>, i: nat): int
    requires g.csize >= 1 && i / g.csize < |chain|
  {
    SectorOf(g, chain[i / g.csize], i % g.csize)
  }

  /** The chain's clusters are clusters of the volume, and distinct. */
  ghost predicate Clusters(g: Layout, chain: seq<nat>) {
    g.csize >= 1 && (forall i :: 0 <= i < |chain| ==> 2 <= chain[i] < g.max_clust) && NoRepeats(chain)
  }

  lemma SectorInside(g: Layout, sectors: nat, c: int, k: int)
    requires Sane(g, sectors) && 2 <= c < g.max_clust && 0 <= k < g.csize
    ensures g.database <= SectorOf(g, c, k) < sectors
    ensures !InFat(g, SectorOf(g, c, k)) && !InCopies(g, SectorOf(g, c, k)) && SectorOf(g, c, k) >= g.fatbase > 0
  {
    DataRoom(g, sectors);
    hide Sane;
    MulLess(0, c - 2, g.csize);
    MulLess(c - 1, g.max_clust - 2, g.csize);
    assert (c - 1) * g.csize == (c - 2) * g.csize + g.csize;
  }

  lemma SectorsDistinct(g: Layout, c: int, k: int, d: int, l: int)
    requires c >= 2 && d >= 2 && 0 <= k < g.csize && 0 <= l < g.csize && SectorOf(g, c, k) == SectorOf(g, d, l)
    ensures c == d && k == l
  {
    DivModUnique((c - 2) * g.csize + k, c - 2, g.csize, k);
    DivModUnique((d - 2) * g.csize + l, d - 2, g.csize, l);
  }

  lemma IndexParts(i: nat, m: nat)
    requires m >= 1
    ensures i == i / m * m + i % m && 0 <= i % m < m && i / m >= 0
  {
  }

  lemma FileSectorInside(g: Layout, sectors: nat, chain: seq<nat>, i: nat)
    requires Clusters(g, chain) && i / g.csize < |chain|
    requires Sane(g, sectors)
    ensures var s := FileSector(g, chain, i);
      g.database <= s < sectors && !InFat(g, s) && !InCopies(g, s) && s >= g.fatbase && s > 0
  {
    hide Sane;
    IndexParts(i, g.csize);
    SectorInside(g, sectors, chain[i / g.csize], i % g.csize);
  }

  lemma ClustPlace(g: Layout, sectors: nat, c: nat, k: nat)
    requires Sane(g, sectors) && 2 <= c < g.max_clust && k < g.csize
    ensures Clust2Sect(g, c) > 0 && SectorOf(g, c, k) == Clust2Sect(g, c) + k
  {
    SectorInside(g, sectors, c, 0);
    hide Sane;
  }

  /** The first cluster, number 2, is at the start of the data area, and each next one csize sectors further. */
  lemma ClustersInRow(g: Layout, c: nat)
    ensures g.max_clust > 2 ==> Clust2Sect(g, 2) == g.database
    ensures 2 <= c && c + 1 < g.max_clust ==> Clust2Sect(g, c + 1) == Clust2Sect(g, c) + g.csize
    ensures c < 2 || c >= g.max_clust ==> Clust2Sect(g, c) == 0
  {
    assert (c + 1 - 2) * g.csize == (c - 2) * g.csize + g.csize;
  }

  /** Different sectors of a file are different sectors of the disk. */
  lemma FileSectorsDistinct(g: Layout, chain: seq<nat>, i: nat, j: nat)
    requires Clusters(g, chain) && i / g.csize < |chain| && j / g.csize < |chain|
    requires FileSector(g, chain, i) == FileSector(g, chain, j)
    ensures i == j
  {
    IndexParts(i, g.csize);
    IndexParts(j, g.csize);
    SectorsDistinct(g, chain[i / g.csize], i % g.csize, chain[j / g.csize], j % g.csize);
    hide SectorOf;
    SameParts(i, j, g.csize);
  }

  lemma SameParts(i: nat, j: nat, m: nat)
    requires m >= 1
    ensures i / m == j / m && i % m == j % m ==> i == j
  {
    IndexParts(i, m);
    IndexParts(j, m);
  }

  // ---------- the contents ----------

  /** Byte p of the file is w[p]. */
  ghost predicate ByteHeld(g: Layout, chain: seq<nat>, V: Disk, w: seq<byte>, p: nat) {
    && g.csize >= 1 && p < |w| && p / SS / g.csize < |chain|
    && 0 <= FileSector(g, chain, p / SS) < |V| && V[FileSector(g, chain, p / SS)][p % SS] == w[p]
  }

  /** The file starts with w. */
  ghost predicate Holds(g: Layout, chain: seq<nat>, V: Disk, w: seq<byte>) {
    forall p: nat {:trigger ByteHeld(g, chain, V, w, p)} :: p < |w| ==> ByteHeld(g, chain, V, w, p)
  }

  /** Byte q of w is where the layout has it: in the q / 512-th sector of the chain, csize of which are in a cluster. */
  ghost predicate ByteOnDisk(g: Layout, chain: seq<nat>, V: Disk, w: seq<byte>, q: nat) {
    && g.csize >= 1 && q < |w| && q / 512 / g.csize < |chain|
    && var s := g.database + (chain[q / 512 / g.csize] - 2) * g.csize + q / 512 % g.csize;
       0 <= s < |V| && V[s][q % 512] == w[q]
  }

  ghost predicate OnDisk(g: Layout, chain: seq<nat>, V: Disk, w: seq<byte>) {
    forall q: nat {:trigger ByteOnDisk(g, chain, V, w, q)} :: q < |w| ==> ByteOnDisk(g, chain, V, w, q)
  }

  lemma HeldOnDisk(g: Layout, chain: seq<nat>, V: Disk, w: seq<byte>)
    requires Holds(g, chain, V, w)
    ensures OnDisk(g, chain, V, w)
  {
    forall q: nat | q < |w|
      ensures ByteOnDisk(g, chain, V, w, q)
    {
      assert ByteHeld(g, chain, V, w, q);
    }
  }

  /** Only sectors that hold nothing of the file yet have changed. */
  ghost predicate Untouched(g: Layout, chain: seq<nat>, n: nat, V: Disk, V': Disk) {
    |V'| == |V| && forall i: nat {:trigger FileSector(g, chain, i)} ::
      g.csize >= 1 && i < n && i / g.csize < |chain| && 0 <= FileSector(g, chain, i) < |V| ==>
        V'[FileSector(g, chain, i)] == V[FileSector(g, chain, i)]
  }

  lemma HoldsUntouched(g: Layout, chain: seq<nat>, n: nat, V: Disk, V': Disk, w: seq<byte>)
    requires Holds(g, chain, V, w) && Untouched(g, chain, n, V, V') && |w| <= n * SS
    ensures Holds(g, chain, V', w)
  {
    forall p: nat | p < |w|
      ensures ByteHeld(g, chain, V', w, p)
    {
      assert ByteHeld(g, chain, V, w, p);
      assert p / SS < n;
    }
  }

  /** The same bytes through a longer chain. */
  lemma HoldsLonger(g: Layout, chain: seq<nat>, c: nat, V: Disk, w: seq<byte>)
    requires Holds(g, chain, V, w)
    ensures Holds(g, chain + [c], V, w)
  {
    forall p: nat | p < |w|
      ensures ByteHeld(g, chain + [c], V, w, p)
    {
      assert ByteHeld(g, chain, V, w, p);
    }
  }

  /** Whole sectors are added behind the last one. */
  lemma HoldsSector(g: Layout, chain: seq<nat>, V: Disk, w: seq<byte>, c: Sector)
    requires Holds(g, chain, V, w) && Clusters(g, chain) && |w| % SS == 0 && |w| / SS / g.csize < |chain|
    requires 0 <= FileSector(g, chain, |w| / SS) < |V|
    ensures Holds(g, chain, V[FileSector(g, chain, |w| / SS) := c], w + c)
  {
    var n, s := |w| / SS, FileSector(g, chain, |w| / SS);
    var V', w' := V[s := c], w + c;
    hide FileSector;
    forall p: nat | p < |w'|
      ensures ByteHeld(g, chain, V', w', p)
    {
      if p < |w| {
        assert ByteHeld(g, chain, V, w, p);
        assert p / SS < n;
        if FileSector(g, chain, p / SS) == s { FileSectorsDistinct(g, chain, p / SS, n); }
      } else {
        DivModUnique(p, n, SS, p - |w|);
      }
    }
  }

  /** c with the bytes of d written at offset o. */
  function Patched(c: Sector, o: nat, d: seq<byte>): (c': Sector)
    requires o + |d| <= SS
    ensures forall k :: 0 <= k < SS ==> c'[k] == if o <= k < o + |d| then d[k - o] else c[k]
  {
    c[..o] + d + c[o + |d|..]
  }

  /** Bytes are added to the last sector, which is n. */
  lemma HoldsBytes(g: Layout, chain: seq<nat>, V: Disk, w: seq<byte>, n: nat, d: seq<byte>)
    requires Holds(g, chain, V, w) && Clusters(g, chain) && n * SS <= |w| && |w| + |d| <= n * SS + SS
      && n / g.csize < |chain|
    requires 0 <= FileSector(g, chain, n) < |V|
    ensures var s := FileSector(g, chain, n); Holds(g, chain, V[s := Patched(V[s], |w| - n * SS, d)], w + d)
  {
    var s := FileSector(g, chain, n);
    var V', w' := V[s := Patched(V[s], |w| - n * SS, d)], w + d;
    hide FileSector;
    forall p: nat | p < |w'|
      ensures ByteHeld(g, chain, V', w', p)
    {
      if p >= n * SS { DivModUnique(p, n, SS, p - n * SS); }
      if p < |w| {
        assert ByteHeld(g, chain, V, w, p);
        if p < n * SS && FileSector(g, chain, p / SS) == s { FileSectorsDistinct(g, chain, p / SS, n); }
      }
    }
  }

  /** A run of bytes inside one sector of the file. */
  lemma ReadBytes(g: Layout, chain: seq<nat>, V: Disk, w: seq<byte>, n: nat, o: nat, k: nat)
    requires Holds(g, chain, V, w) && g.csize >= 1 && o + k <= SS && n * SS + o + k <= |w| && n / g.csize < |chain|
    requires 0 <= FileSector(g, chain, n) < |V|
    ensures V[FileSector(g, chain, n)][o..o + k] == w[n * SS + o..n * SS + o + k]
  {
    var a, b := V[FileSector(g, chain, n)][o..o + k], w[n * SS + o..n * SS + o + k];
    hide FileSector;
    forall i | 0 <= i < k
      ensures a[i] == b[i]
    {
      assert ByteHeld(g, chain, V, w, n * SS + o + i);
      DivModUnique(n * SS + o + i, n, SS, o + i);
    }
  }

  // ---------- what the other files keep ----------

  /** A cluster that a file with this chain may write to: its own, or a free one. */
  ghost predicate Own(F: seq<nat>, chain: seq<nat>, c: int) {
    IsCluster(F, c) && (F[c] == 0 || c in chain)
  }

  /** s is a sector of such a cluster. */
  ghost predicate OwnSector(g: Layout, F: seq<nat>, chain: seq<nat>, s: int) {
    exists c, k {:trigger SectorOf(g, c, k)} :: Own(F, chain, c) && 0 <= k < g.csize && SectorOf(g, c, k) == s
  }

  /** Everything outside the table and outside such clusters is as it was. */
  ghost predicate Spared(g: Layout, F: seq<nat>, chain: seq<nat>, L: Disk, L': Disk) {
    |L'| == |L| && forall s: nat {:trigger OwnSector(g, F, chain, s)} ::
      s < |L| && !InFat(g, s) && !InCopies(g, s) && !OwnSector(g, F, chain, s) ==> L'[s] == L[s]
  }

  /** The clusters that may be written to later are among those that may be written to now, and a full table has
      stayed full. */
  ghost predicate Within(F: seq<nat>, chain: seq<nat>, F': seq<nat>, chain': seq<nat>) {
    && (forall c {:trigger Own(F', chain', c)} :: Own(F', chain', c) ==> Own(F, chain, c))
    && (Full(F) ==> Full(F'))
  }

  lemma SparedSame(g: Layout, F: seq<nat>, chain: seq<nat>, L: Disk, M: Disk, N: Disk)
    requires Spared(g, F, chain, L, M) && DataKept(g, M, N)
    ensures Spared(g, F, chain, L, N)
  {
  }

  lemma SparedWrite(g: Layout, F: seq<nat>, chain: seq<nat>, L: Disk, M: Disk, c: int, k: int, x: Sector)
    requires Spared(g, F, chain, L, M) && Own(F, chain, c) && 0 <= k < g.csize && 0 <= SectorOf(g, c, k) < |M|
    ensures Spared(g, F, chain, L, M[SectorOf(g, c, k) := x])
  {
    assert OwnSector(g, F, chain, SectorOf(g, c, k));
  }

  /** A sector of the file is written. */
  lemma FileSpared(g: Layout, F: seq<nat>, chain: seq<nat>, L: Disk, M: Disk, F': seq<nat>, chain': seq<nat>, i: nat,
      x: Sector)
    requires Spared(g, F, chain, L, M) && Within(F, chain, F', chain') && g.csize >= 1 && i / g.csize < |chain'|
    requires Own(F', chain', chain'[i / g.csize]) && 0 <= FileSector(g, chain', i) < |M|
    ensures Spared(g, F, chain, L, M[FileSector(g, chain', i) := x])
  {
    IndexParts(i, g.csize);
    SparedWrite(g, F, chain, L, M, chain'[i / g.csize], i % g.csize, x);
  }

  lemma WithinSector(g: Layout, F: seq<nat>, chain: seq<nat>, F': seq<nat>, chain': seq<nat>, s: int)
    requires Within(F, chain, F', chain') && OwnSector(g, F', chain', s)
    ensures OwnSector(g, F, chain, s)
  {
    var c, k :| Own(F', chain', c) && 0 <= k < g.csize && SectorOf(g, c, k) == s;
    assert Own(F, chain, c);
  }

  lemma WithinTwice(F: seq<nat>, chain: seq<nat>, F': seq<nat>, chain': seq<nat>, F'': seq<nat>, chain'': seq<nat>)
    requires Within(F, chain, F', chain') && Within(F', chain', F'', chain'')
    ensures Within(F, chain, F'', chain'')
  {
    forall c {:trigger Own(F'', chain'', c)} | Own(F'', chain'', c)
      ensures Own(F, chain, c)
    {
      assert Own(F', chain', c);
    }
  }

  /** The cluster that create_chain adds to a file's chain. */
  lemma ChainGrows(F: seq<nat>, chain: seq<nat>, last: nat, eoc: nat, r: nat, F': seq<nat>)
    requires Forest(F) && (chain == [] || IsChain(F, chain)) && eoc >= |F| && r >= 2
    requires Created(F, if chain == [] then 0 else chain[|chain| - 1], last, eoc, r, F')
    ensures IsChain(F', chain + [r]) && IsCluster(F, r) && Within(F, chain, F', chain + [r])
  {
    if chain != [] {
      AppendChain(F, chain, r, eoc);
    }
    assert !Full(F);
    forall c {:trigger Own(F', chain + [r], c)} | Own(F', chain + [r], c)
      ensures Own(F, chain, c)
    {
    }
  }

  // ---------- reading ----------

  /** n sectors have been read, the last one sector csect - 1 of cluster curr. */
  ghost predicate ReadCursor(g: Layout, chain: seq<nat>, curr: nat, csect: nat, n: nat) {
    g.csize >= 1 && if n == 0 then csect >= g.csize
    else (n - 1) / g.csize < |chain| && curr == chain[(n - 1) / g.csize] && csect == (n - 1) % g.csize + 1
  }

  /** The next sector to read, n, is sector csect of cluster curr. */
  ghost predicate ReadReady(g: Layout, chain: seq<nat>, curr: nat, csect: nat, n: nat) {
    g.csize >= 1 && n / g.csize < |chain| && curr == chain[n / g.csize] && csect == n % g.csize
  }

  lemma ReadSame(g: Layout, chain: seq<nat>, curr: nat, csect: nat, n: nat)
    requires ReadCursor(g, chain, curr, csect, n) && csect < g.csize
    ensures ReadReady(g, chain, curr, csect, n) && n > 0
  {
    var q := (n - 1) / g.csize;
    IndexParts(n - 1, g.csize);
    DivModUnique(n, q, g.csize, csect);
  }

  lemma ReadyCluster(g: Layout, chain: seq<nat>, curr: nat, csect: nat, n: nat)
    requires Clusters(g, chain) && ReadReady(g, chain, curr, csect, n)
    ensures 2 <= curr < g.max_clust
  {
  }

  /** The cluster after a full one is the next of the chain. */
  lemma ReadTurn(g: Layout, F: seq<nat>, chain: seq<nat>, curr: nat, csect: nat, n: nat)
    requires ReadCursor(g, chain, curr, csect, n) && csect >= g.csize && n / g.csize < |chain| && IsChain(F, chain)
    ensures ReadReady(g, chain, if n == 0 then chain[0] else F[curr], 0, n)
    ensures n > 0 ==> IsCluster(F, curr)
  {
    if n > 0 {
      var q := (n - 1) / g.csize;
      IndexParts(n - 1, g.csize);
      assert n == (q + 1) * g.csize;
      DivModUnique(n, q + 1, g.csize, 0);
      assert F[chain[q]] == chain[q + 1];
    } else {
      DivModUnique(0, 0, g.csize, 0);
    }
  }

  lemma ReadMore(g: Layout, chain: seq<nat>, curr: nat, csect: nat, n: nat, k: nat)
    requires ReadReady(g, chain, curr, csect, n) && csect + k <= g.csize && k > 0
    ensures ReadCursor(g, chain, curr, csect + k, n + k)
  {
    var q := n / g.csize;
    IndexParts(n, g.csize);
    DivModUnique(n + k - 1, q, g.csize, csect + k - 1);
  }

  lemma ReadPlace(g: Layout, chain: seq<nat>, curr: nat, csect: nat, n: nat, i: nat)
    requires ReadReady(g, chain, curr, csect, n) && csect + i < g.csize
    ensures (n + i) / g.csize < |chain| && FileSector(g, chain, n + i) == SectorOf(g, curr, csect + i)
  {
    IndexParts(n, g.csize);
    DivModUnique(n + i, n / g.csize, g.csize, csect + i);
  }

  /** d with data in place of what was at off. */
  function Spliced(d: seq<byte>, off: nat, data: seq<byte>): (d': seq<byte>)
    requires off + |data| <= |d|
    ensures |d'| == |d|
  {
    d[..off] + data + d[off + |data|..]
  }
}
