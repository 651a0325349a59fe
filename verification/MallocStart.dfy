/** The heap before and at its first request: init_bins and init_top in wiinandfuse/geckonand/malloc.c. */
module Starting {
  import opened Sizes
  import opened BinMaps
  import opened Tries
  import opened Chunks
  import opened Bins
  import opened Lists
  import opened Linking
  import opened Segments

  /** Every small bin's header linked to itself, no chunks in any bin. */
  ghost function EmptyBins(st: int): Binning {
    Binning(map h | st <= h < st + 256 && IsHeader(st, h) :: Link(h, h, 0, 0, 0, 0),
            map h | st <= h < st + 256 && IsHeader(st, h) :: [h],
            map h | st <= h < st + 256 && IsHeader(st, h) :: h,
            Trie(map[], map[], map[], TreeBins(st)))
  }

  ghost predicate HeaderLinked(m: Mem, st: int, i: int) {
    Get(m, Header(st, i) + 8) == Header(st, i) && Get(m, Header(st, i) + 12) == Header(st, i)
  }

  ghost predicate HeadersLinked(m: Mem, st: int, n: int) {
    forall i {:trigger HeaderLinked(m, st, i)} :: 0 <= i < n ==> HeaderLinked(m, st, i)
  }

  /** init_bins, one header at a time. */
  lemma LinkHeader(m: Mem, st: int, n: int)
    requires HeadersLinked(m, st, n) && n >= 0
    ensures HeadersLinked(m[Header(st, n) + 8 := Header(st, n)][Header(st, n) + 12 := Header(st, n)], st, n + 1)
  {
    var m' := m[Header(st, n) + 8 := Header(st, n)][Header(st, n) + 12 := Header(st, n)];
    forall i | 0 <= i < n + 1
      ensures HeaderLinked(m', st, i)
    {
      if i < n { assert HeaderLinked(m, st, i); }
    }
  }

  ghost predicate AllZero(tb: seq<int>) {
    |tb| == 32 && forall i {:trigger tb[i]} :: 0 <= i < 32 ==> tb[i] == 0
  }

  /** The first top, with empty bins. */
  lemma FirstHeap(m: Mem, st: int, tb: seq<int>, top: int, size: int)
    requires 0 < st && st + 400 <= top && top % 8 == 0 && size % 8 == 0 && size >= 8
    requires Get(m, top + 4) == Head(size, false, true) && HeadersLinked(m, st, 32) && AllZero(tb)
    ensures var C, B := map[top := Chunk(size, Wild, 0)], EmptyBins(st);
      && Ground(C, top, top, st, m, B.L, m) && BinsOK(B, C, st, tb) && MapsOK(B, st, tb, 0, 0)
      && DvOK(C, 0, 0) && OnlyLoose(C, 0) && Live(C) == {}
  {
    var C, B := map[top := Chunk(size, Wild, 0)], EmptyBins(st);
    FirstTop(m, top, size);
    forall a | a in B.L
      ensures MirrorAt(m, B.L, C, a)
    {
      var i := HeaderIndex(st, a);
      assert HeaderLinked(m, st, i);
    }
    forall h | h in B.rings
      ensures RingOK(B, st, h)
    {
    }
    forall i | 0 <= i < 32
      ensures HeaderOK(B, st, i) && MapOK(B, st, tb, 0, 0, i) && RootOK(tb, B.R, i)
    {
      assert IsHeader(st, Header(st, i));
      EmptyMap(i);
    }
  }

  /** Top extended: nothing else changes. */
  lemma GrowDone(C: Chunks, m: Mem, B: Binning, first: int, top: int, st: int, tb: seq<int>, more: int, m': Mem)
    requires Ground(C, first, top, st, m, B.L, m) && BinsOK(B, C, st, tb) && top in C && more >= 0 && more % 8 == 0
    requires m' == m[top + 4 := Head(C[top].size + more, false, true)][top + (C[top].size + more) + 4 := TOP_FOOT]
    ensures var C' := C[top := C[top].(size := C[top].size + more)];
      && Ground(C', first, top, st, m', B.L, m') && BinsOK(B, C', st, tb)
      && BlocksKept(C, m, C', m', 0) && Live(C') == Live(C)
  {
    assert ChunkOK(C, first, top, top);
    GrowTop(m, C, first, top, more, m');
    hide BinsOK, Tiling, Tags, Mirror, NodesOK, LiveKept, BlocksKept, BinnedKept, LowKept, Head;
    AfterStep(C, m, B, C[top := C[top].(size := C[top].size + more)], m', first, top, top, st, tb, 0);
  }

  lemma GrowDv(C: Chunks, top: int, dv: int, dvsize: int, size: int)
    requires DvOK(C, dv, dvsize) && OnlyLoose(C, 0) && top in C && C[top].kind == Wild
    ensures var C' := C[top := C[top].(size := size)]; DvOK(C', dv, dvsize) && OnlyLoose(C', 0)
  {
  }
}
