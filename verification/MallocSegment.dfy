/** Segment changes seen from the bins, and the set of live blocks: wiinandfuse/geckonand/malloc.c. */
module Segments {
  import opened Sizes
  import opened Tries
  import opened Chunks
  import opened Bins
  import opened Lists

  /** Heads and feet may change under the bins. */
  lemma AfterStep(C: Chunks, m: Mem, B: Binning, C': Chunks, m': Mem, first: int, top: int, top': int, st: int,
      tb: seq<int>, p: int)
    requires Ground(C, first, top, st, m, B.L, m) && BinsOK(B, C, st, tb) && Step(C, m, C', m', first, top', p)
    ensures Ground(C', first, top', st, m', B.L, m') && BinsOK(B, C', st, tb)
  {
    AfterStepMirror(C, m, B, C', m', first, top', st);
    AfterStepMembers(C, m, B, C', m', first, top', st);
  }

  lemma AfterStepMirror(C: Chunks, m: Mem, B: Binning, C': Chunks, m': Mem, first: int, top': int, st: int)
    requires Mirror(m, B.L, C) && NodesOK(B.L, C, st, first) && MembersOK(B, C, st)
    requires BinnedKept(C, m, C', m') && LowKept(m, m', first) && Tiling(C', first, top')
    ensures Mirror(m', B.L, C') && NodesOK(B.L, C', st, first)
  {
    forall a | a in B.L
      ensures MirrorAt(m', B.L, C', a)
    {
      assert MirrorAt(m, B.L, C, a);
      if IsHeader(st, a) {
        assert a in C' ==> ChunkOK(C', first, top', a);
      } else {
        assert MemberOK(B, C, st, a);
        assert InteriorKept(m, m', a, C[a].size);
        assert C'[a].size == C[a].size;
      }
    }
  }

  lemma AfterStepMembers(C: Chunks, m: Mem, B: Binning, C': Chunks, m': Mem, first: int, top': int, st: int)
    requires NodesOK(B.L, C, st, first) && MembersOK(B, C, st) && BinnedKept(C, m, C', m') && Tiling(C', first, top')
    ensures MembersOK(B, C', st)
  {
    forall y | y in B.L && !IsHeader(st, y)
      ensures MemberOK(B, C', st, y)
    {
      assert MemberOK(B, C, st, y);
    }
    forall i | 0 <= i < 32
      ensures Header(st, i) !in C'
    {
      assert Header(st, i) in C' ==> ChunkOK(C', first, top', Header(st, i));
    }
  }

  // ---------- live blocks ----------

  /** The chunks in the caller's hands. */
  function Live(C: Chunks): set<int> {
    set a | a in C && C[a].kind == Used
  }

  lemma LiveRecolor(C: Chunks, x: int, k: Kind)
    requires x in C && C[x].kind != Used
    ensures Live(Recolor(C, x, k)) == if k == Used then Live(C) + {x} else Live(C)
    ensures x !in Live(C)
  {
  }

  /** Bin operations change no live block. */
  lemma BinsKeepBlocks(C: Chunks, m0: Mem, m: Mem, x: int, k: Kind)
    requires x in C && C[x].kind != Used && k != Used && LiveKept(Recolor(C, x, k), m0, m)
    ensures BlocksKept(C, m0, Recolor(C, x, k), m, 0) && Live(Recolor(C, x, k)) == Live(C)
  {
    var C' := Recolor(C, x, k);
    forall a | a in C && C[a].kind == Used && a != 0
      ensures Survives(C, m0, C', m, a)
    {
      assert C'[a] == C[a];
      assert Undisturbed(m0, m, a, C'[a].size);
    }
    LiveRecolor(C, x, k);
  }

  lemma LiveKeptSame(C: Chunks, m: Mem)
    ensures LiveKept(C, m, m)
  {
    forall a | a in C && C[a].kind == Used
      ensures Undisturbed(m, m, a, C[a].size)
    {
    }
  }

  /** What a successful request delivers: one new live block of at least nb and less than nb + 16 bytes; the others
      stay. */
  ghost predicate Placed(C: Chunks, m: Mem, C': Chunks, m': Mem, p: int, nb: int) {
    && p !in Live(C) && Live(C') == Live(C) + {p} && p in C' && C'[p].kind == Used && nb <= C'[p].size < nb + MIN_CHUNK
    && BlocksKept(C, m, C', m', 0)
  }

  lemma KeptOthers(C: Chunks, m: Mem, C': Chunks, m': Mem, p: int)
    requires BlocksKept(C, m, C', m', p) && p !in Live(C)
    ensures BlocksKept(C, m, C', m', 0)
  {
    forall a | a in C && C[a].kind == Used && a != 0
      ensures Survives(C, m, C', m', a)
    {
      assert a in Live(C);
    }
  }

  /** A bin operation before the segment changes. */
  lemma PlacedAfter(C: Chunks, m: Mem, C1: Chunks, m1: Mem, C2: Chunks, m2: Mem, p: int, nb: int)
    requires BlocksKept(C, m, C1, m1, 0) && Live(C1) == Live(C) && Placed(C1, m1, C2, m2, p, nb)
    ensures Placed(C, m, C2, m2, p, nb)
  {
    BlocksKeptTwice(C, m, C1, m1, C2, m2, 0, 0);
  }

  /** A bin operation after it. */
  lemma PlacedBefore(C: Chunks, m: Mem, C1: Chunks, m1: Mem, C2: Chunks, m2: Mem, p: int, nb: int)
    requires Placed(C, m, C1, m1, p, nb) && BlocksKept(C1, m1, C2, m2, 0) && Live(C2) == Live(C1) && p != 0
    ensures Placed(C, m, C2, m2, p, nb)
  {
    BlocksKeptTwice(C, m, C1, m1, C2, m2, 0, 0);
    assert Survives(C1, m1, C2, m2, p);
  }

  lemma LiveCut(C: Chunks, first: int, top: int, v: int, nb: int, k: Kind)
    requires Tiling(C, first, top) && v in C && CanCut(C, top, v, nb, k) && C[v].kind != Used && k != Used
    ensures Live(Cut(C, v, nb, k)) == Live(C) + {v} && v !in Live(C)
  {
    assert ChunkOK(C, first, top, v);
    if v + nb in C { Outside(C, first, top, v, v + nb); }
  }

  // ---------- the designated victim ----------

  /** dv is the one chunk of its kind, of size dvsize; there is none when dvsize is 0. */
  ghost predicate DvOK(C: Chunks, dv: int, dvsize: int) {
    if dvsize == 0 then dv == 0 && forall a {:trigger C[a]} :: a in C ==> C[a].kind != Victim
    else dv in C && C[dv].kind == Victim && C[dv].size == dvsize && forall a {:trigger C[a]} ::
        a in C && C[a].kind == Victim ==> a == dv
  }

  /** No chunk but x is held by a running operation. */
  ghost predicate OnlyLoose(C: Chunks, x: int) {
    forall a {:trigger C[a]} :: a in C && C[a].kind == Loose ==> a == x
  }

  lemma LiveCutTop(C: Chunks, first: int, top: int, nb: int)
    requires Tiling(C, first, top) && nb > 0
    ensures Live(CutTop(C, top, nb)) == Live(C) + {top} && top !in Live(C)
  {
    NewTop(C, first, top, nb);
    assert ChunkOK(C, first, top, top);
  }

  lemma SplitDone(C: Chunks, m: Mem, B: Binning, first: int, top: int, st: int, tb: seq<int>, v: int, nb: int, k: Kind,
      m': Mem)
    requires Ground(C, first, top, st, m, B.L, m) && BinsOK(B, C, st, tb)
    requires v in C && (C[v].kind == Loose || C[v].kind == Victim) && (k == Loose || k == Victim)
    requires MIN_CHUNK <= nb && nb % 8 == 0 && C[v].size - nb >= MIN_CHUNK
    requires m' == m[v + 4 := Head(nb, true, true)][v + nb + 4 := Head(C[v].size - nb, false, true)][v + nb
      + (C[v].size - nb) := C[v].size - nb]
    ensures v + C[v].size in C && v != top && top in C
    ensures var C' := Cut(C, v, nb, k);
      && Ground(C', first, top, st, m', B.L, m') && BinsOK(B, C', st, tb) && Placed(C, m, C', m', v, nb)
      && top in C' && C'[top].size == C[top].size
  {
    assert ChunkOK(C, first, top, v);
    assert CanCut(C, top, v, nb, k);
    SplitFree(m, C, first, top, v, nb, k, m');
    LiveCut(C, first, top, v, nb, k);
    CutSame(C, first, top, v, nb, k);
    hide BinsOK, Tiling, Tags, Mirror, NodesOK, LiveKept, BlocksKept, BinnedKept, LowKept, Head, Live;
    AfterStep(C, m, B, Cut(C, v, nb, k), m', first, top, top, st, tb, v);
    KeptOthers(C, m, Cut(C, v, nb, k), m', v);
  }

  lemma TakeDone(C: Chunks, m: Mem, B: Binning, first: int, top: int, st: int, tb: seq<int>, v: int, nb: int, m': Mem)
    requires Ground(C, first, top, st, m, B.L, m) && BinsOK(B, C, st, tb)
    requires v in C && (C[v].kind == Loose || C[v].kind == Victim) && nb <= C[v].size < nb + MIN_CHUNK
    requires var n := v + C[v].size + 4;
      m' == m[v + 4 := Head(C[v].size, true, true)][n := SetPInUse(Get(m[v + 4 := Head(C[v].size, true, true)], n))]
    ensures v != top && top in C
    ensures var C' := Recolor(C, v, Used);
      && Ground(C', first, top, st, m', B.L, m') && BinsOK(B, C', st, tb) && Placed(C, m, C', m', v, nb)
  {
    assert ChunkOK(C, first, top, v);
    TakeFree(m, C, first, top, v, m');
    LiveRecolor(C, v, Used);
    hide BinsOK, Tiling, Tags, Mirror, NodesOK, LiveKept, BlocksKept, BinnedKept, LowKept, Head, SetPInUse, Live;
    AfterStep(C, m, B, Recolor(C, v, Used), m', first, top, top, st, tb, v);
    KeptOthers(C, m, Recolor(C, v, Used), m', v);
  }

  lemma TopDone(C: Chunks, m: Mem, B: Binning, first: int, top: int, st: int, tb: seq<int>, nb: int, m': Mem)
    requires Ground(C, first, top, st, m, B.L, m) && BinsOK(B, C, st, tb) && top in C
    requires MIN_CHUNK <= nb < C[top].size && nb % 8 == 0
    requires m' == m[top + nb + 4 := Head(C[top].size - nb, false, true)][top + 4 := Head(nb, true, true)]
    ensures var C' := CutTop(C, top, nb);
      && Ground(C', first, top + nb, st, m', B.L, m') && BinsOK(B, C', st, tb) && Placed(C, m, C', m', top, nb)
  {
    assert ChunkOK(C, first, top, top);
    SplitTop(m, C, first, top, nb, m');
    LiveCutTop(C, first, top, nb);
    hide BinsOK, Tiling, Tags, Mirror, NodesOK, LiveKept, BlocksKept, BinnedKept, LowKept, Head, Live;
    AfterStep(C, m, B, CutTop(C, top, nb), m', first, top, top + nb, st, tb, top);
    KeptOthers(C, m, CutTop(C, top, nb), m', top);
  }

  lemma DvRecolor(C: Chunks, dv: int, dvsize: int, y: int, x: int, k: Kind)
    requires DvOK(C, dv, dvsize) && OnlyLoose(C, y) && x in C && C[x].kind != Victim && k != Victim
    ensures DvOK(Recolor(C, x, k), dv, dvsize)
    ensures y == x && k != Loose ==> OnlyLoose(Recolor(C, x, k), 0)
    ensures y == 0 && 0 !in C && k == Loose ==> OnlyLoose(Recolor(C, x, k), x)
  {
  }

  /** After a loose chunk has been cut, the rest of it is the only loose one. */
  lemma DvCut(C: Chunks, first: int, top: int, dv: int, dvsize: int, v: int, nb: int)
    requires Tiling(C, first, top) && DvOK(C, dv, dvsize) && OnlyLoose(C, v) && v in C && C[v].kind == Loose
      && CanCut(C, top, v, nb, Loose)
    ensures DvOK(Cut(C, v, nb, Loose), dv, dvsize) && OnlyLoose(Cut(C, v, nb, Loose), v + nb)
    ensures var C' := Cut(C, v, nb, Loose);
      v + nb in C' && C'[v + nb].kind == Loose && C'[v + nb].size == C[v].size - nb
  {
    assert ChunkOK(C, first, top, v);
    if v + nb in C { Outside(C, first, top, v, v + nb); }
  }

  /** Every binned chunk that fits is at least as large as the best tree node. */
  ghost predicate BestFit(C: Chunks, nb: int, size: int) {
    forall a {:trigger C[a]} :: a in C && C[a].kind == Binned && C[a].size >= nb ==> C[a].size >= size
  }

  /** A chunk outside the bins may be relabelled. */
  lemma RecolorHeld(C: Chunks, first: int, top: int, st: int, m: Mem, B: Binning, tb: seq<int>, x: int, k: Kind)
    requires Ground(C, first, top, st, m, B.L, m) && BinsOK(B, C, st, tb)
    requires x in C && (C[x].kind == Loose || C[x].kind == Victim) && (k == Loose || k == Victim)
    ensures Ground(Recolor(C, x, k), first, top, st, m, B.L, m) && BinsOK(B, Recolor(C, x, k), st, tb)
  {
    assert ChunkOK(C, first, top, x);
    var C' := Recolor(C, x, k);
    RecolorFree(m, C, first, top, x, k);
    LiveKeptSame(C', m);
    hide Tiling, Tags, RingsOK, TrieOK, LiveKept;
    forall y | y in B.L
      ensures MirrorAt(m, B.L, C', y)
    {
      assert MirrorAt(m, B.L, C, y);
    }
    forall y | y in B.L && !IsHeader(st, y)
      ensures MemberOK(B, C', st, y)
    {
      assert MemberOK(B, C, st, y);
    }
    forall a | a in C' && C'[a].kind == Binned
      ensures a in B.L
    {
      assert C[a].kind == Binned;
    }
  }

  lemma DvCutTop(C: Chunks, first: int, top: int, dv: int, dvsize: int, nb: int)
    requires Tiling(C, first, top) && DvOK(C, dv, dvsize) && OnlyLoose(C, 0) && nb > 0
    ensures DvOK(CutTop(C, top, nb), dv, dvsize) && OnlyLoose(CutTop(C, top, nb), 0)
  {
    NewTop(C, first, top, nb);
    assert ChunkOK(C, first, top, top);
  }

  /** Which free chunk a request may take: a binned one only as a best fit among the binned, for a small request only
      if it fits without remainder or dv does not fit, and for a large one only if it fits better than dv; dv only if
      no small bin holds a fit without remainder, or, for a large request, if no binned chunk fits better; top, or new
      memory, only if nothing else fits. */
  ghost predicate FitRule(C: Chunks, dvsize: int, v: int, nb: int) {
    if v in C && C[v].kind == Binned then
      && BestFit(C, nb, C[v].size)
      && (dvsize < nb || (if nb >= MIN_LARGE then C[v].size < dvsize else C[v].size <= nb + 8))
    else if v in C && C[v].kind == Victim then
      && nb <= dvsize
      && (if nb >= MIN_LARGE then BestFit(C, nb, dvsize)
          else forall a {:trigger C[a]} :: a in C && C[a].kind == Binned && C[a].size < MIN_LARGE ==>
              !(nb <= C[a].size <= nb + 8))
    else
      dvsize < nb && forall a {:trigger C[a]} :: a in C && C[a].kind == Binned ==> C[a].size < nb
  }

  /** Which chunk is the victim after v has been taken from the chunks C: the rest of the old victim or of a small
      request's chunk, if it can be a chunk; otherwise the old one, unless it was used up. */
  predicate VictimAfter(C: Chunks, dv: int, dvsize: int, v: int, nb: int, dv': int, dvsize': int) {
    if v in C && C[v].kind == Victim then
      if dvsize >= nb + MIN_CHUNK then dv' == v + nb && dvsize' == dvsize - nb else dvsize' == 0
    else if v in C && C[v].kind == Binned && nb < MIN_LARGE && C[v].size >= nb + MIN_CHUNK then
      dv' == v + nb && dvsize' == C[v].size - nb
    else
      dv' == dv && dvsize' == dvsize
  }

  /** Why the bins give nothing to a request: a small one may still use dv, a large one only if dv fits at least as
      well. */
  ghost predicate BinsPassed(C: Chunks, dvsize: int, nb: int) {
    if nb >= MIN_LARGE then forall a {:trigger C[a]} :: a in C && C[a].kind == Binned && C[a].size >= nb ==>
        nb <= dvsize <= C[a].size
    else (dvsize < nb ==> NoBinFits(C, nb))
         && forall a {:trigger C[a]} :: a in C && C[a].kind == Binned && C[a].size < MIN_LARGE ==>
             !(nb <= C[a].size <= nb + 8)
  }

  /** No binned chunk fits. */
  ghost predicate NoBinFits(C: Chunks, nb: int) {
    forall a {:trigger C[a]} :: a in C && C[a].kind == Binned ==> C[a].size < nb
  }

  // ---------- freeing ----------

  lemma LiveFuse(C: Chunks, first: int, top: int, lo: int, hi: int, k: Kind, q: int)
    requires lo in C && CanFuse(C, first, top, lo, hi, k, q) && q in C && lo <= q < hi && C[q].kind == Used
    ensures Live(Fuse(C, lo, hi, k)) == Live(C) - {q}
  {
    var C' := Fuse(C, lo, hi, k);
    forall a
      ensures a in Live(C') <==> a in Live(C) && a != q
    {
      if a in C && lo <= a < hi { assert C[a] == C[a]; }
    }
  }

  lemma FuseDone(C: Chunks, m: Mem, B: Binning, first: int, top: int, st: int, tb: seq<int>, lo: int, hi: int, k: Kind,
      q: int,
                 clear: bool, m': Mem)
    requires Ground(C, first, top, st, m, B.L, m) && BinsOK(B, C, st, tb) && top in C
    requires lo in C && CanFuse(C, first, top, lo, hi, k, q) && q in C && lo <= q < hi && C[q].kind == Used
    requires clear || !PrevUsed(C, first, hi)
    requires m' == (if clear then m[hi + 4 := ClearPInUse(Get(m, hi + 4))]
      else m)[lo + 4 := Head(hi - lo, false, true)][hi := hi - lo]
    ensures var C' := Fuse(C, lo, hi, k);
      && Ground(C', first, top, st, m', B.L, m') && BinsOK(B, C', st, tb) && BlocksKept(C, m, C', m', q)
      && Live(C') == Live(C) - {q}
      && top in C' && C'[top].size == C[top].size
  {
    assert ChunkOK(C, first, top, hi) && ChunkOK(C, first, top, lo) && TagOK(m, C, first, hi);
    HeadOfNext(C[hi].size, true);
    assert Get(m', hi + 4) == Head(C[hi].size, true, false);
    NotHead(hi, lo);
    FuseFree(m, C, first, top, lo, hi, k, q, m');
    LiveFuse(C, first, top, lo, hi, k, q);
    hide BinsOK, Tiling, Tags, Mirror, NodesOK, LiveKept, BlocksKept, BinnedKept, LowKept, Head, Live;
    AfterStep(C, m, B, Fuse(C, lo, hi, k), m', first, top, top, st, tb, q);
  }

  lemma FuseTopDone(C: Chunks, m: Mem, B: Binning, first: int, top: int, st: int, tb: seq<int>, lo: int, q: int,
      m': Mem)
    requires Ground(C, first, top, st, m, B.L, m) && BinsOK(B, C, st, tb) && top in C
    requires lo in C && CanFuseTop(C, first, top, lo, q) && q in C && lo <= q < top && C[q].kind == Used
    requires m' == m[lo + 4 := Head(top + C[top].size - lo, false, true)]
    ensures var C' := FuseTop(C, top, lo);
      && Ground(C', first, lo, st, m', B.L, m') && BinsOK(B, C', st, tb) && BlocksKept(C, m, C', m', q)
      && Live(C') == Live(C) - {q}
      && lo in C' && C'[lo].size == top + C[top].size - lo
  {
    FuseTopTags(m, C, first, top, lo, q, m');
    LiveFuseTop(C, first, top, lo, q);
    hide BinsOK, Tiling, Tags, Mirror, NodesOK, LiveKept, BlocksKept, BinnedKept, LowKept, Head, Live;
    AfterStep(C, m, B, FuseTop(C, top, lo), m', first, top, lo, st, tb, q);
  }

  lemma LiveFuseTop(C: Chunks, first: int, top: int, lo: int, q: int)
    requires Tiling(C, first, top) && lo in C && CanFuseTop(C, first, top, lo, q) && q in C && lo <= q < top
      && C[q].kind == Used
    ensures Live(FuseTop(C, top, lo)) == Live(C) - {q}
  {
    var C' := FuseTop(C, top, lo);
    forall a
      ensures a in Live(C') <==> a in Live(C) && a != q
    {
      if a in C {
        FuseTopAbove(C, first, top, a);
        if lo <= a < top { assert C[a] == C[a]; }
      }
    }
  }

  /** The victim and loose chunks after a fusion. */
  lemma DvFuse(C: Chunks, dv: int, dvsize: int, lo: int, hi: int, k: Kind, q: int, first: int, top: int)
    requires Tiling(C, first, top) && lo in C && CanFuse(C, first, top, lo, hi, k, q)
    requires DvOK(C, dv, dvsize) && (k == Victim ==> dvsize == 0 || lo <= dv < hi)
      && (k == Loose ==> !(lo <= dv < hi) || dvsize == 0)
    requires forall a {:trigger C[a]} :: a in C && C[a].kind == Loose ==> lo <= a < hi
    ensures var C' := Fuse(C, lo, hi, k);
      && (k == Victim ==> DvOK(C', lo, hi - lo) && OnlyLoose(C', 0))
      && (k == Loose ==> DvOK(C', dv, dvsize) && OnlyLoose(C', lo))
      && lo in C' && C'[lo].kind == k && C'[lo].size == hi - lo
  {
  }

  lemma DvFuseTop(C: Chunks, dv: int, dvsize: int, lo: int, q: int, first: int, top: int)
    requires Tiling(C, first, top) && lo in C && CanFuseTop(C, first, top, lo, q) && DvOK(C, dv, dvsize)
    requires dvsize != 0 ==> dv <= lo || dv > top
    requires forall a {:trigger C[a]} :: a in C && C[a].kind == Loose ==> lo <= a < top
    ensures var C' := FuseTop(C, top, lo);
      OnlyLoose(C', 0) && (if dv == lo && dvsize != 0 then DvOK(C', 0, 0) else DvOK(C', dv, dvsize))
  {
    if dvsize != 0 { FuseTopAbove(C, first, top, dv); }
  }

  lemma KeptThenFreed(C0: Chunks, m0: Mem, C1: Chunks, m1: Mem, C2: Chunks, m2: Mem, q: int)
    requires BlocksKept(C0, m0, C1, m1, 0) && BlocksKept(C1, m1, C2, m2, q) && 0 !in C0
    ensures BlocksKept(C0, m0, C2, m2, q)
  {
    forall a | a in C0 && C0[a].kind == Used && a != q
      ensures Survives(C0, m0, C2, m2, a)
    {
      assert Survives(C0, m0, C1, m1, a) && Survives(C1, m1, C2, m2, a);
    }
  }

  lemma FreedThenKept(C0: Chunks, m0: Mem, C1: Chunks, m1: Mem, C2: Chunks, m2: Mem, q: int)
    requires BlocksKept(C0, m0, C1, m1, q) && BlocksKept(C1, m1, C2, m2, 0) && 0 !in C0
    ensures BlocksKept(C0, m0, C2, m2, q)
  {
    forall a | a in C0 && C0[a].kind == Used && a != q
      ensures Survives(C0, m0, C2, m2, a)
    {
      assert Survives(C0, m0, C1, m1, a) && Survives(C1, m1, C2, m2, a);
    }
  }

  /** What dlfree has in hand when it looks forward: the freed chunk q, and a free neighbour before it, from p on. */
  ghost predicate Merging(C: Chunks, first: int, dv: int, p: int, q: int) {
    && p in C && q in C && C[q].kind == Used && PrevUsed(C, first, p)
    && (p == q || (p < q && p + C[p].size == q && (C[p].kind == Loose || (C[p].kind == Victim && p == dv))))
  }

  /** The chunks from p up to the end of q. */
  lemma MergingRange(C: Chunks, first: int, top: int, dv: int, p: int, q: int, b: int)
    requires Tiling(C, first, top) && Merging(C, first, dv, p, q) && b in C && p <= b < q + C[q].size
    ensures b == p || b == q
  {
    if b != p { Outside(C, first, top, p, b); }
    if b != q { Outside(C, first, top, q, b); }
  }

  /** With a free chunk n behind q. */
  lemma MergingRangeNext(C: Chunks, first: int, top: int, dv: int, p: int, q: int, b: int)
    requires Tiling(C, first, top) && Merging(C, first, dv, p, q) && b in C
    requires var n := q + C[q].size; n in C && p <= b < n + C[n].size
    ensures b == p || b == q || b == q + C[q].size
  {
    var n := q + C[q].size;
    if b < n {
      MergingRange(C, first, top, dv, p, q, b);
    } else if b != n {
      Outside(C, first, top, n, b);
    }
  }

  lemma MergingCanFuse(C: Chunks, first: int, top: int, dv: int, p: int, q: int, k: Kind)
    requires Tiling(C, first, top) && Merging(C, first, dv, p, q) && (k == Loose || k == Victim)
    requires var n := q + C[q].size; n in C && C[n].kind == Used
    ensures CanFuse(C, first, top, p, q + C[q].size, k, q)
  {
    assert ChunkOK(C, first, top, q);
    forall b | b in C && p <= b < q + C[q].size
      ensures (b == q && C[b].kind == Used) || C[b].kind == Loose || C[b].kind == Victim
    {
      MergingRange(C, first, top, dv, p, q, b);
    }
  }

  lemma MergingCanFuseNext(C: Chunks, first: int, top: int, dv: int, p: int, q: int, k: Kind)
    requires Tiling(C, first, top) && Merging(C, first, dv, p, q) && (k == Loose || k == Victim)
    requires var n := q + C[q].size; n in C && (C[n].kind == Loose || C[n].kind == Victim)
    ensures var n := q + C[q].size;
      var hi := n + C[n].size; CanFuse(C, first, top, p, hi, k, q) && hi in C && !PrevUsed(C, first, hi)
  {
    var n := q + C[q].size;
    assert ChunkOK(C, first, top, q) && ChunkOK(C, first, top, n);
    assert ChunkOK(C, first, top, first);
    forall b | b in C && p <= b < n + C[n].size
      ensures (b == q && C[b].kind == Used) || C[b].kind == Loose || C[b].kind == Victim
    {
      MergingRangeNext(C, first, top, dv, p, q, b);
    }
  }

  lemma MergingCanFuseTop(C: Chunks, first: int, top: int, dv: int, p: int, q: int)
    requires Tiling(C, first, top) && Merging(C, first, dv, p, q) && q + C[q].size == top
    ensures CanFuseTop(C, first, top, p, q)
  {
    assert ChunkOK(C, first, top, q);
    forall b | b in C && p <= b < top
      ensures (b == q && C[b].kind == Used) || C[b].kind == Loose || C[b].kind == Victim
    {
      MergingRange(C, first, top, dv, p, q, b);
    }
  }

  // ---------- reallocation ----------

  lemma SplitUsedDone(C: Chunks, m: Mem, B: Binning, first: int, top: int, st: int, tb: seq<int>, v: int, nb: int,
      m': Mem)
    requires Ground(C, first, top, st, m, B.L, m) && BinsOK(B, C, st, tb)
    requires v in C && C[v].kind == Used && MIN_CHUNK <= nb && nb % 8 == 0 && C[v].size - nb >= MIN_CHUNK
    requires var r, rest := v + nb, C[v].size - nb;
      && Get(m', v + 4) == Head(nb, true, PInUse(Get(m, v + 4))) && Get(m', r + 4) == Head(rest, true, true)
      && Get(m', r + rest + 4) == SetPInUse(Get(m, r + rest + 4))
      && forall x :: x != v + 4 && x != r + 4 && x != r + rest + 4 ==> Get(m', x) == Get(m, x)
    ensures v + C[v].size in C && v != top && top in C
    ensures var C' := Cut(C, v, nb, Used);
      && Ground(C', first, top, st, m', B.L, m') && BinsOK(B, C', st, tb)
      && Live(C') == Live(C) + {v + nb} && v + nb !in Live(C) && v in Live(C) && BlocksKept(C, m, C', m', v)
      && Undisturbed(m, m', v, nb)
      && top in C' && C'[top].size == C[top].size
  {
    assert ChunkOK(C, first, top, v);
    assert CanCut(C, top, v, nb, Used);
    SplitUsed(m, C, first, top, v, nb, m');
    CutSame(C, first, top, v, nb, Used);
    LiveCutUsed(C, first, top, v, nb);
    hide BinsOK, Tiling, Tags, Mirror, NodesOK, LiveKept, BlocksKept, BinnedKept, LowKept, Head, Live, SetPInUse,
      PInUse;
    AfterStep(C, m, B, Cut(C, v, nb, Used), m', first, top, top, st, tb, v);
  }

  lemma LiveCutUsed(C: Chunks, first: int, top: int, v: int, nb: int)
    requires Tiling(C, first, top) && v in C && CanCut(C, top, v, nb, Used) && C[v].kind == Used
    ensures Live(Cut(C, v, nb, Used)) == Live(C) + {v + nb} && v + nb !in Live(C) && v in Live(C)
  {
    CutSame(C, first, top, v, nb, Used);
    assert ChunkOK(C, first, top, v);
  }

  lemma DvCutUsed(C: Chunks, first: int, top: int, dv: int, dvsize: int, v: int, nb: int)
    requires Tiling(C, first, top) && v in C && CanCut(C, top, v, nb, Used) && C[v].kind == Used && DvOK(C, dv, dvsize)
      && OnlyLoose(C, 0)
    ensures DvOK(Cut(C, v, nb, Used), dv, dvsize) && OnlyLoose(Cut(C, v, nb, Used), 0)
  {
    CutSame(C, first, top, v, nb, Used);
  }

  lemma ExtendDone(C: Chunks, m: Mem, B: Binning, first: int, top: int, st: int, tb: seq<int>, p: int, nb: int, m': Mem)
    requires Ground(C, first, top, st, m, B.L, m) && BinsOK(B, C, st, tb) && top in C
    requires p in C && C[p].kind == Used && p + C[p].size == top && C[p].size < nb < C[p].size + C[top].size
      && nb % 8 == 0
    requires && Get(m', p + 4) == Head(nb, true, PInUse(Get(m, p + 4)))
             && Get(m', p + nb + 4) == Head(C[p].size + C[top].size - nb, false, true)
             && forall x :: x != p + 4 && x != p + nb + 4 ==> Get(m', x) == Get(m, x)
    ensures var C' := ShiftTop(C, p, nb);
      && Ground(C', first, p + nb, st, m', B.L, m') && BinsOK(B, C', st, tb)
      && Live(C') == Live(C) && BlocksKept(C, m, C', m', p) && Undisturbed(m, m', p, C[p].size)
      && p + nb in C' && C'[p + nb].size == C[p].size + C[top].size - nb && p in C' && C'[p].size == nb
  {
    assert ChunkOK(C, first, top, p) && ChunkOK(C, first, top, top);
    ExtendIntoTop(m, C, first, top, p, nb, m');
    NewTop(C, first, top, p + nb - top);
    assert Live(ShiftTop(C, p, nb)) == Live(C);
    hide BinsOK, Tiling, Tags, Mirror, NodesOK, LiveKept, BlocksKept, BinnedKept, LowKept, Head, Live, PInUse;
    AfterStep(C, m, B, ShiftTop(C, p, nb), m', first, top, p + nb, st, tb, p);
  }

  lemma DvShift(C: Chunks, first: int, top: int, dv: int, dvsize: int, p: int, nb: int)
    requires Tiling(C, first, top) && DvOK(C, dv, dvsize) && OnlyLoose(C, 0) && p in C && C[p].kind == Used
      && p + C[p].size == top && nb > C[p].size
    ensures DvOK(ShiftTop(C, p, nb), dv, dvsize) && OnlyLoose(ShiftTop(C, p, nb), 0)
  {
    NewTop(C, first, top, p + nb - top);
    assert ChunkOK(C, first, top, top);
  }

  /** A word of a live block is written by its owner. */
  lemma StoreDone(C: Chunks, m: Mem, B: Binning, first: int, top: int, st: int, tb: seq<int>, p: int, x: int, v: int)
    requires Ground(C, first, top, st, m, B.L, m) && BinsOK(B, C, st, tb)
    requires p in C && C[p].kind == Used && p + 8 <= x < p + C[p].size + 4 && x % 4 == 0
    ensures var m' := m[x := v];
      Ground(C, first, top, st, m', B.L, m') && BinsOK(B, C, st, tb) && BlocksKept(C, m, C, m', p)
  {
    var m' := m[x := v];
    assert ChunkOK(C, first, top, p);
    LiveKeptSame(C, m');
    forall b | b in C
      ensures TagOK(m', C, first, b) && (b != p && C[b].kind == Used ==> Undisturbed(m, m', b, C[b].size))
    {
      StoreApart(C, first, top, p, x, b);
      assert TagOK(m, C, first, b) && ChunkOK(C, first, top, b);
    }
    forall b | b in B.L
      ensures MirrorAt(m', B.L, C, b)
    {
      assert MirrorAt(m, B.L, C, b);
      if b in C {
        assert ChunkOK(C, first, top, b);
        Outside(C, first, top, p, b);
      }
    }
  }

  /** A word of live block p is in no head, no foot of a free chunk and no other live block. */
  lemma StoreApart(C: Chunks, first: int, top: int, p: int, x: int, b: int)
    requires Tiling(C, first, top) && p in C && b in C && C[p].kind == Used && p + 8 <= x < p + C[p].size + 4
      && x % 4 == 0
    ensures x != b + 4
    ensures b != top && C[b].kind != Used ==> x != b + C[b].size
    ensures b != p ==> !(b + 8 <= x < b + C[b].size + 4)
  {
    assert ChunkOK(C, first, top, p) && ChunkOK(C, first, top, b);
    if b != p {
      Outside(C, first, top, p, b);
    }
    if b != top && C[b].kind != Used {
      var n := b + C[b].size;
      assert ChunkOK(C, first, top, n);
      if n != p { Outside(C, first, top, p, n); }
    }
  }
}
