/** Entering and leaving the bins: what the link macros of wiinandfuse/geckonand/malloc.c start from and end with. */
module Linking {
  import opened Sizes
  import opened BinMaps
  import opened Tries
  import opened Rings
  import opened Chunks
  import opened Bins
  import opened Lists

  /** A bitmap bit is set exactly when its bin is not empty. */
  ghost predicate MapOK(B: Binning, st: int, tb: seq<int>, sm: binmap, tm: binmap, i: int)
    requires 0 <= i < 32 == |tb|
  {
    && Header(st, i) in B.rings
    && (Marked(sm, i) <==> |B.rings[Header(st, i)]| > 1)
    && (Marked(tm, i) <==> tb[i] != 0)
  }

  ghost predicate MapsOK(B: Binning, st: int, tb: seq<int>, sm: binmap, tm: binmap) {
    |tb| == 32 && forall i {:trigger MapOK(B, st, tb, sm, tm, i)} :: 0 <= i < 32 ==> MapOK(B, st, tb, sm, tm, i)
  }

  function ReadLink(m: Mem, x: int): Link {
    Link(Get(m, x + 8), Get(m, x + 12), Get(m, x + 16), Get(m, x + 20), Get(m, x + 24), Get(m, x + 28))
  }

  /** A loose chunk becomes a node: its links are whatever its memory holds. */
  lemma Enter(C: Chunks, first: int, top: int, st: int, m: Mem, L: Links, m0: Mem, x: int)
    requires Ground(C, first, top, st, m, L, m0) && x in C && C[x].kind == Loose
    ensures x !in L
    ensures Ground(Recolor(C, x, Binned), first, top, st, m, L[x := ReadLink(m, x)], m0)
  {
    assert ChunkOK(C, first, top, x);
    var C', L' := Recolor(C, x, Binned), L[x := ReadLink(m, x)];
    RecolorFree(m, C, first, top, x, Binned);
    assert ChunkOK(C, first, top, first);
    hide Tiling, Tags, Aligned;
    forall y | y in L'
      ensures MirrorAt(m, L', C', y)
    {
      if y != x { assert MirrorAt(m, L, C, y); }
    }
    forall a | a in C' && C'[a].kind == Used
      ensures Undisturbed(m0, m, a, C'[a].size)
    {
      assert Undisturbed(m0, m, a, C[a].size);
    }
  }

  /** A node that no other links to is loose again. */
  lemma Leave(C: Chunks, first: int, top: int, st: int, m: Mem, L: Links, m0: Mem, x: int)
    requires Ground(C, first, top, st, m, L, m0) && x in C && C[x].kind == Binned
    ensures Ground(Recolor(C, x, Loose), first, top, st, m, L - {x}, m0)
  {
    assert ChunkOK(C, first, top, x);
    var C', L' := Recolor(C, x, Loose), L - {x};
    RecolorFree(m, C, first, top, x, Loose);
    hide Tiling, Tags, Aligned;
    forall y | y in L'
      ensures MirrorAt(m, L', C', y)
    {
      assert MirrorAt(m, L, C, y);
    }
    forall a | a in C' && C'[a].kind == Used
      ensures Undisturbed(m0, m, a, C'[a].size)
    {
      assert Undisturbed(m0, m, a, C[a].size);
    }
  }

  /** Links read from memory. */
  lemma Peek(C: Chunks, first: int, top: int, st: int, m: Mem, L: Links, m0: Mem, a: int)
    requires Ground(C, first, top, st, m, L, m0) && a in L
    ensures Get(m, a + 8) == L[a].fd && Get(m, a + 12) == L[a].bk
    ensures Large(C, a) ==> Get(m, a + 16) == L[a].ch0 && Get(m, a + 20) == L[a].ch1
                            && Get(m, a + 24) == L[a].par && Get(m, a + 28) == L[a].idx
  {
    assert MirrorAt(m, L, C, a);
  }

  /** The size read from a head. */
  lemma PeekSize(C: Chunks, first: int, top: int, st: int, m: Mem, L: Links, m0: Mem, a: int)
    requires Ground(C, first, top, st, m, L, m0) && a in C
    ensures ChunkSize(Get(m, a + 4)) == C[a].size && CInUse(Get(m, a + 4)) == (C[a].kind == Used)
    ensures PInUse(Get(m, a + 4)) == PrevUsed(C, first, a)
    ensures 0 < first <= a <= top && a % 8 == 0 && C[a].size % 8 == 0 && C[a].size >= 8
  {
    assert ChunkOK(C, first, top, a) && TagOK(m, C, first, a);
    HeadFields(C[a].size, C[a].kind == Used, PrevUsed(C, first, a));
  }

  // ---------- small bins ----------

  /** Where insert_small_chunk links, as the bins stand. */
  lemma SmallBin(B: Binning, C: Chunks, st: int, tb: seq<int>, sm: binmap, tm: binmap, i: int)
    requires BinsOK(B, C, st, tb) && MapsOK(B, st, tb, sm, tm) && 0 <= i < 32
    ensures var h := Header(st, i);
      && h in B.rings && h in B.L && h !in B.R.nodes && |B.rings[h]| >= 1 && B.rings[h][0] == h
      && (Marked(sm, i) <==> |B.rings[h]| > 1) && NoDup(B.rings[h])
      && (|B.rings[h]| > 1 ==> Linked(B.L, B.rings[h]) && B.L[h].fd == B.rings[h][1] && B.L[h].fd in B.L)
  {
    var h := Header(st, i);
    assert MapOK(B, st, tb, sm, tm, i) && HeaderOK(B, st, i) && RingOK(B, st, h);
    assert IsHeader(st, h);
    if |B.rings[h]| > 1 {
      Neighbours(B.L, B.rings[h], 0);
      assert B.rings[h][1] in B.rings[h];
    }
  }

  lemma JoinsByLinkIn(B: Binning, h: int, f: int, x: int, l: Link)
    requires h in B.L && f in B.L && x !in B.L
    ensures Joins(B, h, f, x, LinkIn(B.L[x := l], h, f, x))
    ensures var r := LinkIn(B.L[x := l], h, f, x)[x]; r == l.(fd := f, bk := h)
  {
    var L := B.L[x := l];
    forall y | y in B.L
      ensures JoinsAt(B, h, f, x, LinkIn(L, h, f, x), y)
    {
      LinkInAt(L, h, f, x, y);
    }
    LinkInAt(L, h, f, x, x);
  }

  /** The map once bin i has a chunk. */
  lemma MarkSmall(B: Binning, st: int, tb: seq<int>, sm: binmap, tm: binmap, i: int, x: int, L: Links)
    requires MapsOK(B, st, tb, sm, tm) && 0 <= i < 32
    requires Header(st, i) in B.rings && |B.rings[Header(st, i)]| >= 1
    ensures MapsOK(Joined(B, Header(st, i), x, L), st, tb, if Marked(sm, i) then sm else Mark(sm, i), tm)
  {
    var sm', B' := if Marked(sm, i) then sm else Mark(sm, i), Joined(B, Header(st, i), x, L);
    hide Marked, Mark;
    forall j | 0 <= j < 32
      ensures MapOK(B', st, tb, sm', tm, j)
    {
      assert MapOK(B, st, tb, sm, tm, j);
      MarkMarked(sm, i, j);
    }
  }

  /** Chaining into a tree ring leaves the maps as they are. */
  lemma MapsJoined(B: Binning, st: int, tb: seq<int>, sm: binmap, tm: binmap, h: int, x: int, L: Links)
    requires MapsOK(B, st, tb, sm, tm) && h in B.rings && |B.rings[h]| >= 1 && !IsHeader(st, h)
    ensures MapsOK(Joined(B, h, x, L), st, tb, sm, tm)
  {
    hide Marked;
    forall j | 0 <= j < 32
      ensures MapOK(Joined(B, h, x, L), st, tb, sm, tm, j)
    {
      assert MapOK(B, st, tb, sm, tm, j);
      assert IsHeader(st, Header(st, j));
    }
  }

  /** The map once x has left small bin i, at position k of its ring. */
  lemma ClearSmall(B: Binning, st: int, tb: seq<int>, sm: binmap, tm: binmap, i: int, k: int, L: Links)
    requires MapsOK(B, st, tb, sm, tm) && 0 <= i < 32
    requires Header(st, i) in B.rings && 1 <= k < |B.rings[Header(st, i)]|
    ensures MapsOK(Left(B, Header(st, i), k, L), st, tb, if |B.rings[Header(st, i)]| == 2 then Unmark(sm, i)
      else sm, tm)
  {
    var h := Header(st, i);
    var sm', B' := if |B.rings[h]| == 2 then Unmark(sm, i) else sm, Left(B, h, k, L);
    hide Marked, Unmark;
    forall j | 0 <= j < 32
      ensures MapOK(B', st, tb, sm', tm, j)
    {
      assert MapOK(B, st, tb, sm, tm, j);
      UnmarkMarked(sm, i, j);
    }
  }

  lemma MapsLeft(B: Binning, st: int, tb: seq<int>, sm: binmap, tm: binmap, h: int, k: int, L: Links)
    requires MapsOK(B, st, tb, sm, tm) && h in B.rings && 1 <= k < |B.rings[h]| && !IsHeader(st, h)
    ensures MapsOK(Left(B, h, k, L), st, tb, sm, tm)
  {
    hide Marked;
    forall j | 0 <= j < 32
      ensures MapOK(Left(B, h, k, L), st, tb, sm, tm, j)
    {
      assert MapOK(B, st, tb, sm, tm, j);
      assert IsHeader(st, Header(st, j));
    }
  }

  /** Where a small binned chunk is. */
  lemma SmallMember(B: Binning, C: Chunks, st: int, tb: seq<int>, x: int) returns (k: int)
    requires BinsOK(B, C, st, tb) && x in C && C[x].kind == Binned && C[x].size < MIN_LARGE
    ensures x in B.L && 0 <= C[x].size / 8 < 32
    ensures var h := Header(st, C[x].size / 8); CanLeave(B, st, h, k, x) && h !in B.R.nodes && !IsHeader(st, x)
  {
    assert x in B.L;
    if IsHeader(st, x) {
      var i := HeaderIndex(st, x);
    }
    assert MemberOK(B, C, st, x) && HomeOK(B, x);
    var h := Header(st, C[x].size / 8);
    assert RingOK(B, st, h) && IsHeader(st, h);
    k :| 0 <= k < |B.rings[h]| && B.rings[h][k] == x;
  }

  lemma LeavesByLinkOut(B: Binning, h: int, x: int)
    requires x in B.L && B.L[x].fd in B.L && B.L[x].bk in B.L && B.L[x].fd != x && B.L[x].bk != x
    requires B.L[x].fd != B.L[x].bk || h in B.R.nodes
    ensures Leaves(B, h, B.L[x].fd, B.L[x].bk, x, LinkOut(B.L, B.L[x].fd, B.L[x].bk) - {x})
  {
    var f, b := B.L[x].fd, B.L[x].bk;
    forall y | y in B.L && y != x
      ensures LeavesAt(B, f, b, LinkOut(B.L, f, b) - {x}, y)
    {
      LinkOutAt(B.L, f, b, y);
    }
  }

  lemma LeavesAlone(B: Binning, h: int, x: int)
    requires x in B.L && B.L[x].fd == B.L[x].bk && h !in B.R.nodes
    ensures Leaves(B, h, B.L[x].fd, B.L[x].bk, x, B.L - {x})
  {
  }

  /** The neighbours of a ring element, and when they coincide. */
  lemma MemberLinks(B: Binning, C: Chunks, st: int, tb: seq<int>, h: int, k: int, x: int)
    requires BinsOK(B, C, st, tb) && CanLeave(B, st, h, k, x)
    ensures B.L[x].fd in B.L && B.L[x].bk in B.L && B.L[x].fd != x && B.L[x].bk != x
    ensures (B.L[x].fd == B.L[x].bk) <==> |B.rings[h]| == 2
    ensures k == 1 ==> B.L[x].bk == h
  {
    var s := B.rings[h];
    assert RingOK(B, st, h);
    SameNeighbours(B.L, s, k);
    Neighbours(B.L, s, k);
    assert B.L[x].fd in s && B.L[x].bk in s;
  }

  /** The first chunk of a marked small bin. */
  lemma FirstOfSmall(B: Binning, C: Chunks, st: int, tb: seq<int>, sm: binmap, tm: binmap, i: int)
    requires BinsOK(B, C, st, tb) && MapsOK(B, st, tb, sm, tm) && 0 <= i < 32 && Marked(sm, i)
    ensures var h := Header(st, i);
      && h in B.L && h in B.rings && h !in B.R.nodes && |B.rings[h]| >= 2
      && var x := B.L[h].fd; x in C && C[x].kind == Binned && C[x].size / 8 == i && CanLeave(B, st, h, 1, x)
  {
    var h := Header(st, i);
    SmallBin(B, C, st, tb, sm, tm, i);
    var x := B.L[h].fd;
    assert RingOK(B, st, h) && x in B.rings[h] && h in B.rings[h];
    NoHeaderBehind(B, st, h, x);
    assert MemberOK(B, C, st, x);
  }

  /** The two writes of LinkOut, the other way round. */
  lemma LinkOutSwapped(L: Links, f: int, b: int)
    requires f in L && b in L && f != b
    ensures Updated(Updated(L, b, 8, f), f, 12, b) == LinkOut(L, f, b)
  {
    var l, r := Updated(Updated(L, b, 8, f), f, 12, b), LinkOut(L, f, b);
    assert l.Keys == r.Keys;
    assert forall y :: y in l ==> l[y] == r[y];
    assert l == r;
  }
}
