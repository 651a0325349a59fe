/** The bins of wiinandfuse/geckonand/malloc.c: how the links in flat memory make up rings and tries. */
module Bins {
  import opened Sizes
  import opened Tries
  import opened Chunks

  // ---------- the links in memory ----------

  /** The header of small bin i, as a chunk address: st is the address of the smallbins array. */
  function Header(st: int, i: int): int { st + 8 * i }

  predicate IsHeader(st: int, y: int) { st <= y < st + 256 && (y - st) % 8 == 0 }

  /** The address of the tree bins, behind the 33 pairs of small-bin pointers. */
  function TreeBins(st: int): int { st + 264 }

  predicate Large(C: Chunks, a: int) { a in C && C[a].size >= MIN_LARGE }

  ghost predicate MirrorAt(m: Mem, L: Links, C: Chunks, a: int)
    requires a in L
  {
    var l := L[a];
    && Get(m, a + 8) == l.fd && Get(m, a + 12) == l.bk
    && (Large(C, a) ==>
          Get(m, a + 16) == l.ch0 && Get(m, a + 20) == l.ch1 && Get(m, a + 24) == l.par && Get(m, a + 28) == l.idx)
  }

  ghost predicate Mirror(m: Mem, L: Links, C: Chunks) {
    forall a {:trigger MirrorAt(m, L, C, a)} :: a in L ==> MirrorAt(m, L, C, a)
  }

  /** The linked nodes are the bin headers and the binned chunks; the headers lie below the segment. */
  ghost predicate NodesOK(L: Links, C: Chunks, st: int, first: int) {
    && 0 < st && st + 400 <= first
    && (forall y {:trigger y in L} :: y in L ==> IsHeader(st, y) || (y in C && C[y].kind == Binned))
  }

  ghost predicate LiveKept(C: Chunks, m0: Mem, m: Mem) {
    forall a {:trigger Undisturbed(m0, m, a, C[a].size)} :: a in C && C[a].kind == Used ==>
        Undisturbed(m0, m, a, C[a].size)
  }

  /** What every write to a link keeps. */
  ghost predicate Ground(C: Chunks, first: int, top: int, st: int, m: Mem, L: Links, m0: Mem) {
    Tiling(C, first, top) && Tags(m, C, first) && Mirror(m, L, C) && NodesOK(L, C, st, first) && LiveKept(C, m0, m)
  }

  function SetLink(l: Link, o: int, v: int): Link {
    if o == 8 then l.(fd := v)
    else if o == 12 then l.(bk := v)
    else if o == 16 then l.(ch0 := v)
    else if o == 20 then l.(ch1 := v)
    else if o == 24 then l.(par := v)
    else l.(idx := v)
  }

  function Updated(L: Links, a: int, o: int, v: int): Links
    requires a in L
  {
    L[a := SetLink(L[a], o, v)]
  }

  ghost predicate IsField(C: Chunks, a: int, o: int) {
    o == 8 || o == 12 || (Large(C, a) && (o == 16 || o == 20 || o == 24 || o == 28))
  }

  /** A link of one node is in no link of another. */
  lemma FieldsApart(C: Chunks, first: int, top: int, st: int, L: Links, a: int, o: int, b: int, p: int)
    requires Tiling(C, first, top) && NodesOK(L, C, st, first) && a in L && b in L
    requires IsField(C, a, o) && IsField(C, b, p) && (a != b || o != p)
    ensures a + o != b + p
  {
    hide Aligned;
    if a != b {
      if a in C { assert ChunkOK(C, first, top, a); }
      if b in C { assert ChunkOK(C, first, top, b); }
      if a in C && b in C {
        assert ChunkOK(C, first, top, top);
        Outside(C, first, top, a, b);
      }
    }
  }

  lemma PokeMirror(C: Chunks, first: int, top: int, st: int, m: Mem, L: Links, a: int, o: int, v: int)
    requires Tiling(C, first, top) && NodesOK(L, C, st, first) && Mirror(m, L, C) && a in L && IsField(C, a, o)
    ensures Mirror(m[a + o := v], Updated(L, a, o, v), C)
  {
    var m', L' := m[a + o := v], Updated(L, a, o, v);
    forall b | b in L'
      ensures MirrorAt(m', L', C, b)
    {
      hide Tiling, NodesOK, Get;
      assert MirrorAt(m, L, C, b);
      OtherField(C, first, top, st, m, L, a, o, v, b, 8);
      OtherField(C, first, top, st, m, L, a, o, v, b, 12);
      OtherField(C, first, top, st, m, L, a, o, v, b, 16);
      OtherField(C, first, top, st, m, L, a, o, v, b, 20);
      OtherField(C, first, top, st, m, L, a, o, v, b, 24);
      OtherField(C, first, top, st, m, L, a, o, v, b, 28);
    }
  }

  lemma OtherField(C: Chunks, first: int, top: int, st: int, m: Mem, L: Links, a: int, o: int, v: int, b: int, p: int)
    requires Tiling(C, first, top) && NodesOK(L, C, st, first) && a in L && b in L && IsField(C, a, o)
    ensures IsField(C, b, p) ==> Get(m[a + o := v], b + p) == if a == b && o == p then v else Get(m, b + p)
  {
    if IsField(C, b, p) && (a != b || o != p) {
      FieldsApart(C, first, top, st, L, a, o, b, p);
    }
  }

  /** A write to a link is in no head, no foot and no live block. */
  lemma PokeApart(C: Chunks, first: int, top: int, st: int, L: Links, a: int, o: int, b: int)
    requires Tiling(C, first, top) && NodesOK(L, C, st, first) && a in L && IsField(C, a, o) && b in C
    ensures a + o != b && a + o != b + 4
    ensures C[b].kind == Used ==> !(b + 8 <= a + o < b + C[b].size + 4)
  {
    hide Aligned;
    assert ChunkOK(C, first, top, b);
    if a in C {
      assert ChunkOK(C, first, top, a);
      if a != b {
        Outside(C, first, top, a, b);
      }
    }
  }

  lemma Poke(C: Chunks, first: int, top: int, st: int, m: Mem, L: Links, m0: Mem, a: int, o: int, v: int)
    requires Ground(C, first, top, st, m, L, m0) && a in L && IsField(C, a, o)
    ensures Ground(C, first, top, st, m[a + o := v], Updated(L, a, o, v), m0)
  {
    var m' := m[a + o := v];
    PokeMirror(C, first, top, st, m, L, a, o, v);
    forall b | b in C
      ensures TagOK(m', C, first, b)
    {
      assert TagOK(m, C, first, b) && ChunkOK(C, first, top, b);
      PokeApart(C, first, top, st, L, a, o, b);
      if b != top {
        PokeApart(C, first, top, st, L, a, o, b + C[b].size);
      }
    }
    forall b | b in C && C[b].kind == Used
      ensures Undisturbed(m0, m', b, C[b].size)
    {
      assert Undisturbed(m0, m, b, C[b].size);
      PokeApart(C, first, top, st, L, a, o, b);
    }
  }
}
