/** The boundary-tagged segment of wiinandfuse/geckonand/malloc.c. */
module Chunks {
  import opened Sizes

  /** Memory, by word address. A word never written reads as some value the proofs do not depend on. */
  type Mem = map<int, int>

  function Get(m: Mem, a: int): int {
    if a in m then m[a] else 0
  }

  /** How a chunk is held: by the caller, in a bin, as the designated victim, by the running operation, as top. */
  datatype Kind = Used | Binned | Victim | Loose | Wild

  datatype Chunk = Chunk(size: int, kind: Kind, prev: int)

  type Chunks = map<int, Chunk>

  predicate Aligned(x: int) { x % 8 == 0 }

  lemma AlignedSum(x: int, y: int)
    requires Aligned(x) && Aligned(y)
    ensures Aligned(x + y) && Aligned(x - y)
  {
  }

  // ---------- tiling ----------

  /** Chunk b starts at or after the end of chunk a. */
  ghost predicate Clear(C: Chunks, a: int, b: int)
    requires a in C
  {
    a + C[a].size <= b
  }

  ghost predicate ChunkOK(C: Chunks, first: int, top: int, a: int)
    requires a in C
  {
    var c := C[a];
    && Aligned(a) && Aligned(c.size) && c.size >= 8 && first <= a <= top && (c.kind == Wild <==> a == top)
    && (a != top ==> c.size >= MIN_CHUNK && a + c.size in C && C[a + c.size].prev == a
                     && (c.kind != Used ==> C[a + c.size].kind == Used))
    && (a != first ==> c.prev in C && c.prev < a && c.prev + C[c.prev].size == a)
  }

  /** The chunks tile the segment from first to the end of top, and no two free ones, top included, are neighbours. */
  ghost predicate Tiling(C: Chunks, first: int, top: int) {
    && first in C && top in C && first > 0
    && (forall a {:trigger ChunkOK(C, first, top, a)} :: a in C ==> ChunkOK(C, first, top, a))
    && (forall a, b {:trigger Clear(C, a, b)} :: a in C && b in C && a < b ==> Clear(C, a, b))
  }

  ghost predicate PrevUsed(C: Chunks, first: int, a: int)
    requires a in C
  {
    a == first || (C[a].prev in C && C[C[a].prev].kind == Used)
  }

  /** A chunk's head word: the size, CINUSE_BIT and PINUSE_BIT. */
  function Head(size: int, cinuse: bool, pinuse: bool): int {
    size + (if cinuse then 2 else 0) + (if pinuse then 1 else 0)
  }

  function ChunkSize(head: int): int { head - head % 4 }

  predicate CInUse(head: int) { head / 2 % 2 == 1 }

  predicate PInUse(head: int) { head % 2 == 1 }

  function SetPInUse(head: int): int { if PInUse(head) then head else head + 1 }

  function ClearPInUse(head: int): int { if PInUse(head) then head - 1 else head }

  lemma HeadFields(size: int, c: bool, p: bool)
    requires size % 8 == 0
    ensures var h := Head(size, c, p);
      ChunkSize(h) == size && CInUse(h) == c && PInUse(h) == p
      && SetPInUse(h) == Head(size, c, true) && ClearPInUse(h) == Head(size, c, false)
  {
    assert size % 4 == 0;
  }

  ghost predicate TagOK(m: Mem, C: Chunks, first: int, a: int)
    requires a in C
  {
    var c := C[a];
    && Get(m, a + 4) == Head(c.size, c.kind == Used, PrevUsed(C, first, a))
    && (c.kind != Used && c.kind != Wild ==> Get(m, a + c.size) == c.size)
  }

  /** Every head mirrors its chunk, each PINUSE bit the CINUSE bit before it, each free chunk's size the next
      prev_foot. */
  ghost predicate Tags(m: Mem, C: Chunks, first: int) {
    forall a {:trigger TagOK(m, C, first, a)} :: a in C ==> TagOK(m, C, first, a)
  }

  // ---------- what an operation leaves alone ----------

  /** The bytes of a live block, the next chunk's prev_foot included, are the same. */
  ghost predicate Undisturbed(m: Mem, m': Mem, a: int, size: int) {
    forall x :: a + 8 <= x < a + size + 4 ==> Get(m', x) == Get(m, x)
  }

  ghost predicate Survives(C: Chunks, m: Mem, C': Chunks, m': Mem, a: int)
    requires a in C
  {
    a in C' && C'[a].kind == Used && C'[a].size == C[a].size && Undisturbed(m, m', a, C[a].size)
  }

  /** Every live block but p stays where it is, with its size and its bytes. */
  ghost predicate BlocksKept(C: Chunks, m: Mem, C': Chunks, m': Mem, p: int) {
    forall a {:trigger Survives(C, m, C', m', a)} :: a in C && C[a].kind == Used && a != p ==> Survives(C, m, C', m', a)
  }

  lemma BlocksKeptTwice(C0: Chunks, m0: Mem, C1: Chunks, m1: Mem, C2: Chunks, m2: Mem, p: int, q: int)
    requires BlocksKept(C0, m0, C1, m1, p) && BlocksKept(C1, m1, C2, m2, q)
    requires q == p || q !in C0 || C0[q].kind != Used
    ensures BlocksKept(C0, m0, C2, m2, p)
  {
    forall a | a in C0 && C0[a].kind == Used && a != p
      ensures Survives(C0, m0, C2, m2, a)
    {
      assert Survives(C0, m0, C1, m1, a) && Survives(C1, m1, C2, m2, a);
    }
  }

  /** The part of a free chunk behind its head, where the links are. */
  ghost predicate InteriorKept(m: Mem, m': Mem, a: int, size: int) {
    forall x :: a + 8 <= x < a + size ==> Get(m', x) == Get(m, x)
  }

  /** Every binned chunk stays, with the links inside it. */
  ghost predicate BinnedKept(C: Chunks, m: Mem, C': Chunks, m': Mem) {
    && (forall a {:trigger InteriorKept(m, m', a, C[a].size)} :: a in C && C[a].kind == Binned ==>
        InteriorKept(m, m', a, C[a].size))
    && (forall a :: a in C && C[a].kind == Binned ==> a in C' && C'[a].kind == Binned && C'[a].size == C[a].size)
    && (forall a :: a in C' && C'[a].kind == Binned ==> a in C && C[a].kind == Binned)
  }

  // ---------- changing a chunk's kind ----------

  function Recolor(C: Chunks, a: int, k: Kind): Chunks
    requires a in C
  {
    C[a := C[a].(kind := k)]
  }

  lemma RecolorFree(m: Mem, C: Chunks, first: int, top: int, a: int, k: Kind)
    requires Tiling(C, first, top) && Tags(m, C, first) && a in C && a != top && C[a].kind != Used && k != Used
      && k != Wild
    ensures Tiling(Recolor(C, a, k), first, top) && Tags(m, Recolor(C, a, k), first)
  {
    var C' := Recolor(C, a, k);
    forall b | b in C'
      ensures ChunkOK(C', first, top, b) && TagOK(m, C', first, b)
    {
      RecolorChunk(m, C, first, top, a, k, b);
    }
    forall b, c | b in C' && c in C' && b < c
      ensures Clear(C', b, c)
    {
      assert Clear(C, b, c);
    }
  }

  lemma RecolorChunk(m: Mem, C: Chunks, first: int, top: int, a: int, k: Kind, b: int)
    requires Tiling(C, first, top) && Tags(m, C, first) && a in C && a != top && C[a].kind != Used && k != Used
      && k != Wild && b in C
    ensures ChunkOK(Recolor(C, a, k), first, top, b) && TagOK(m, Recolor(C, a, k), first, b)
  {
    hide Head, Aligned;
    assert ChunkOK(C, first, top, a) && ChunkOK(C, first, top, b) && TagOK(m, C, first, b);
  }

  // ---------- cutting a chunk in two ----------

  /** No other chunk starts inside v. */
  lemma Outside(C: Chunks, first: int, top: int, v: int, b: int)
    requires Tiling(C, first, top) && v in C && b in C && b != v
    ensures if b < v then b + C[b].size <= v else v + C[v].size <= b
  {
    if b < v { assert Clear(C, b, v); } else { assert Clear(C, v, b); }
  }

  /** Chunk v becomes a used chunk of nb bytes and one of the rest. */
  function Cut(C: Chunks, v: int, nb: int, k: Kind): Chunks
    requires v in C && v + C[v].size in C
  {
    var n, r := v + C[v].size, v + nb;
    C[v := Chunk(nb, Used, C[v].prev)][r := Chunk(C[v].size - nb, k, v)][n := C[n].(prev := r)]
  }

  ghost predicate CanCut(C: Chunks, top: int, v: int, nb: int, k: Kind)
    requires v in C
  {
    && v != top && v + C[v].size in C && MIN_CHUNK <= nb && Aligned(nb) && nb + MIN_CHUNK <= C[v].size
    && k != Wild && k != Binned && (k == Used || C[v].kind != Used)
  }

  lemma CutChunk(C: Chunks, first: int, top: int, v: int, nb: int, k: Kind, b: int)
    requires Tiling(C, first, top) && v in C && CanCut(C, top, v, nb, k) && b in Cut(C, v, nb, k)
    ensures ChunkOK(Cut(C, v, nb, k), first, top, b)
  {
    hide Aligned;
    assert ChunkOK(C, first, top, v) && ChunkOK(C, first, top, v + C[v].size);
    AlignedSum(v, nb);
    AlignedSum(C[v].size, nb);
    if v + nb in C {
      Outside(C, first, top, v, v + nb);
    }
    if b == v || b == v + nb || b == v + C[v].size {
    } else {
      Outside(C, first, top, v, b);
      assert ChunkOK(C, first, top, b);
    }
  }

  lemma CutClear(C: Chunks, first: int, top: int, v: int, nb: int, k: Kind, b: int, c: int)
    requires Tiling(C, first, top) && v in C && CanCut(C, top, v, nb, k)
    requires b in Cut(C, v, nb, k) && c in Cut(C, v, nb, k) && b < c
    ensures Clear(Cut(C, v, nb, k), b, c)
  {
    if b == v {
      if c != v + nb {
        Outside(C, first, top, v, c);
      }
    } else if b != v + nb {
      Outside(C, first, top, v, b);
      if c != v + nb {
        assert Clear(C, b, c);
      }
    } else if c != v + nb {
      Outside(C, first, top, v, c);
    }
  }

  lemma CutTiling(C: Chunks, first: int, top: int, v: int, nb: int, k: Kind)
    requires Tiling(C, first, top) && v in C && CanCut(C, top, v, nb, k)
    ensures Tiling(Cut(C, v, nb, k), first, top)
  {
    var C' := Cut(C, v, nb, k);
    forall b | b in C' ensures ChunkOK(C', first, top, b) { CutChunk(C, first, top, v, nb, k, b); }
    forall b, c | b in C' && c in C' && b < c ensures Clear(C', b, c) { CutClear(C, first, top, v, nb, k, b, c); }
    hide ChunkOK;
  }

  // ---------- writes to heads and feet ----------

  /** Only heads, feet of free chunks and words inside top have changed. */
  ghost predicate OnlyTags(m: Mem, m': Mem, C: Chunks, top: int) {
    forall x {:trigger Get(m', x)} :: Get(m', x) != Get(m, x) ==>
      x - 4 in C || x >= top + 8
      || (x in C && C[x].prev in C && C[C[x].prev].kind != Used && C[x].prev + C[C[x].prev].size == x)
  }

  lemma TagsApart(m: Mem, m': Mem, C: Chunks, first: int, top: int, a: int)
    requires Tiling(C, first, top) && OnlyTags(m, m', C, top) && a in C && a != top
    ensures InteriorKept(m, m', a, C[a].size)
    ensures C[a].kind == Used ==> Undisturbed(m, m', a, C[a].size)
  {
    forall x | a + 8 <= x < a + C[a].size + 4 && Get(m', x) != Get(m, x)
      ensures x >= a + C[a].size && C[a].kind != Used
    {
      TagApart(m, m', C, first, top, a, x);
    }
  }

  lemma TagApart(m: Mem, m': Mem, C: Chunks, first: int, top: int, a: int, x: int)
    requires Tiling(C, first, top) && OnlyTags(m, m', C, top) && a in C && a != top
    requires a + 8 <= x < a + C[a].size + 4 && Get(m', x) != Get(m, x)
    ensures x >= a + C[a].size && C[a].kind != Used
  {
    hide Get, Aligned;
    assert ChunkOK(C, first, top, a);
    Outside(C, first, top, a, top);
    if x - 4 in C {
      Outside(C, first, top, a, x - 4);
      assert false;
    } else {
      Outside(C, first, top, a, x);
      assert ChunkOK(C, first, top, x);
      Multiples(a, C[a].size, x);
      var p := C[x].prev;
      if p != a {
        Outside(C, first, top, a, p);
      }
    }
  }

  lemma Multiples(a: int, s: int, x: int)
    requires Aligned(a) && Aligned(s) && Aligned(x) && a + s <= x < a + s + 4
    ensures x == a + s
  {
  }

  /** Words below the segment are the same. */
  ghost predicate LowKept(m: Mem, m': Mem, first: int) {
    forall x {:trigger Get(m', x)} :: x < first ==> Get(m', x) == Get(m, x)
  }

  lemma TagsHigh(m: Mem, m': Mem, C: Chunks, first: int, top: int)
    requires Tiling(C, first, top) && OnlyTags(m, m', C, top)
    ensures LowKept(m, m', first)
  {
    forall x | x < first
      ensures Get(m', x) == Get(m, x)
    {
      assert x - 4 in C ==> ChunkOK(C, first, top, x - 4);
      assert x in C ==> ChunkOK(C, first, top, x);
      assert ChunkOK(C, first, top, top);
    }
  }

  /** Live blocks, except p, and binned chunks are the same chunks in C and C'. */
  ghost predicate SameHeld(C: Chunks, C': Chunks, p: int) {
    && (forall a :: a in C && C[a].kind == Used && a != p ==> a in C' && C'[a].kind == Used && C'[a].size == C[a].size)
    && (forall a :: a in C && C[a].kind == Binned ==> a in C' && C'[a].kind == Binned && C'[a].size == C[a].size)
    && (forall a :: a in C' && C'[a].kind == Binned ==> a in C && C[a].kind == Binned)
  }

  /** Writes to heads and feet leave live blocks and binned chunks alone. */
  lemma TagWritesKeep(C: Chunks, m: Mem, C': Chunks, m': Mem, first: int, top: int, p: int)
    requires Tiling(C', first, top) && OnlyTags(m, m', C', top) && SameHeld(C, C', p)
    ensures BlocksKept(C, m, C', m', p) && BinnedKept(C, m, C', m') && LowKept(m, m', first)
  {
    TagsHigh(m, m', C', first, top);
    hide OnlyTags, InteriorKept, Undisturbed;
    forall a | a in C && C[a].kind == Used && a != p
      ensures Survives(C, m, C', m', a)
    {
      assert ChunkOK(C', first, top, a);
      TagsApart(m, m', C', first, top, a);
    }
    forall a | a in C && C[a].kind == Binned
      ensures InteriorKept(m, m', a, C[a].size)
    {
      assert ChunkOK(C', first, top, a);
      TagsApart(m, m', C', first, top, a);
    }
  }

  /** What every change of the segment delivers. */
  ghost predicate Step(C: Chunks, m: Mem, C': Chunks, m': Mem, first: int, top: int, p: int) {
    && Tiling(C', first, top) && Tags(m', C', first)
    && BlocksKept(C, m, C', m', p) && BinnedKept(C, m, C', m') && LowKept(m, m', first)
  }

  // ---------- allocating ----------

  /** Other chunks come out of a cut as they were, but for the prev of the next. */
  lemma CutSame(C: Chunks, first: int, top: int, v: int, nb: int, k: Kind)
    requires Tiling(C, first, top) && v in C && CanCut(C, top, v, nb, k)
    ensures v + nb !in C && (C[v].kind == Used || C[v].kind == Loose || C[v].kind == Victim ==>
      SameHeld(C, Cut(C, v, nb, k), v))
    ensures forall b :: b in C && b != v ==>
      b in Cut(C, v, nb, k) && Cut(C, v, nb, k)[b].kind == C[b].kind && Cut(C, v, nb, k)[b].size == C[b].size
    ensures forall b :: b in Cut(C, v, nb, k) ==> b in C || b == v + nb
  {
    assert ChunkOK(C, first, top, v);
    if v + nb in C {
      Outside(C, first, top, v, v + nb);
    }
  }

  /** A free chunk is split: nb bytes in use, the rest free. */
  lemma SplitFree(m: Mem, C: Chunks, first: int, top: int, v: int, nb: int, k: Kind, m': Mem)
    requires Tiling(C, first, top) && Tags(m, C, first) && v in C && CanCut(C, top, v, nb, k)
    requires (C[v].kind == Loose || C[v].kind == Victim) && (k == Loose || k == Victim)
    requires var r, rest := v + nb, C[v].size - nb;
      && Get(m', v + 4) == Head(nb, true, true) && Get(m', r + 4) == Head(rest, false, true)
      && Get(m', r + rest) == rest
      && forall x :: x != v + 4 && x != r + 4 && x != r + rest ==> Get(m', x) == Get(m, x)
    ensures Step(C, m, Cut(C, v, nb, k), m', first, top, v)
  {
    var C' := Cut(C, v, nb, k);
    CutTiling(C, first, top, v, nb, k);
    forall b | b in C'
      ensures TagOK(m', C', first, b)
    {
      SplitFreeTag(m, C, first, top, v, nb, k, m', b);
    }
    CutSame(C, first, top, v, nb, k);
    assert OnlyTags(m, m', C', top);
    hide OnlyTags, SameHeld;
    TagWritesKeep(C, m, C', m', first, top, v);
  }

  lemma SplitFreeTag(m: Mem, C: Chunks, first: int, top: int, v: int, nb: int, k: Kind, m': Mem, b: int)
    requires Tiling(C, first, top) && Tags(m, C, first) && v in C && CanCut(C, top, v, nb, k)
    requires (C[v].kind == Loose || C[v].kind == Victim) && (k == Loose || k == Victim)
    requires var r, rest := v + nb, C[v].size - nb;
      && Get(m', v + 4) == Head(nb, true, true) && Get(m', r + 4) == Head(rest, false, true)
      && Get(m', r + rest) == rest
      && forall x :: x != v + 4 && x != r + 4 && x != r + rest ==> Get(m', x) == Get(m, x)
    requires b in Cut(C, v, nb, k)
    ensures TagOK(m', Cut(C, v, nb, k), first, b)
  {
    assert ChunkOK(C, first, top, v) && TagOK(m, C, first, v);
    CutSame(C, first, top, v, nb, k);
    if b in C && b != v {
      Outside(C, first, top, v, b);
      assert ChunkOK(C, first, top, b) && TagOK(m, C, first, b);
    } else if v != first {
      assert ChunkOK(C, first, top, C[v].prev);
    }
  }

  /** A free chunk is taken whole. */
  lemma TakeFree(m: Mem, C: Chunks, first: int, top: int, v: int, m': Mem)
    requires Tiling(C, first, top) && Tags(m, C, first) && v in C && (C[v].kind == Loose || C[v].kind == Victim)
    requires var n := v + C[v].size;
      && Get(m', v + 4) == Head(C[v].size, true, true) && Get(m', n + 4) == SetPInUse(Get(m, n + 4))
      && forall x :: x != v + 4 && x != n + 4 ==> Get(m', x) == Get(m, x)
    ensures Step(C, m, Recolor(C, v, Used), m', first, top, v)
  {
    var C' := Recolor(C, v, Used);
    assert ChunkOK(C, first, top, v);
    TakeTiling(C, first, top, v);
    forall b | b in C'
      ensures TagOK(m', C', first, b)
    {
      TakeFreeTag(m, C, first, top, v, m', b);
    }
    hide Tiling, Tags;
    TagWritesKeep(C, m, C', m', first, top, v);
  }

  lemma TakeTiling(C: Chunks, first: int, top: int, v: int)
    requires Tiling(C, first, top) && v in C && v != top
    ensures Tiling(Recolor(C, v, Used), first, top)
  {
    var C' := Recolor(C, v, Used);
    forall b | b in C' ensures ChunkOK(C', first, top, b) { TakeChunk(C, first, top, v, b); }
    hide ChunkOK;
    forall b, c | b in C' && c in C' && b < c
      ensures Clear(C', b, c)
    {
      assert Clear(C, b, c);
    }
  }

  lemma TakeChunk(C: Chunks, first: int, top: int, v: int, b: int)
    requires Tiling(C, first, top) && v in C && v != top && b in C
    ensures ChunkOK(Recolor(C, v, Used), first, top, b)
  {
    hide Aligned;
    assert ChunkOK(C, first, top, v) && ChunkOK(C, first, top, b);
  }

  lemma NotHead(x: int, y: int)
    requires Aligned(x) && Aligned(y)
    ensures x != y + 4
  {
  }

  lemma TakeFreeTag(m: Mem, C: Chunks, first: int, top: int, v: int, m': Mem, b: int)
    requires Tiling(C, first, top) && Tags(m, C, first) && v in C && (C[v].kind == Loose || C[v].kind == Victim)
      && b in C
    requires var n := v + C[v].size;
      && Get(m', v + 4) == Head(C[v].size, true, true) && Get(m', n + 4) == SetPInUse(Get(m, n + 4))
      && forall x :: x != v + 4 && x != n + 4 ==> Get(m', x) == Get(m, x)
    ensures TagOK(m', Recolor(C, v, Used), first, b)
  {
    hide Aligned;
    var n := v + C[v].size;
    assert ChunkOK(C, first, top, v) && ChunkOK(C, first, top, n) && ChunkOK(C, first, top, b);
    AlignedSum(b, C[b].size);
    assert TagOK(m, C, first, v) && TagOK(m, C, first, n) && TagOK(m, C, first, b);
    HeadOfNext(C[n].size, C[n].kind == Used);
    hide Head, SetPInUse;
    if v != first {
      assert ChunkOK(C, first, top, C[v].prev);
    }
    if b != top {
      NotHead(b + C[b].size, v);
      NotHead(b + C[b].size, n);
    }
  }

  lemma HeadOfNext(size: int, c: bool)
    requires Aligned(size)
    ensures SetPInUse(Head(size, c, false)) == Head(size, c, true)
      && ClearPInUse(Head(size, c, true)) == Head(size, c, false)
    ensures SetPInUse(Head(size, c, true)) == Head(size, c, true)
      && ClearPInUse(Head(size, c, false)) == Head(size, c, false)
  {
    HeadFields(size, c, true);
    HeadFields(size, c, false);
  }

  /** The chunk map with top moved up: the block before it is nb bytes long. */
  function CutTop(C: Chunks, top: int, nb: int): Chunks
    requires top in C
  {
    C[top := Chunk(nb, Used, C[top].prev)][top + nb := Chunk(C[top].size - nb, Wild, top)]
  }

  lemma CutTopTiling(C: Chunks, first: int, top: int, nb: int)
    requires Tiling(C, first, top) && MIN_CHUNK <= nb < C[top].size && Aligned(nb)
    ensures Tiling(CutTop(C, top, nb), first, top + nb) && top + nb !in C
  {
    var C', r := CutTop(C, top, nb), top + nb;
    NewTop(C, first, top, nb);
    hide ChunkOK;
    forall b | b in C' ensures ChunkOK(C', first, r, b) { CutTopChunk(C, first, top, nb, b); }
    forall b, c | b in C' && c in C' && b < c ensures Clear(C', b, c) { CutTopClear(C, first, top, nb, b, c); }
  }

  lemma NewTop(C: Chunks, first: int, top: int, nb: int)
    requires Tiling(C, first, top) && nb > 0
    ensures top + nb !in C
  {
    assert top + nb in C ==> ChunkOK(C, first, top, top + nb);
  }

  lemma CutTopChunk(C: Chunks, first: int, top: int, nb: int, b: int)
    requires Tiling(C, first, top) && MIN_CHUNK <= nb < C[top].size && Aligned(nb) && b in CutTop(C, top, nb)
    ensures ChunkOK(CutTop(C, top, nb), first, top + nb, b)
  {
    hide Aligned;
    assert ChunkOK(C, first, top, top);
    AlignedSum(top, nb);
    AlignedSum(C[top].size, nb);
    Positive(C[top].size - nb);
    assert top + nb in C ==> ChunkOK(C, first, top, top + nb);
    if b in C && b != top {
      assert ChunkOK(C, first, top, b);
    }
  }

  lemma Positive(x: int)
    requires Aligned(x) && x > 0
    ensures x >= 8
  {
  }

  lemma CutTopClear(C: Chunks, first: int, top: int, nb: int, b: int, c: int)
    requires Tiling(C, first, top) && MIN_CHUNK <= nb < C[top].size && Aligned(nb)
    requires b in CutTop(C, top, nb) && c in CutTop(C, top, nb) && b < c
    ensures Clear(CutTop(C, top, nb), b, c)
  {
    hide Aligned;
    if c != top + nb {
      assert ChunkOK(C, first, top, c);
      assert Clear(C, b, c);
    } else if b != top {
      assert ChunkOK(C, first, top, b);
      Outside(C, first, top, top, b);
    }
  }

  /** Memory is taken from the low end of top. */
  lemma SplitTop(m: Mem, C: Chunks, first: int, top: int, nb: int, m': Mem)
    requires Tiling(C, first, top) && Tags(m, C, first) && MIN_CHUNK <= nb < C[top].size && Aligned(nb)
    requires && Get(m', top + 4) == Head(nb, true, true) && Get(m', top + nb + 4) == Head(C[top].size - nb, false, true)
             && forall x :: x != top + 4 && x != top + nb + 4 ==> Get(m', x) == Get(m, x)
    ensures Step(C, m, CutTop(C, top, nb), m', first, top + nb, top)
  {
    var C', r := CutTop(C, top, nb), top + nb;
    CutTopTiling(C, first, top, nb);
    assert ChunkOK(C, first, top, top) && TagOK(m, C, first, top);
    forall b | b in C'
      ensures TagOK(m', C', first, b)
    {
      SplitTopTag(m, C, first, top, nb, m', b);
    }
    hide Tiling, Tags;
    TagWritesKeep(C, m, C', m', first, r, top);
  }

  lemma SplitTopTag(m: Mem, C: Chunks, first: int, top: int, nb: int, m': Mem, b: int)
    requires Tiling(C, first, top) && Tags(m, C, first) && MIN_CHUNK <= nb < C[top].size && Aligned(nb)
    requires && Get(m', top + 4) == Head(nb, true, true) && Get(m', top + nb + 4) == Head(C[top].size - nb, false, true)
             && forall x :: x != top + 4 && x != top + nb + 4 ==> Get(m', x) == Get(m, x)
    requires b in CutTop(C, top, nb)
    ensures TagOK(m', CutTop(C, top, nb), first, b)
  {
    hide Aligned;
    assert ChunkOK(C, first, top, top);
    AlignedSum(top, nb);
    if top != first {
      assert ChunkOK(C, first, top, C[top].prev);
    }
    if b in C && b != top {
      assert ChunkOK(C, first, top, b) && TagOK(m, C, first, b);
      Outside(C, first, top, top, b);
      AlignedSum(b, C[b].size);
      NotHead(b + C[b].size, top);
      NotHead(b + C[b].size, top + nb);
    }
  }

  /** The writes that make two live chunks of the live chunk v. */
  ghost predicate UsedSplit(C: Chunks, m: Mem, v: int, nb: int, m': Mem)
    requires v in C
  {
    var r, rest := v + nb, C[v].size - nb;
    && Get(m', v + 4) == Head(nb, true, PInUse(Get(m, v + 4))) && Get(m', r + 4) == Head(rest, true, true)
    && Get(m', r + rest + 4) == SetPInUse(Get(m, r + rest + 4))
    && forall x :: x != v + 4 && x != r + 4 && x != r + rest + 4 ==> Get(m', x) == Get(m, x)
  }

  /** A live block is split into two live blocks. */
  lemma SplitUsed(m: Mem, C: Chunks, first: int, top: int, v: int, nb: int, m': Mem)
    requires Tiling(C, first, top) && Tags(m, C, first) && v in C && CanCut(C, top, v, nb, Used) && C[v].kind == Used
    requires UsedSplit(C, m, v, nb, m')
    ensures Step(C, m, Cut(C, v, nb, Used), m', first, top, v)
  {
    var C' := Cut(C, v, nb, Used);
    CutTiling(C, first, top, v, nb, Used);
    forall b | b in C'
      ensures TagOK(m', C', first, b)
    {
      SplitUsedTag(m, C, first, top, v, nb, m', b);
    }
    CutSame(C, first, top, v, nb, Used);
    SplitUsedWrites(m, C, first, top, v, nb, m');
    hide OnlyTags, SameHeld, Tiling, Tags, CanCut, Cut;
    TagWritesKeep(C, m, C', m', first, top, v);
  }

  lemma SplitUsedWrites(m: Mem, C: Chunks, first: int, top: int, v: int, nb: int, m': Mem)
    requires Tiling(C, first, top) && Tags(m, C, first) && v in C && CanCut(C, top, v, nb, Used) && C[v].kind == Used
    requires UsedSplit(C, m, v, nb, m')
    ensures OnlyTags(m, m', Cut(C, v, nb, Used), top)
  {
    CutSame(C, first, top, v, nb, Used);
  }

  lemma SplitUsedTag(m: Mem, C: Chunks, first: int, top: int, v: int, nb: int, m': Mem, b: int)
    requires Tiling(C, first, top) && Tags(m, C, first) && v in C && CanCut(C, top, v, nb, Used) && C[v].kind == Used
    requires UsedSplit(C, m, v, nb, m')
    requires b in Cut(C, v, nb, Used)
    ensures TagOK(m', Cut(C, v, nb, Used), first, b)
  {
    if b in C && b != v {
      SplitUsedOther(m, C, first, top, v, nb, m', b);
    } else {
      hide Aligned;
      var n := v + C[v].size;
      assert ChunkOK(C, first, top, v) && TagOK(m, C, first, v) && ChunkOK(C, first, top, n);
      HeadPInUse(C[v].size, true, PrevUsed(C, first, v));
      hide Head, SetPInUse;
      CutSame(C, first, top, v, nb, Used);
      AlignedSum(v, nb);
    }
  }

  lemma SplitUsedOther(m: Mem, C: Chunks, first: int, top: int, v: int, nb: int, m': Mem, b: int)
    requires Tiling(C, first, top) && Tags(m, C, first) && v in C && CanCut(C, top, v, nb, Used) && C[v].kind == Used
    requires UsedSplit(C, m, v, nb, m')
    requires b in C && b != v
    ensures b in Cut(C, v, nb, Used) && TagOK(m', Cut(C, v, nb, Used), first, b)
  {
    hide Aligned, Head, SetPInUse;
    var n := v + C[v].size;
    assert ChunkOK(C, first, top, v) && ChunkOK(C, first, top, b) && TagOK(m, C, first, b) && ChunkOK(C, first, top, n);
    CutSame(C, first, top, v, nb, Used);
    AlignedSum(v, nb);
    SplitUsedHead(m, C, first, top, v, nb, m', b);
    if b != top {
      AlignedSum(b, C[b].size);
      NotHead(b + C[b].size, v);
      NotHead(b + C[b].size, v + nb);
      NotHead(b + C[b].size, n);
    }
  }

  /** The head of another chunk, which changes in the chunk behind v if at all. */
  lemma SplitUsedHead(m: Mem, C: Chunks, first: int, top: int, v: int, nb: int, m': Mem, b: int)
    requires Tiling(C, first, top) && Tags(m, C, first) && v in C && CanCut(C, top, v, nb, Used) && C[v].kind == Used
    requires UsedSplit(C, m, v, nb, m')
    requires b in C && b != v
    ensures b in Cut(C, v, nb, Used)
    ensures Get(m', b + 4) == Head(C[b].size, C[b].kind == Used, PrevUsed(Cut(C, v, nb, Used), first, b))
  {
    hide Aligned;
    assert ChunkOK(C, first, top, v) && ChunkOK(C, first, top, b) && TagOK(m, C, first, b);
    HeadOfNext(C[b].size, C[b].kind == Used);
    hide Head, SetPInUse;
    CutSame(C, first, top, v, nb, Used);
  }

  lemma HeadPInUse(size: int, c: bool, p: bool)
    requires Aligned(size)
    ensures PInUse(Head(size, c, p)) == p
  {
    HeadFields(size, c, p);
  }

  // ---------- freeing ----------

  /** The chunks from lo up to hi become one free chunk. */
  function Fuse(C: Chunks, lo: int, hi: int, k: Kind): Chunks
    requires lo in C
  {
    map a | a in C && (a <= lo || hi <= a) ::
      if a == lo then Chunk(hi - lo, k, C[lo].prev) else if a == hi then C[a].(prev := lo) else C[a]
  }

  ghost predicate CanFuse(C: Chunks, first: int, top: int, lo: int, hi: int, k: Kind, p: int)
    requires lo in C
  {
    && hi in C && lo < hi && (k == Loose || k == Victim) && C[hi].kind == Used && PrevUsed(C, first, lo)
    && forall b {:trigger C[b]} :: b in C && lo <= b < hi ==>
        (b == p && C[b].kind == Used) || C[b].kind == Loose || C[b].kind == Victim
  }

  lemma FuseChunk(C: Chunks, first: int, top: int, lo: int, hi: int, k: Kind, p: int, b: int)
    requires Tiling(C, first, top) && lo in C && CanFuse(C, first, top, lo, hi, k, p) && b in Fuse(C, lo, hi, k)
    ensures ChunkOK(Fuse(C, lo, hi, k), first, top, b)
  {
    hide Aligned;
    assert ChunkOK(C, first, top, lo) && ChunkOK(C, first, top, hi) && ChunkOK(C, first, top, b);
    Outside(C, first, top, lo, hi);
    AlignedSum(hi, lo);
    if b != first {
      var q := C[b].prev;
      if lo < q < hi {
        Outside(C, first, top, q, hi);
      }
    }
    if b != top && b != lo {
      var n := b + C[b].size;
      if b < lo {
        Outside(C, first, top, b, lo);
      }
    }
  }

  lemma FuseTiling(C: Chunks, first: int, top: int, lo: int, hi: int, k: Kind, p: int)
    requires Tiling(C, first, top) && lo in C && CanFuse(C, first, top, lo, hi, k, p)
    ensures Tiling(Fuse(C, lo, hi, k), first, top)
  {
    var C' := Fuse(C, lo, hi, k);
    assert ChunkOK(C, first, top, lo) && ChunkOK(C, first, top, hi) && ChunkOK(C, first, top, first);
    forall b | b in C' ensures ChunkOK(C', first, top, b) { FuseChunk(C, first, top, lo, hi, k, p, b); }
    forall b, c | b in C' && c in C' && b < c
      ensures Clear(C', b, c)
    {
      if b != lo { assert Clear(C, b, c); }
    }
  }

  /** Everything from lo up to a live chunk is free now. */
  lemma FuseFree(m: Mem, C: Chunks, first: int, top: int, lo: int, hi: int, k: Kind, p: int, m': Mem)
    requires Tiling(C, first, top) && Tags(m, C, first) && lo in C && CanFuse(C, first, top, lo, hi, k, p)
    requires && Get(m', lo + 4) == Head(hi - lo, false, true) && Get(m', hi) == hi - lo
             && Get(m', hi + 4) == Head(C[hi].size, true, false)
             && forall x :: x != lo + 4 && x != hi && x != hi + 4 ==> Get(m', x) == Get(m, x)
    ensures Step(C, m, Fuse(C, lo, hi, k), m', first, top, p)
  {
    var C' := Fuse(C, lo, hi, k);
    FuseTiling(C, first, top, lo, hi, k, p);
    forall b | b in C'
      ensures TagOK(m', C', first, b)
    {
      FuseFreeTag(m, C, first, top, lo, hi, k, p, m', b);
    }
    assert OnlyTags(m, m', C', top);
    FuseSame(C, first, top, lo, hi, k, p);
    hide OnlyTags, SameHeld, Tiling, Tags;
    TagWritesKeep(C, m, C', m', first, top, p);
  }

  lemma FuseSame(C: Chunks, first: int, top: int, lo: int, hi: int, k: Kind, p: int)
    requires Tiling(C, first, top) && lo in C && CanFuse(C, first, top, lo, hi, k, p)
    ensures SameHeld(C, Fuse(C, lo, hi, k), p)
  {
  }

  lemma FuseFreeTag(m: Mem, C: Chunks, first: int, top: int, lo: int, hi: int, k: Kind, p: int, m': Mem, b: int)
    requires Tiling(C, first, top) && Tags(m, C, first) && lo in C && CanFuse(C, first, top, lo, hi, k, p)
    requires && Get(m', lo + 4) == Head(hi - lo, false, true) && Get(m', hi) == hi - lo
             && Get(m', hi + 4) == Head(C[hi].size, true, false)
             && forall x :: x != lo + 4 && x != hi && x != hi + 4 ==> Get(m', x) == Get(m, x)
    requires b in Fuse(C, lo, hi, k)
    ensures TagOK(m', Fuse(C, lo, hi, k), first, b)
  {
    hide Aligned;
    assert ChunkOK(C, first, top, lo) && ChunkOK(C, first, top, hi);
    assert ChunkOK(C, first, top, b) && TagOK(m, C, first, b);
    if b != top {
      AlignedSum(b, C[b].size);
      NotHead(b + C[b].size, lo);
      NotHead(b + C[b].size, hi);
    }
    if b < lo {
      Outside(C, first, top, b, lo);
    }
    NotHead(hi, b);
    if b != first {
      var q := C[b].prev;
      if lo <= q < hi {
        Outside(C, first, top, q, hi);
      }
    }
  }

  // ---------- top ----------

  /** Everything from lo on becomes top. */
  function FuseTop(C: Chunks, top: int, lo: int): Chunks
    requires lo in C && top in C
  {
    map a | a in C && a <= lo :: if a == lo then Chunk(top + C[top].size - lo, Wild, C[lo].prev) else C[a]
  }

  ghost predicate CanFuseTop(C: Chunks, first: int, top: int, lo: int, p: int)
    requires lo in C
  {
    && lo < top && PrevUsed(C, first, lo)
    && forall b {:trigger C[b]} :: b in C && lo <= b < top ==>
        (b == p && C[b].kind == Used) || C[b].kind == Loose || C[b].kind == Victim
  }

  lemma FuseTopTiling(C: Chunks, first: int, top: int, lo: int, p: int)
    requires Tiling(C, first, top) && lo in C && CanFuseTop(C, first, top, lo, p)
    ensures Tiling(FuseTop(C, top, lo), first, lo)
  {
    var C' := FuseTop(C, top, lo);
    FuseTopAbove(C, first, top, lo);
    hide ChunkOK;
    forall b | b in C' ensures ChunkOK(C', first, lo, b) { FuseTopChunk(C, first, top, lo, p, b); }
    forall b, c | b in C' && c in C' && b < c
      ensures Clear(C', b, c)
    {
      assert Clear(C, b, c);
    }
  }

  lemma FuseTopSame(C: Chunks, first: int, top: int, lo: int, p: int)
    requires Tiling(C, first, top) && lo in C && CanFuseTop(C, first, top, lo, p)
    ensures SameHeld(C, FuseTop(C, top, lo), p)
  {
    hide Tiling;
    forall b | b in C && b >= lo
      ensures C[b].kind != Binned && (C[b].kind == Used ==> b == p)
    {
      FuseTopAbove(C, first, top, b);
    }
  }

  lemma FuseTopAbove(C: Chunks, first: int, top: int, b: int)
    requires Tiling(C, first, top) && b in C
    ensures first <= b <= top && (C[b].kind == Wild <==> b == top) && C[b].size >= 8
  {
    assert ChunkOK(C, first, top, b);
  }

  lemma FuseTopChunk(C: Chunks, first: int, top: int, lo: int, p: int, b: int)
    requires Tiling(C, first, top) && lo in C && CanFuseTop(C, first, top, lo, p) && b in FuseTop(C, top, lo)
    ensures ChunkOK(FuseTop(C, top, lo), first, lo, b)
  {
    hide Aligned;
    assert ChunkOK(C, first, top, lo) && ChunkOK(C, first, top, top) && ChunkOK(C, first, top, b);
    AlignedSum(top, C[top].size);
    AlignedSum(top + C[top].size, lo);
    if b < lo {
      Outside(C, first, top, b, lo);
    }
  }

  lemma FuseTopTags(m: Mem, C: Chunks, first: int, top: int, lo: int, p: int, m': Mem)
    requires Tiling(C, first, top) && Tags(m, C, first) && lo in C && CanFuseTop(C, first, top, lo, p)
    requires && Get(m', lo + 4) == Head(top + C[top].size - lo, false, true)
             && forall x :: x != lo + 4 ==> Get(m', x) == Get(m, x)
    ensures Step(C, m, FuseTop(C, top, lo), m', first, lo, p)
  {
    var C' := FuseTop(C, top, lo);
    FuseTopTiling(C, first, top, lo, p);
    FuseTopSame(C, first, top, lo, p);
    forall b | b in C'
      ensures TagOK(m', C', first, b)
    {
      assert ChunkOK(C, first, top, b) && ChunkOK(C, first, top, lo) && TagOK(m, C, first, b);
      if b < lo {
        Outside(C, first, top, b, lo);
      }
    }
    hide Tiling, Tags, SameHeld;
    TagWritesKeep(C, m, C', m', first, lo, p);
  }

  /** Top is extended at its high end. */
  lemma GrowTop(m: Mem, C: Chunks, first: int, top: int, more: int, m': Mem)
    requires Tiling(C, first, top) && Tags(m, C, first) && more >= 0 && Aligned(more)
    requires && Get(m', top + 4) == Head(C[top].size + more, false, true)
             && forall x :: x != top + 4 && x != top + C[top].size + more + 4 ==> Get(m', x) == Get(m, x)
    ensures Step(C, m, C[top := C[top].(size := C[top].size + more)], m', first, top, 0)
  {
    var C' := C[top := C[top].(size := C[top].size + more)];
    GrowTopTiling(C, first, top, more);
    forall b | b in C'
      ensures TagOK(m', C', first, b)
    {
      GrowTopTag(m, C, first, top, more, m', b);
    }
    assert ChunkOK(C, first, top, top);
    assert OnlyTags(m, m', C', top) && SameHeld(C, C', 0);
    hide Tiling, Tags, OnlyTags, SameHeld;
    TagWritesKeep(C, m, C', m', first, top, 0);
  }

  lemma GrowTopTag(m: Mem, C: Chunks, first: int, top: int, more: int, m': Mem, b: int)
    requires Tiling(C, first, top) && Tags(m, C, first) && more >= 0 && Aligned(more) && b in C
    requires && Get(m', top + 4) == Head(C[top].size + more, false, true)
             && forall x :: x != top + 4 && x != top + C[top].size + more + 4 ==> Get(m', x) == Get(m, x)
    ensures TagOK(m', C[top := C[top].(size := C[top].size + more)], first, b)
  {
    hide Aligned;
    assert ChunkOK(C, first, top, b) && ChunkOK(C, first, top, top) && TagOK(m, C, first, b);
    if b != top {
      Outside(C, first, top, top, b);
      AlignedSum(b, C[b].size);
      NotHead(b + C[b].size, top);
    } else if top != first {
      assert ChunkOK(C, first, top, C[top].prev);
    }
  }

  lemma GrowTopTiling(C: Chunks, first: int, top: int, more: int)
    requires Tiling(C, first, top) && more >= 0 && Aligned(more)
    ensures Tiling(C[top := C[top].(size := C[top].size + more)], first, top)
  {
    var C' := C[top := C[top].(size := C[top].size + more)];
    assert ChunkOK(C, first, top, top);
    AlignedSum(C[top].size, more);
    hide Aligned;
    forall b | b in C'
      ensures ChunkOK(C', first, top, b)
    {
      assert ChunkOK(C, first, top, b);
    }
    forall b, c | b in C' && c in C' && b < c
      ensures Clear(C', b, c)
    {
      assert Clear(C, b, c) && ChunkOK(C, first, top, c);
    }
  }

  /** The first top is the whole segment. */
  lemma FirstTop(m: Mem, top: int, size: int)
    requires top > 0 && Aligned(top) && Aligned(size) && size >= 8 && Get(m, top + 4) == Head(size, false, true)
    ensures var C := map[top := Chunk(size, Wild, 0)]; Tiling(C, top, top) && Tags(m, C, top)
  {
    var C := map[top := Chunk(size, Wild, 0)];
    assert ChunkOK(C, top, top, top) && TagOK(m, C, top, top);
  }

  /** The live block before top, extended into it. */
  function ShiftTop(C: Chunks, p: int, nb: int): Chunks
    requires p in C && p + C[p].size in C
  {
    var top := p + C[p].size;
    (C - {top})[p := Chunk(nb, Used, C[p].prev)][p + nb := Chunk(C[p].size + C[top].size - nb, Wild, p)]
  }

  lemma ShiftTopTiling(C: Chunks, first: int, top: int, p: int, nb: int)
    requires Tiling(C, first, top) && p in C && p + C[p].size == top && C[p].size < nb < C[p].size + C[top].size
      && Aligned(nb)
    ensures Tiling(ShiftTop(C, p, nb), first, p + nb)
  {
    var C', r := ShiftTop(C, p, nb), p + nb;
    ShiftTopEnds(C, first, top, p, nb);
    hide ChunkOK, Clear, ShiftTop;
    forall b | b in C' ensures ChunkOK(C', first, r, b) { ShiftTopChunk(C, first, top, p, nb, b); }
    forall b, c | b in C' && c in C' && b < c ensures Clear(C', b, c) { ShiftTopClear(C, first, top, p, nb, b, c); }
  }

  lemma ShiftTopEnds(C: Chunks, first: int, top: int, p: int, nb: int)
    requires Tiling(C, first, top) && p in C && p + C[p].size == top
    ensures first in ShiftTop(C, p, nb) && p + nb in ShiftTop(C, p, nb)
  {
    FuseTopAbove(C, first, top, p);
  }

  lemma ShiftTopClear(C: Chunks, first: int, top: int, p: int, nb: int, b: int, c: int)
    requires Tiling(C, first, top) && p in C && p + C[p].size == top && C[p].size < nb
    requires b in ShiftTop(C, p, nb) && c in ShiftTop(C, p, nb) && b < c
    ensures Clear(ShiftTop(C, p, nb), b, c)
  {
    hide ChunkOK;
    FuseTopAbove(C, first, top, p);
    if b == p || b == p + nb {
      if c != p + nb {
        FuseTopAbove(C, first, top, c);
        Outside(C, first, top, p, c);
      }
    } else {
      FuseTopAbove(C, first, top, b);
      Outside(C, first, top, p, b);
      if c != p + nb { assert Clear(C, b, c); }
    }
  }

  lemma ShiftTopChunk(C: Chunks, first: int, top: int, p: int, nb: int, b: int)
    requires Tiling(C, first, top) && p in C && p + C[p].size == top && C[p].size < nb < C[p].size + C[top].size
      && Aligned(nb)
    requires b in ShiftTop(C, p, nb)
    ensures ChunkOK(ShiftTop(C, p, nb), first, p + nb, b)
  {
    hide Aligned;
    assert ChunkOK(C, first, top, p) && ChunkOK(C, first, top, top);
    AlignedSum(p, nb);
    AlignedSum(C[p].size, C[top].size);
    AlignedSum(C[p].size + C[top].size, nb);
    Positive(C[p].size + C[top].size - nb);
    NewTop(C, first, top, p + nb - top);
    if b in C && b != p {
      assert ChunkOK(C, first, top, b);
      Outside(C, first, top, p, b);
    }
  }

  lemma ExtendIntoTop(m: Mem, C: Chunks, first: int, top: int, p: int, nb: int, m': Mem)
    requires Tiling(C, first, top) && Tags(m, C, first) && p in C && C[p].kind == Used && p + C[p].size == top
    requires C[p].size < nb < C[p].size + C[top].size && Aligned(nb)
    requires && Get(m', p + 4) == Head(nb, true, PInUse(Get(m, p + 4)))
             && Get(m', p + nb + 4) == Head(C[p].size + C[top].size - nb, false, true)
             && forall x :: x != p + 4 && x != p + nb + 4 ==> Get(m', x) == Get(m, x)
    ensures Step(C, m, ShiftTop(C, p, nb), m', first, p + nb, p)
  {
    var C', r := ShiftTop(C, p, nb), p + nb;
    ShiftTopTiling(C, first, top, p, nb);
    forall b | b in C'
      ensures TagOK(m', C', first, b)
    {
      ExtendTag(m, C, first, top, p, nb, m', b);
    }
    assert OnlyTags(m, m', C', r);
    assert ChunkOK(C, first, top, top);
    NewTop(C, first, top, r - top);
    assert SameHeld(C, C', p);
    hide Tiling, Tags, OnlyTags, SameHeld;
    TagWritesKeep(C, m, C', m', first, r, p);
  }

  lemma ExtendTag(m: Mem, C: Chunks, first: int, top: int, p: int, nb: int, m': Mem, b: int)
    requires Tiling(C, first, top) && Tags(m, C, first) && p in C && C[p].kind == Used && p + C[p].size == top
    requires C[p].size < nb < C[p].size + C[top].size && Aligned(nb)
    requires && Get(m', p + 4) == Head(nb, true, PInUse(Get(m, p + 4)))
             && Get(m', p + nb + 4) == Head(C[p].size + C[top].size - nb, false, true)
             && forall x :: x != p + 4 && x != p + nb + 4 ==> Get(m', x) == Get(m, x)
    requires b in ShiftTop(C, p, nb)
    ensures TagOK(m', ShiftTop(C, p, nb), first, b)
  {
    hide Aligned;
    assert ChunkOK(C, first, top, p) && ChunkOK(C, first, top, top) && TagOK(m, C, first, p);
    HeadPInUse(C[p].size, true, PrevUsed(C, first, p));
    NewTop(C, first, top, p + nb - top);
    AlignedSum(p, nb);
    if b in C && b != p {
      assert ChunkOK(C, first, top, b) && TagOK(m, C, first, b);
      Outside(C, first, top, p, b);
      AlignedSum(b, C[b].size);
      NotHead(b + C[b].size, p);
      NotHead(b + C[b].size, p + nb);
    }
  }
}
