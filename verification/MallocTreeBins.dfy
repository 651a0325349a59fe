/** Tree nodes as binned chunks: wiinandfuse/geckonand/malloc.c. */
module TreeBinning {
  import opened Sizes
  import opened BinMaps
  import opened Tries
  import opened Rings
  import opened Chunks
  import opened Bins
  import opened Lists
  import opened Linking

  /** A tree node is a large binned chunk, and the first of its ring. */
  lemma TreeNode(B: Binning, C: Chunks, st: int, tb: seq<int>, t: int)
    requires BinsOK(B, C, st, tb) && t in B.R.nodes
    ensures t in B.L && t in C && C[t].kind == Binned && C[t].size == B.R.nodes[t].size && MIN_LARGE <= C[t].size < WORD
    ensures t in B.rings && |B.rings[t]| >= 1 && B.rings[t][0] == t && t != 0 && !IsHeader(st, t)
      && Linked(B.L, B.rings[t])
    ensures TreeIndex(C[t].size) == B.R.nodes[t].place.bin && 0 <= B.R.nodes[t].place.bin < 32
  {
    hide Prefix, TreeIndex;
    assert NodeOK(B.L, tb, B.R, t);
    assert RingOK(B, st, t) && t in B.rings[t];
    assert MemberOK(B, C, st, t);
  }

  /** The root of a nonempty tree bin. */
  lemma TreeRoot(B: Binning, C: Chunks, st: int, tb: seq<int>, sm: binmap, tm: binmap, i: int)
    requires BinsOK(B, C, st, tb) && MapsOK(B, st, tb, sm, tm) && 0 <= i < 32 && Marked(tm, i)
    ensures tb[i] != 0 && tb[i] in B.R.nodes && B.R.nodes[tb[i]].place == Place(i, RootPrefix(i), Bits(i))
  {
    hide Marked, Prefix, TreeIndex;
    assert MapOK(B, st, tb, sm, tm, i) && RootOK(tb, B.R, i);
    assert NodeOK(B.L, tb, B.R, tb[i]);
    TreeIndexRange(B.R.nodes[tb[i]].size);
  }

  /** A step down the trie, on the side of the next bit of s. */
  lemma TreeStep(B: Binning, C: Chunks, st: int, tb: seq<int>, t: int, s: int)
    requires BinsOK(B, C, st, tb) && t in B.R.nodes && t in B.L && 0 <= s < WORD
    requires B.R.nodes[t].place.w >= 1 && B.R.nodes[t].place.pre == Prefix(s, B.R.nodes[t].place.w)
    ensures var p := B.R.nodes[t].place;
      var c := Child(B.L[t], Turn(s, p.w - 1));
      c != 0 ==> c in B.R.nodes && B.R.nodes[c].place == Place(p.bin, Prefix(s, p.w - 1), p.w - 1)
  {
    hide Prefix, TreeIndex;
    assert NodeOK(B.L, tb, B.R, t);
    PrefixStep(s, B.R.nodes[t].place.w - 1);
  }

  /** At the last level there is one size left. */
  lemma LastLevel(B: Binning, C: Chunks, st: int, tb: seq<int>, t: int, s: int)
    requires BinsOK(B, C, st, tb) && t in B.R.nodes && 0 <= s < WORD
    requires B.R.nodes[t].place.pre == Prefix(s, B.R.nodes[t].place.w) && B.R.nodes[t].size != s
    ensures 1 <= B.R.nodes[t].place.w <= 32
  {
    assert NodeOK(B.L, tb, B.R, t);
    if B.R.nodes[t].place.w == 0 {
      PrefixZero(s);
      PrefixZero(B.R.nodes[t].size);
    }
  }

  /** No tree node of size s sits at or above the level of t. */
  ghost predicate NotAbove(R: Trie, s: int, w: int) {
    forall u {:trigger R.nodes[u]} :: u in R.nodes && R.nodes[u].size == s ==> R.nodes[u].place.w < w
  }

  lemma NotAboveStart(B: Binning, C: Chunks, st: int, tb: seq<int>, s: int)
    requires BinsOK(B, C, st, tb) && MIN_LARGE <= s < WORD && 0 <= TreeIndex(s) < 32
    ensures NotAbove(B.R, s, Bits(TreeIndex(s)) + 1)
  {
    hide Prefix, TreeIndex;
    forall u | u in B.R.nodes && B.R.nodes[u].size == s
      ensures B.R.nodes[u].place.w < Bits(TreeIndex(s)) + 1
    {
      assert NodeOK(B.L, tb, B.R, u);
    }
  }

  lemma NotAboveStep(B: Binning, C: Chunks, st: int, tb: seq<int>, t: int, s: int)
    requires BinsOK(B, C, st, tb) && t in B.R.nodes && 0 <= s < WORD
    requires NotAbove(B.R, s, B.R.nodes[t].place.w + 1) && B.R.nodes[t].size != s
    requires B.R.nodes[t].place.pre == Prefix(s, B.R.nodes[t].place.w) && MIN_LARGE <= s
      && B.R.nodes[t].place.bin == TreeIndex(s)
    ensures NotAbove(B.R, s, B.R.nodes[t].place.w)
  {
    hide Prefix, TreeIndex;
    assert NodeOK(B.L, tb, B.R, t);
    forall u | u in B.R.nodes && B.R.nodes[u].size == s
      ensures B.R.nodes[u].place.w < B.R.nodes[t].place.w
    {
      assert NodeOK(B.L, tb, B.R, u);
    }
  }

  /** A word inside a loose chunk may hold anything. */
  lemma Scratch(C: Chunks, first: int, top: int, st: int, m: Mem, L: Links, m0: Mem, x: int, o: int, v: int)
    requires Ground(C, first, top, st, m, L, m0) && x in C && C[x].kind == Loose && 8 <= o < C[x].size
    ensures Ground(C, first, top, st, m[x + o := v], L, m0)
  {
    Enter(C, first, top, st, m, L, m0, x);
    var m' := m[x + o := v];
    assert ChunkOK(C, first, top, x);
    forall b | b in C
      ensures TagOK(m', C, first, b) && (C[b].kind == Used ==> Undisturbed(m0, m', b, C[b].size))
    {
      assert ChunkOK(C, first, top, b) && TagOK(m, C, first, b);
      if b != x { Outside(C, first, top, x, b); }
      if b != top && b + C[b].size != x { Outside(C, first, top, x, b + C[b].size); }
      if C[b].kind == Used { assert Undisturbed(m0, m, b, C[b].size); }
    }
    forall b | b in L
      ensures MirrorAt(m', L, C, b)
    {
      assert MirrorAt(m, L, C, b);
      if b in C {
        assert ChunkOK(C, first, top, b);
        assert b != x;
        Outside(C, first, top, x, b);
      }
    }
  }

  // ---------- insertion ----------

  lemma MarkTree(B: Binning, B': Binning, st: int, tb: seq<int>, sm: binmap, tm: binmap, i: int, x: int)
    requires MapsOK(B, st, tb, sm, tm) && 0 <= i < 32 && x != 0
    requires forall h :: h in B.rings && IsHeader(st, h) ==> h in B'.rings && B'.rings[h] == B.rings[h]
    ensures MapsOK(B', st, tb[i := x], sm, Mark(tm, i))
  {
    hide Marked, Mark;
    var tb', tm' := tb[i := x], Mark(tm, i);
    forall j | 0 <= j < 32
      ensures MapOK(B', st, tb', sm, tm', j)
    {
      assert MapOK(B, st, tb, sm, tm, j) && IsHeader(st, Header(st, j));
      MarkMarked(tm, i, j);
    }
  }

  lemma SameMaps(B: Binning, B': Binning, st: int, tb: seq<int>, sm: binmap, tm: binmap, tb': seq<int>)
    requires MapsOK(B, st, tb, sm, tm) && |tb'| == 32
    requires forall j :: 0 <= j < 32 ==> (tb'[j] == 0 <==> tb[j] == 0)
    requires forall h :: h in B.rings && IsHeader(st, h) ==> h in B'.rings && B'.rings[h] == B.rings[h]
    ensures MapsOK(B', st, tb', sm, tm)
  {
    hide Marked;
    forall j | 0 <= j < 32
      ensures MapOK(B', st, tb', sm, tm, j)
    {
      assert MapOK(B, st, tb, sm, tm, j) && IsHeader(st, Header(st, j));
    }
  }

  /** The writes that make x the root of an empty bin. */
  lemma RootPlanted(B: Binning, C: Chunks, st: int, tb: seq<int>, sm: binmap, tm: binmap, x: int, s: int, l: Link,
      L: Links)
    requires BinsOK(B, C, st, tb) && MapsOK(B, st, tb, sm, tm)
    requires x in C && C[x].kind == Loose && C[x].size == s && MIN_LARGE <= s < WORD && x !in B.L && x != 0
      && !IsHeader(st, x)
    requires 0 <= TreeIndex(s) < 32 && !Marked(tm, TreeIndex(s))
    requires l.idx == TreeIndex(s) && l.ch0 == 0 && l.ch1 == 0
    requires L == Updated(Updated(Updated(B.L[x := l], x, 24, TreeBin(TreeBins(st), TreeIndex(s))), x, 12, x), x, 8, x)
    ensures var i := TreeIndex(s);
      var n := Node(Place(i, Prefix(s, Bits(i)), Bits(i)), s);
      var B' := Planted(B, x, L, AddNode(B.R, x, n));
      BinsOK(B', Recolor(C, x, Binned), st, tb[i := x]) && MapsOK(B', st, tb[i := x], sm, Mark(tm, i))
  {
    hide Marked, Mark, Prefix, TreeIndex;
    var i := TreeIndex(s);
    var n := Node(Place(i, Prefix(s, Bits(i)), Bits(i)), s);
    var B' := Planted(B, x, L, AddNode(B.R, x, n));
    assert MapOK(B, st, tb, sm, tm, i);
    if x in B.R.nodes { TreeNode(B, C, st, tb, x); }
    forall t | t in B.R.nodes
      ensures t in B.L && t in L && L[t] == B.L[t]
    {
      TreeNode(B, C, st, tb, t);
    }
    AddRoot(B.L, tb, B.R, x, s, L, tb[i := x]);
    assert Plants(B, L, x);
    PlantedBins(B, C, st, tb, x, L, tb[i := x], n);
    hide BinsOK, MapsOK, IsHeader;
    MarkTree(B, B', st, tb, sm, tm, i, x);
  }

  /** The writes that make x a leaf below t. */
  lemma LeafPlanted(B: Binning, C: Chunks, st: int, tb: seq<int>, sm: binmap, tm: binmap, x: int, s: int, t: int,
      l: Link, L: Links)
    requires BinsOK(B, C, st, tb) && MapsOK(B, st, tb, sm, tm)
    requires x in C && C[x].kind == Loose && C[x].size == s && MIN_LARGE <= s < WORD && x !in B.L && x != 0
      && !IsHeader(st, x)
    requires l.idx == TreeIndex(s) && l.ch0 == 0 && l.ch1 == 0 && t in B.R.nodes && t in B.L
    requires var p := B.R.nodes[t].place;
      && p.bin == TreeIndex(s) && p.w >= 1 && p.pre == Prefix(s, p.w)
      && Child(B.L[t], Turn(s, p.w - 1)) == 0 && NotAbove(B.R, s, p.w)
    requires L == Updated(Updated(Updated(Updated(B.L[x := l], t, 16 + 4 * Turn(s, B.R.nodes[t].place.w - 1), x), x, 24,
      t), x, 12, x), x, 8, x)
    ensures var w := B.R.nodes[t].place.w - 1;
      var n := Node(Place(TreeIndex(s), Prefix(s, w), w), s);
      var B' := Planted(B, x, L, AddNode(B.R, x, n));
      BinsOK(B', Recolor(C, x, Binned), st, tb) && MapsOK(B', st, tb, sm, tm)
  {
    hide Prefix, TreeIndex;
    var w := B.R.nodes[t].place.w - 1;
    var n := Node(Place(TreeIndex(s), Prefix(s, w), w), s);
    var B' := Planted(B, x, L, AddNode(B.R, x, n));
    if x in B.R.nodes { TreeNode(B, C, st, tb, x); }
    forall u | u in B.R.nodes && u != t
      ensures u in B.L && u in L && L[u] == B.L[u]
    {
      TreeNode(B, C, st, tb, u);
    }
    AddLeaf(B.L, tb, B.R, t, x, s, L);
    assert Plants(B, L, x);
    PlantedBins(B, C, st, tb, x, L, tb, n);
    hide BinsOK, MapsOK;
    SameMaps(B, B', st, tb, sm, tm, tb);
  }

  lemma RingNext(B: Binning, C: Chunks, st: int, tb: seq<int>, t: int)
    requires BinsOK(B, C, st, tb) && t in B.R.nodes
    ensures t in B.L && t in B.rings && B.L[t].fd in B.L && B.L[t].bk in B.L
    ensures |B.rings[t]| >= 1 && (|B.rings[t]| == 1 ==> B.L[t].fd == t && B.L[t].bk == t)
      && (B.L[t].bk == t ==> |B.rings[t]| == 1)
  {
    TreeNode(B, C, st, tb, t);
    assert RingOK(B, st, t);
    SameNeighbours(B.L, B.rings[t], 0);
    Neighbours(B.L, B.rings[t], 0);
    assert B.L[t].fd in B.rings[t] && B.L[t].bk in B.rings[t];
  }

  lemma UpdatesCommute(L: Links, a: int, v: int, b: int, w: int)
    requires a in L && b in L
    ensures Updated(Updated(L, a, 12, v), b, 8, w) == Updated(Updated(L, b, 8, w), a, 12, v)
  {
    var l, r := Updated(Updated(L, a, 12, v), b, 8, w), Updated(Updated(L, b, 8, w), a, 12, v);
    assert l.Keys == r.Keys;
    assert forall y :: y in l ==> l[y] == r[y];
    assert l == r;
  }

  /** The writes that chain x behind tree node t. */
  lemma ChainJoined(B: Binning, C: Chunks, st: int, tb: seq<int>, sm: binmap, tm: binmap, x: int, s: int, t: int,
      f: int, l: Link, L: Links)
    requires BinsOK(B, C, st, tb) && MapsOK(B, st, tb, sm, tm)
    requires x in C && C[x].kind == Loose && C[x].size == s && MIN_LARGE <= s < WORD && x !in B.L && x != 0
      && !IsHeader(st, x)
    requires l.idx == TreeIndex(s) && l.ch0 == 0 && l.ch1 == 0 && t in B.R.nodes && t in B.L && B.R.nodes[t].size == s
    requires f == B.L[t].fd && f in B.L
    requires L == Updated(Updated(Updated(Updated(Updated(B.L[x := l], f, 12, x), t, 8, x), x, 8, f), x, 12, t), x, 24,
      0)
    ensures t in B.rings && |B.rings[t]| >= 1
    ensures BinsOK(Joined(B, t, x, L), Recolor(C, x, Binned), st, tb) && MapsOK(Joined(B, t, x, L), st, tb, sm, tm)
  {
    hide TreeIndex, Prefix, MapsOK;
    RingNext(B, C, st, tb, t);
    TreeNode(B, C, st, tb, t);
    UpdatesCommute(B.L[x := l], f, x, t, x);
    JoinsByLinkIn(B, t, f, x, l);
    var L0 := LinkIn(B.L[x := l], t, f, x);
    assert L == Updated(L0, x, 24, 0);
    forall y | y in B.L
      ensures JoinsAt(B, t, f, x, L, y)
    {
      assert JoinsAt(B, t, f, x, L0, y);
    }
    assert Joins(B, t, f, x, L);
    assert Chained(L, x);
    hide Joins, BinsOK, IsHeader;
    JoinedBins(B, C, st, tb, t, f, x, L);
    MapsJoined(B, st, tb, sm, tm, t, x, L);
  }
}
