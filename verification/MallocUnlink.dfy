/** Removing a chunk from a tree bin: unlink_large_chunk in wiinandfuse/geckonand/malloc.c. */
module Unlinking {
  import opened Sizes
  import opened BinMaps
  import opened Tries
  import opened Rings
  import opened Chunks
  import opened Bins
  import opened Lists
  import opened Linking
  import opened TreeBinning

  // ---------- the leaf that replaces a node ----------

  /** r lies in the subtree of x. */
  ghost predicate Under(R: Trie, r: int, x: int)
    requires r in R.nodes && x in R.nodes
  {
    var p := R.nodes[x].place;
    R.nodes[r].size >= 0 && R.nodes[r].place.bin == p.bin && R.nodes[r].place.w <= p.w
        && Prefix(R.nodes[r].size, p.w) == p.pre
  }

  lemma SelfUnder(B: Binning, C: Chunks, st: int, tb: seq<int>, x: int)
    requires BinsOK(B, C, st, tb) && x in B.R.nodes
    ensures Under(B.R, x, x) && B.R.nodes[x].place.w <= 32
  {
    hide TreeIndex, Prefix;
    assert NodeOK(B.L, tb, B.R, x);
  }

  /** A child of a node below x is below x, and knows its parent and side. */
  lemma ChildUnder(B: Binning, C: Chunks, st: int, tb: seq<int>, r: int, b: int, x: int)
    requires BinsOK(B, C, st, tb) && r in B.R.nodes && x in B.R.nodes && Under(B.R, r, x) && r in B.L
      && (b == 0 || b == 1)
    requires Child(B.L[r], b) != 0
    ensures var c := Child(B.L[r], b);
      && c in B.R.nodes && c in B.L && Under(B.R, c, x) && B.L[c].par == r && B.R.nodes[c].place.pre % 2 == b
      && B.R.nodes[c].place.w < B.R.nodes[r].place.w
      && 0 <= B.R.nodes[c].place.bin < 32 && B.R.nodes[c].place.w != Bits(B.R.nodes[c].place.bin)
  {
    hide TreeIndex, Prefix;
    assert NodeOK(B.L, tb, B.R, r) && NodeOK(B.L, tb, B.R, x);
    var c := Child(B.L[r], b);
    assert NodeOK(B.L, tb, B.R, c);
    var w := B.R.nodes[c].place.w;
    PrefixStep(B.R.nodes[c].size, w);
    PrefixUp(B.R.nodes[c].size, B.R.nodes[r].size, w + 1, B.R.nodes[x].place.w);
  }

  // ---------- the writes that put r in the place of x ----------

  function Upward(L: Links, tb: seq<int>, x: int, r: int, i: int): Links
    requires x in L && 0 <= i < |tb| && (tb[i] != x ==> L[x].par in L)
  {
    if tb[i] == x then L else Updated(L, L[x].par, if L[L[x].par].ch0 == x then 16 else 20, r)
  }

  function Downward(L: Links, x: int, r: int, o: int): Links
    requires x in L && r in L && (o == 16 || o == 20)
    requires var c := if o == 16 then L[x].ch0 else L[x].ch1; c != 0 ==> c in L
  {
    var c := if o == 16 then L[x].ch0 else L[x].ch1;
    if c != 0 then Updated(Updated(L, r, o, c), c, 24, r) else L
  }

  /** In program order: the parent's pointer, then r's parent and children. */
  function Relinked(L: Links, tb: seq<int>, x: int, r: int, i: int): Links
    requires Relinkable(L, tb, x, r, i)
  {
    var L1 := Upward(L, tb, x, r, i);
    if r == 0 then L1
    else Downward(Downward(Updated(L1, r, 24, L[x].par), x, r, 16), x, r, 20)
  }

  ghost predicate Relinkable(L: Links, tb: seq<int>, x: int, r: int, i: int) {
    && x in L && 0 <= i < |tb| && (tb[i] != x ==> L[x].par in L && L[x].par != x)
    && (r != 0 ==> r in L && r != x)
    && (L[x].ch0 != 0 ==> L[x].ch0 in L && L[x].ch0 != x) && (L[x].ch1 != 0 ==> L[x].ch1 in L && L[x].ch1 != x)
  }

  /** What relinking does to each node, when r has no children of its own. */
  lemma RelinkedAt(L: Links, tb: seq<int>, x: int, r: int, i: int, y: int)
    requires Relinkable(L, tb, x, r, i) && y in L && y != x
    requires r != 0 ==> L[r].ch0 == 0 && L[r].ch1 == 0 && L[x].ch0 != r && L[x].ch1 != r
    requires tb[i] != x ==> L[x].par != r && L[x].ch0 != L[x].par && L[x].ch1 != L[x].par
    requires r == 0 ==> L[x].ch0 == 0 && L[x].ch1 == 0
    requires L[x].ch0 != 0 ==> L[x].ch0 != L[x].ch1
    ensures y in Relinked(L, tb, x, r, i)
    ensures var l := Relinked(L, tb, x, r, i)[y];
      && l.fd == L[y].fd && l.bk == L[y].bk && l.idx == L[y].idx
      && (r != 0 && y == r ==> l.par == L[x].par && l.ch0 == L[x].ch0 && l.ch1 == L[x].ch1)
      && ((r == 0 || y != r) && (y == L[x].ch0 || y == L[x].ch1) && y != 0 ==> l == L[y].(par := r))
      && (tb[i] != x && y == L[x].par ==> l == (if L[y].ch0 == x then L[y].(ch0 := r) else L[y].(ch1 := r)))
      && ((r == 0 || y != r) && (y == 0 || (y != L[x].ch0 && y != L[x].ch1)) && (tb[i] == x || y != L[x].par) ==>
          l == L[y])
  {
  }

  /** The links around a tree node are all different. */
  lemma NodeLinks(L: Links, tb: seq<int>, R: Trie, x: int)
    requires TrieOK(L, tb, R) && x in R.nodes
    ensures x in L && L[x].par != 0 && x != 0
    ensures var p := R.nodes[x].place;
      && 0 <= p.bin < 32 && (tb[p.bin] == x <==> p.w == Bits(p.bin))
      && (tb[p.bin] != x ==>
            var q := L[x].par;
            && q in R.nodes && q in L && q != x && q != 0 && q != L[x].ch0 && q != L[x].ch1
            && Child(L[q], p.pre % 2) == x && Child(L[q], 1 - p.pre % 2) != x && R.nodes[q].place.w > p.w)
    ensures L[x].ch0 != 0 ==> L[x].ch0 in R.nodes && L[x].ch0 in L && L[x].ch0 != x && L[x].ch0 != L[x].ch1
    ensures L[x].ch1 != 0 ==> L[x].ch1 in R.nodes && L[x].ch1 in L && L[x].ch1 != x
  {
    hide TreeIndex, Prefix;
    assert NodeOK(L, tb, R, x);
    var p, q := R.nodes[x].place, L[x].par;
    assert RootOK(tb, R, p.bin);
    if p.w != Bits(p.bin) {
      assert NodeOK(L, tb, R, q);
    }
  }

  /** The bins' root pointers after r (or nothing) has replaced x. */
  function Rooted(tb: seq<int>, x: int, r: int, i: int): (tb': seq<int>)
    requires 0 <= i < |tb|
    ensures |tb'| == |tb|
  {
    if tb[i] == x then tb[i := r] else tb
  }

  /** A childless r outside the trie takes the place of x. */
  lemma RelinkSwaps(L: Links, tb: seq<int>, R: Trie, x: int, r: int, s: int, i: int)
    requires TrieOK(L, tb, R) && x in R.nodes && i == R.nodes[x].place.bin
    requires r in L && r != 0 && r !in R.nodes && L[r].ch0 == 0 && L[r].ch1 == 0
    requires MIN_LARGE <= s < WORD && TreeIndex(s) == i && Prefix(s, R.nodes[x].place.w) == R.nodes[x].place.pre
    requires forall u :: u in R.nodes && u != x ==> R.nodes[u].size != s
    ensures 0 <= i < |tb| && Relinkable(L, tb, x, r, i)
    ensures TrieOK(Relinked(L, tb, x, r, i) - {x}, Rooted(tb, x, r, i), SwapNode(R, x, r, s))
  {
    hide TreeIndex, Prefix;
    NodeLinks(L, tb, R, x);
    var L', tb' := Relinked(L, tb, x, r, i) - {x}, Rooted(tb, x, r, i);
    assert Swapped(L, tb, R, x, r, L', tb') by {
      RelinkSwapped(L, tb, R, x, r, i);
    }
    hide Swapped, TrieOK;
    SwapNodes(L, tb, R, x, r, s, L', tb');
  }

  lemma RelinkSwapped(L: Links, tb: seq<int>, R: Trie, x: int, r: int, i: int)
    requires TrieOK(L, tb, R) && x in R.nodes && i == R.nodes[x].place.bin && x in L && 0 <= i < |tb|
    requires r in L && r != 0 && r !in R.nodes && L[r].ch0 == 0 && L[r].ch1 == 0
    requires Relinkable(L, tb, x, r, i)
    ensures Swapped(L, tb, R, x, r, Relinked(L, tb, x, r, i) - {x}, Rooted(tb, x, r, i))
  {
    hide TreeIndex, Prefix, Relinked, Relinkable;
    NodeLinks(L, tb, R, x);
    var q := L[x].par;
    RelinkedAt(L, tb, x, r, i, r);
    if tb[i] != x { RelinkedAt(L, tb, x, r, i, q); }
    if L[x].ch0 != 0 { RelinkedAt(L, tb, x, r, i, L[x].ch0); }
    if L[x].ch1 != 0 { RelinkedAt(L, tb, x, r, i, L[x].ch1); }
    forall u | u in R.nodes && u != x && (tb[i] == x || u != q) && u != L[x].ch0 && u != L[x].ch1
      ensures u in L && u in Relinked(L, tb, x, r, i) && Relinked(L, tb, x, r, i)[u] == L[u]
    {
      assert NodeOK(L, tb, R, u);
      RelinkedAt(L, tb, x, r, i, u);
    }
  }

  /** A childless x is cut off. */
  lemma RelinkCuts(L: Links, tb: seq<int>, R: Trie, x: int, i: int)
    requires TrieOK(L, tb, R) && x in R.nodes && i == R.nodes[x].place.bin && x in L && L[x].ch0 == 0 && L[x].ch1 == 0
    ensures 0 <= i < |tb| && Relinkable(L, tb, x, 0, i)
    ensures TrieOK(Relinked(L, tb, x, 0, i) - {x}, Rooted(tb, x, 0, i), DropNode(R, x))
  {
    hide TreeIndex, Prefix;
    NodeLinks(L, tb, R, x);
    var L', tb', q := Relinked(L, tb, x, 0, i) - {x}, Rooted(tb, x, 0, i), L[x].par;
    forall u | u in R.nodes && u != x
      ensures u in L && u in L' && (u != q || tb[i] == x ==> L'[u] == L[u])
    {
      assert NodeOK(L, tb, R, u);
      RelinkedAt(L, tb, x, 0, i, u);
    }
    if tb[i] != x { RelinkedAt(L, tb, x, 0, i, q); }
    CutLeaf(L, tb, R, x, L', tb');
  }

  // ---------- the three ways a tree node leaves ----------

  lemma UnmarkTree(B: Binning, B': Binning, st: int, tb: seq<int>, sm: binmap, tm: binmap, i: int)
    requires MapsOK(B, st, tb, sm, tm) && 0 <= i < 32
    requires forall h :: h in B.rings && IsHeader(st, h) ==> h in B'.rings && B'.rings[h] == B.rings[h]
    ensures MapsOK(B', st, tb[i := 0], sm, Unmark(tm, i))
  {
    hide Marked, Unmark;
    var tb', tm' := tb[i := 0], Unmark(tm, i);
    forall j | 0 <= j < 32
      ensures MapOK(B', st, tb', sm, tm', j)
    {
      assert MapOK(B, st, tb, sm, tm, j) && IsHeader(st, Header(st, j));
      UnmarkMarked(tm, i, j);
    }
  }

  /** Relinking changes no list links, and tree links of tree nodes and of r only. */
  lemma RelinkedLists(L: Links, tb: seq<int>, R: Trie, x: int, r: int, i: int, y: int)
    requires TrieOK(L, tb, R) && x in R.nodes && i == R.nodes[x].place.bin && x in L && 0 <= i < |tb| && y in L
      && y != x
    requires Relinkable(L, tb, x, r, i)
    requires if r != 0 then r in L && r !in R.nodes && L[r].ch0 == 0 && L[r].ch1 == 0
      else L[x].ch0 == 0 && L[x].ch1 == 0
    ensures y in Relinked(L, tb, x, r, i)
    ensures var l := Relinked(L, tb, x, r, i)[y];
      && l.fd == L[y].fd && l.bk == L[y].bk && l.idx == L[y].idx
      && (y !in R.nodes && (r == 0 || y != r) ==> l == L[y])
  {
    hide Relinked;
    NodeLinks(L, tb, R, x);
    RelinkedAt(L, tb, x, r, i, y);
  }

  lemma RelinkedKeys(L: Links, tb: seq<int>, x: int, r: int, i: int)
    requires Relinkable(L, tb, x, r, i)
    ensures Relinked(L, tb, x, r, i).Keys == L.Keys
  {
  }

  /** Case 1 of unlink_large_chunk: the node's ring has another chunk, which takes over. */
  lemma HandOver(B: Binning, C: Chunks, st: int, tb: seq<int>, sm: binmap, tm: binmap, x: int, f: int, r: int)
    requires BinsOK(B, C, st, tb) && MapsOK(B, st, tb, sm, tm) && x in B.R.nodes && x in B.L
    requires f == B.L[x].fd && r == B.L[x].bk && r != x && r != 0
    ensures f in B.L && r in B.L && x in C && x in B.rings && |B.rings[x]| >= 2
    ensures var i, L1 := B.R.nodes[x].place.bin, LinkOut(B.L, f, r);
      && 0 <= i < |tb| && Relinkable(L1, tb, x, r, i)
      && var L', tb', R' := Relinked(L1, tb, x, r, i) - {x}, Rooted(tb, x, r, i),
          SwapNode(B.R, x, r, B.R.nodes[x].size);
      && BinsOK(Handed(B, x, r, L', R'), Recolor(C, x, Loose), st, tb')
      && MapsOK(Handed(B, x, r, L', R'), st, tb', sm, tm)
  {
    hide TreeIndex, Prefix, Relinked;
    TreeNode(B, C, st, tb, x);
    RingNext(B, C, st, tb, x);
    ChainedLast(B, C, st, tb, x);
    var i, L1, s := B.R.nodes[x].place.bin, LinkOut(B.L, f, r), B.R.nodes[x].size;
    forall y | y in B.L
      ensures y in L1 && L1[y].ch0 == B.L[y].ch0 && L1[y].ch1 == B.L[y].ch1 && L1[y].par == B.L[y].par
        && L1[y].idx == B.L[y].idx
      ensures L1[y].fd == (if y == r then f else B.L[y].fd) && L1[y].bk == (if y == f then r else B.L[y].bk)
    {
      LinkOutAt(B.L, f, r, y);
    }
    TrieKept(B.L, tb, B.R, L1);
    assert NodeOK(B.L, tb, B.R, x);
    forall u | u in B.R.nodes && u != x
      ensures B.R.nodes[u].size != s
    {
      assert NodeOK(B.L, tb, B.R, u);
    }
    RelinkSwaps(L1, tb, B.R, x, r, s, i);
    RelinkedKeys(L1, tb, x, r, i);
    var L', tb', R' := Relinked(L1, tb, x, r, i) - {x}, Rooted(tb, x, r, i), SwapNode(B.R, x, r, s);
    forall y | y in B.L && y != x
      ensures HandsAt(B, f, r, L', y)
    {
      RelinkedLists(L1, tb, B.R, x, r, i, y);
    }
    assert Hands(B, f, r, x, L');
    assert CanHand(B, st, x, r, L', R');
    hide BinsOK, MapsOK, Hands, CanHand, TrieOK;
    HandedBins(B, C, st, tb, x, r, L', tb', R');
    SameMaps(B, Handed(B, x, r, L', R'), st, tb, sm, tm, tb');
  }

  /** The last chunk of a longer ring is chained. */
  lemma ChainedLast(B: Binning, C: Chunks, st: int, tb: seq<int>, x: int)
    requires BinsOK(B, C, st, tb) && x in B.R.nodes && x in B.L && B.L[x].bk != x
    ensures var r := B.L[x].bk;
      r in B.L && r !in B.R.nodes && Chained(B.L, r) && !IsHeader(st, r) && B.L[x].fd in B.L && r in C
    ensures x in B.rings && |B.rings[x]| >= 2
  {
    hide TreeIndex, Prefix;
    TreeNode(B, C, st, tb, x);
    assert RingOK(B, st, x);
    var s, r := B.rings[x], B.L[x].bk;
    SameNeighbours(B.L, s, 0);
    Neighbours(B.L, s, 0);
    assert r in s && B.L[x].fd in s;
    NotNode(B, st, x, r);
    assert Chained(B.L, r);
    NoHeaderBehind(B, st, x, r);
    assert MemberOK(B, C, st, r);
  }

  /** Case 3 with nothing to put in its place: a leaf that is alone. */
  lemma CutOff(B: Binning, C: Chunks, st: int, tb: seq<int>, sm: binmap, tm: binmap, x: int)
    requires BinsOK(B, C, st, tb) && MapsOK(B, st, tb, sm, tm) && x in B.R.nodes && x in B.L
    requires B.L[x].bk == x && B.L[x].ch0 == 0 && B.L[x].ch1 == 0
    ensures x in C
    ensures var i := B.R.nodes[x].place.bin;
      && 0 <= i < |tb| && Relinkable(B.L, tb, x, 0, i)
      && var L', tb', R' := Relinked(B.L, tb, x, 0, i) - {x}, Rooted(tb, x, 0, i), DropNode(B.R, x);
      && BinsOK(Uprooted(B, x, L', R'), Recolor(C, x, Loose), st, tb')
      && MapsOK(Uprooted(B, x, L', R'), st, tb', sm, if tb[i] == x then Unmark(tm, i) else tm)
  {
    hide TreeIndex, Prefix, Relinked;
    TreeNode(B, C, st, tb, x);
    RingNext(B, C, st, tb, x);
    var i := B.R.nodes[x].place.bin;
    RelinkCuts(B.L, tb, B.R, x, i);
    RelinkedKeys(B.L, tb, x, 0, i);
    var L', tb', R' := Relinked(B.L, tb, x, 0, i) - {x}, Rooted(tb, x, 0, i), DropNode(B.R, x);
    forall y | y in B.L && y != x
      ensures PlantsAt(B, L', y)
    {
      RelinkedLists(B.L, tb, B.R, x, 0, i, y);
    }
    assert Plants(B, L', x);
    hide BinsOK, MapsOK, Plants, TrieOK;
    UprootedBins(B, C, st, tb, x, L', tb', R');
    if tb[i] == x {
      UnmarkTree(B, Uprooted(B, x, L', R'), st, tb, sm, tm, i);
    } else {
      SameMaps(B, Uprooted(B, x, L', R'), st, tb, sm, tm, tb');
    }
  }

  /** Cases 2 and 3: a leaf r below x, child b of q, is cut off and takes the place of x. */
  lemma LeafReplaces(B: Binning, C: Chunks, st: int, tb: seq<int>, sm: binmap, tm: binmap, x: int, r: int, q: int,
      b: int)
    requires BinsOK(B, C, st, tb) && MapsOK(B, st, tb, sm, tm) && x in B.R.nodes && x in B.L && B.L[x].bk == x
    requires r in B.R.nodes && r in B.L && Under(B.R, r, x) && r != x && B.L[r].ch0 == 0 && B.L[r].ch1 == 0
    requires q == B.L[r].par && q in B.L && b == B.R.nodes[r].place.pre % 2
    requires 0 <= B.R.nodes[r].place.bin < 32 && B.R.nodes[r].place.w != Bits(B.R.nodes[r].place.bin)
    ensures x in C
    ensures var i, L1 := B.R.nodes[x].place.bin, Updated(B.L, q, 16 + 4 * b, 0);
      && 0 <= i < |tb| && Relinkable(L1, tb, x, r, i)
      && var L', tb', R' := Relinked(L1, tb, x, r, i) - {x}, Rooted(tb, x, r, i),
          SwapNode(DropNode(B.R, r), x, r, B.R.nodes[r].size);
      && BinsOK(Uprooted(B, x, L', R'), Recolor(C, x, Loose), st, tb')
      && MapsOK(Uprooted(B, x, L', R'), st, tb', sm, tm)
  {
    hide TreeIndex, Prefix, Relinked;
    TreeNode(B, C, st, tb, x);
    TreeNode(B, C, st, tb, r);
    RingNext(B, C, st, tb, x);
    var i, L1, s := B.R.nodes[x].place.bin, Updated(B.L, q, 16 + 4 * b, 0), B.R.nodes[r].size;
    var R1 := DropNode(B.R, r);
    assert NodeOK(B.L, tb, B.R, r);
    forall u | u in B.R.nodes
      ensures u in B.L && (u != r ==> B.R.nodes[u].size != s)
    {
      assert NodeOK(B.L, tb, B.R, u);
    }
    CutLeaf(B.L, tb, B.R, r, L1, tb);
    LeafLinks(B, tb, x, r, q, b);
    RelinkSwaps(L1, tb, R1, x, r, s, i);
    RelinkedKeys(L1, tb, x, r, i);
    var L', tb', R' := Relinked(L1, tb, x, r, i) - {x}, Rooted(tb, x, r, i), SwapNode(R1, x, r, s);
    forall y | y in B.L && y != x
      ensures PlantsAt(B, L', y)
    {
      RelinkedLists(L1, tb, R1, x, r, i, y);
    }
    assert Plants(B, L', x);
    hide BinsOK, MapsOK, Plants, TrieOK;
    UprootedBins(B, C, st, tb, x, L', tb', R');
    SameMaps(B, Uprooted(B, x, L', R'), st, tb, sm, tm, tb');
  }

  lemma LeafLinks(B: Binning, tb: seq<int>, x: int, r: int, q: int, b: int)
    requires TrieOK(B.L, tb, B.R) && x in B.R.nodes && r in B.R.nodes && r in B.L && q == B.L[r].par && q in B.L
    requires 0 <= B.R.nodes[r].place.bin < 32 && B.R.nodes[r].place.w != Bits(B.R.nodes[r].place.bin)
    ensures q in B.R.nodes && q != r && r != 0
  {
    hide TreeIndex, Prefix;
    assert NodeOK(B.L, tb, B.R, r);
  }

  /** A large binned chunk is a tree node, or chained behind one; its parent field tells which. */
  lemma LargeMember(B: Binning, C: Chunks, st: int, tb: seq<int>, x: int) returns (t: int, k: int)
    requires BinsOK(B, C, st, tb) && x in C && C[x].kind == Binned && C[x].size >= MIN_LARGE
    ensures x in B.L && t in B.R.nodes && t in B.rings && !IsHeader(st, t)
    ensures x in B.R.nodes <==> B.L[x].par != 0
    ensures x in B.R.nodes ==> B.L[x].idx == B.R.nodes[x].place.bin
    ensures x !in B.R.nodes ==> CanLeave(B, st, t, k, x) && B.L[x].bk != x
  {
    hide TreeIndex, Prefix;
    assert x in B.L;
    if IsHeader(st, x) {
      var i := HeaderIndex(st, x);
    }
    assert MemberOK(B, C, st, x) && HomeOK(B, x);
    t := B.home[x];
    TreeNode(B, C, st, tb, t);
    assert RingOK(B, st, t);
    k :| 0 <= k < |B.rings[t]| && B.rings[t][k] == x;
    if x in B.R.nodes {
      TreeNode(B, C, st, tb, x);
      NodeLinks(B.L, tb, B.R, x);
    } else {
      assert x != t && Chained(B.L, x);
      SameNeighbours(B.L, B.rings[t], k);
    }
  }

  /** A chained chunk leaves its ring. */
  lemma ChainLeaves(B: Binning, C: Chunks, st: int, tb: seq<int>, sm: binmap, tm: binmap, t: int, k: int, x: int,
      L: Links)
    requires BinsOK(B, C, st, tb) && MapsOK(B, st, tb, sm, tm) && CanLeave(B, st, t, k, x) && x in C
      && C[x].kind == Binned
    requires t in B.R.nodes && !IsHeader(st, t)
    requires B.L[x].fd in B.L && B.L[x].bk in B.L && B.L[x].fd != x && B.L[x].bk != x
    requires L == LinkOut(B.L, B.L[x].fd, B.L[x].bk) - {x}
    ensures BinsOK(Left(B, t, k, L), Recolor(C, x, Loose), st, tb) && MapsOK(Left(B, t, k, L), st, tb, sm, tm)
  {
    LeavesByLinkOut(B, t, x);
    hide BinsOK, MapsOK, Leaves, IsHeader;
    LeftBins(B, C, st, tb, t, k, x, L);
    MapsLeft(B, st, tb, sm, tm, t, k, L);
  }

  /** The nodes that relinking x writes to are large. */
  lemma LargeAround(B: Binning, C: Chunks, st: int, tb: seq<int>, x: int)
    requires BinsOK(B, C, st, tb) && x in B.R.nodes && x in B.L
    ensures var i := B.R.nodes[x].place.bin;
      && 0 <= i < |tb| && Large(C, x) && (tb[i] != x ==> B.L[x].par in B.R.nodes && Large(C, B.L[x].par))
    ensures (B.L[x].ch0 != 0 ==> Large(C, B.L[x].ch0)) && (B.L[x].ch1 != 0 ==> Large(C, B.L[x].ch1))
  {
    hide TreeIndex, Prefix;
    NodeLinks(B.L, tb, B.R, x);
    TreeNode(B, C, st, tb, x);
    if tb[B.R.nodes[x].place.bin] != x { TreeNode(B, C, st, tb, B.L[x].par); }
    if B.L[x].ch0 != 0 { TreeNode(B, C, st, tb, B.L[x].ch0); }
    if B.L[x].ch1 != 0 { TreeNode(B, C, st, tb, B.L[x].ch1); }
  }

  lemma LargeChained(B: Binning, C: Chunks, st: int, tb: seq<int>, x: int)
    requires BinsOK(B, C, st, tb) && x in B.R.nodes && x in B.L && B.L[x].bk != x
    ensures var r := B.L[x].bk; r in C && Large(C, r) && r !in B.R.nodes && r in B.L
  {
    hide TreeIndex, Prefix;
    ChainedLast(B, C, st, tb, x);
    var r := B.L[x].bk;
    assert MemberOK(B, C, st, r);
    assert RingOK(B, st, x);
    Neighbours(B.L, B.rings[x], 0);
    assert r in B.rings[x];
    if C[r].size < MIN_LARGE {
      var h := Header(st, C[r].size / 8);
      assert B.home[r] == x;
      assert RingOK(B, st, x) && HomeOK(B, r);
      SmallHome(B, C, st, tb, r);
    }
  }

  lemma SmallHome(B: Binning, C: Chunks, st: int, tb: seq<int>, r: int)
    requires BinsOK(B, C, st, tb) && r in C && C[r].kind == Binned && C[r].size < MIN_LARGE
    ensures r in B.home && B.home[r] !in B.R.nodes
  {
    var k := SmallMember(B, C, st, tb, r);
    var h := Header(st, C[r].size / 8);
    assert RingOK(B, st, h) && r in B.rings[h];
  }

  /** Clearing a child pointer leaves the other fields, and that pointer is cleared or as it was. */
  lemma ChildCleared(L: Links, q: int, b: int, x: int)
    requires q in L && x in L && (b == 0 || b == 1)
    ensures var L1 := Updated(L, q, 16 + 4 * b, 0);
      && x in L1 && L1[x].par == L[x].par && L1[x].idx == L[x].idx
      && (L1[x].ch0 == 0 || L1[x].ch0 == L[x].ch0) && (L1[x].ch1 == 0 || L1[x].ch1 == L[x].ch1)
  {
  }
}
