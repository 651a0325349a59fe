/** dlmalloc as compiled for the Wii: wiinandfuse/geckonand/malloc.c. */
module Malloc {
  import Arith
  import opened Sizes
  import opened BinMaps
  import opened Tries
  import opened Rings
  import opened Chunks
  import opened Bins
  import opened Lists
  import opened Linking
  import opened TreeBinning
  import opened Unlinking
  import opened Fitting
  import opened Segments
  import opened Starting
  import opened Copying
  import opened Aligning

  class Heap {
    /** The address of the small bins in malloc_state. */
    const st: int

    var mem: Mem
    var smallmap: binmap
    var treemap: binmap
    var treebins: seq<int>
    var dv: int
    var dvsize: int
    var top: int
    var topsize: int
    var segbase: int
    var segsize: int
    var least: int
    var footprint: int
    var maxfootprint: int
    var trimcheck: int
    var contiguous: bool

    /** The end of the memory handed out by MORECORE, and where it must stop. */
    var brk: int
    const limit: int

    ghost var first: int
    ghost var C: Chunks
    ghost var B: Binning

    /** Tags, links and bins are consistent, and live blocks are as they were in memory m0. */
    ghost predicate Inv(m0: Mem)
      reads this`C, this`first, this`top, this`mem, this`B, this`treebins, this`smallmap, this`treemap
    {
      && Ground(C, first, top, st, mem, B.L, m0)
      && BinsOK(B, C, st, treebins)
      && MapsOK(B, st, treebins, smallmap, treemap) && |treebins| == 32
    }

    /** The links of every node, and of the nodes the running macro has entered. */
    ghost predicate Linkable(L: Links, m0: Mem)
      reads this
    {
      Ground(C, first, top, st, mem, L, m0)
    }

    /** Writes one link field. */
    method Write(a: int, o: int, v: int, ghost L: Links, ghost m0: Mem) returns (ghost L': Links)
      requires Linkable(L, m0) && a in L && IsField(C, a, o)
      modifies this`mem
      ensures L' == Updated(L, a, o, v) && (forall y {:trigger y in L'} :: y in L' <==> y in L) && Linkable(L', m0)
    {
      hide Ground;
      Poke(C, first, top, st, mem, L, m0, a, o, v);
      mem := mem[a + o := v];
      L' := Updated(L, a, o, v);
    }

    /** insert_small_chunk */
    method InsertSmall(x: int, s: int, ghost m0: Mem)
      requires Inv(m0) && x in C && C[x].kind == Loose && s == C[x].size && MIN_CHUNK <= s < MIN_LARGE
      modifies this`mem, this`smallmap, this`C, this`B
      ensures Inv(m0) && C == Recolor(old(C), x, Binned)
    {
      hide Ground, BinsOK, MapsOK, Joins, Linked, NoDup, Marked, Mark, Updated, Large, ReadLink, Recolor, Grown;
      ghost var C0, sm := C, smallmap;
      var i := s / 8;
      var b := Header(st, i);
      var f := b;
      SmallBin(B, C, st, treebins, smallmap, treemap, i);
      Enter(C, first, top, st, mem, B.L, m0, x);
      if !Marked(smallmap, i) {
        smallmap := Mark(smallmap, i);
      } else {
        Peek(C, first, top, st, mem, B.L, m0, b);
        f := Get(mem, b + 8);
      }
      C := Recolor(C, x, Binned);
      ghost var l := ReadLink(mem, x);
      ghost var L := B.L[x := l];
      L := Write(b, 8, x, L, m0);
      L := Write(f, 12, x, L, m0);
      L := Write(x, 8, f, L, m0);
      L := Write(x, 12, b, L, m0);
      JoinsByLinkIn(B, b, f, x, l);
      JoinedBins(B, C0, st, treebins, b, f, x, L);
      MarkSmall(B, st, treebins, sm, treemap, i, x, L);
      B := Joined(B, b, x, L);
    }

    /** unlink_small_chunk */
    method UnlinkSmall(x: int, s: int, ghost m0: Mem)
      requires Inv(m0) && x in C && C[x].kind == Binned && s == C[x].size < MIN_LARGE
      modifies this`mem, this`smallmap, this`C, this`B
      ensures Inv(m0) && C == Recolor(old(C), x, Loose)
    {
      hide Ground, BinsOK, MapsOK, Leaves, Marked, Unmark, Updated, Large, Recolor;
      ghost var k := SmallMember(B, C, st, treebins, x);
      var i := s / 8;
      ghost var h := Header(st, i);
      MemberLinks(B, C, st, treebins, h, k, x);
      Peek(C, first, top, st, mem, B.L, m0, x);
      PeekSize(C, first, top, st, mem, B.L, m0, x);
      var f := Get(mem, x + 8);
      var b := Get(mem, x + 12);
      assert x != b && x != f && ChunkSize(Get(mem, x + 4)) == 8 * i;
      ghost var L, sm := B.L, smallmap;
      if f == b {
        smallmap := Unmark(smallmap, i);
        LeavesAlone(B, h, x);
      } else {
        L := Write(f, 12, b, L, m0);
        L := Write(b, 8, f, L, m0);
        LeavesByLinkOut(B, h, x);
      }
      Leave(C, first, top, st, mem, L, m0, x);
      LeftBins(B, C, st, treebins, h, k, x, L - {x});
      ClearSmall(B, st, treebins, sm, treemap, i, k, L - {x});
      C := Recolor(C, x, Loose);
      B := Left(B, h, k, L - {x});
    }

    /** unlink_first_small_chunk: x is the first chunk of small bin i, b its header. */
    method UnlinkFirstSmall(b: int, x: int, i: int, ghost m0: Mem)
      requires Inv(m0) && 0 <= i < 32 && b == Header(st, i) && Marked(smallmap, i) && x == Get(mem, b + 8)
      modifies this`mem, this`smallmap, this`C, this`B
      ensures x in old(C) && old(C)[x].kind == Binned && old(C)[x].size == 8 * i
      ensures Inv(m0) && C == Recolor(old(C), x, Loose)
    {
      hide Ground, BinsOK, MapsOK, Leaves, Marked, Unmark, Updated, Large, Recolor;
      FirstOfSmall(B, C, st, treebins, smallmap, treemap, i);
      Peek(C, first, top, st, mem, B.L, m0, b);
      MemberLinks(B, C, st, treebins, b, 1, x);
      Peek(C, first, top, st, mem, B.L, m0, x);
      PeekSize(C, first, top, st, mem, B.L, m0, x);
      var f := Get(mem, x + 8);
      assert x != b && x != f && ChunkSize(Get(mem, x + 4)) == 8 * i;
      ghost var L, sm := B.L, smallmap;
      if b == f {
        smallmap := Unmark(smallmap, i);
        LeavesAlone(B, b, x);
      } else {
        L := Write(b, 8, f, L, m0);
        L := Write(f, 12, b, L, m0);
        LeavesByLinkOut(B, b, x);
        LinkOutSwapped(B.L, f, b);
      }
      Leave(C, first, top, st, mem, L, m0, x);
      LeftBins(B, C, st, treebins, b, 1, x, L - {x});
      ClearSmall(B, st, treebins, sm, treemap, i, 1, L - {x});
      C := Recolor(C, x, Loose);
      B := Left(B, b, 1, L - {x});
    }

    /** The size of the chunk at a, read from its head. */
    function SizeAt(a: int): int
      reads this`mem
    {
      ChunkSize(Get(mem, a + 4))
    }

    /** The address of a tree node's child pointer. */
    function ChildAt(t: int, b: int): int { t + 16 + 4 * b }

    /** The descent of insert_large_chunk: to a node of size s, or to the node below which s belongs. */
    method FindParent(i: int, s: int, ghost m0: Mem) returns (t: int, b: int, same: bool)
      requires Inv(m0) && MIN_LARGE <= s < WORD && i == TreeIndex(s) && 0 <= i < 32 && Marked(treemap, i)
      ensures t in B.R.nodes && t in B.L
      ensures same ==> B.R.nodes[t].size == s
      ensures !same ==>
        var p := B.R.nodes[t].place;
        && p.bin == i && p.w >= 1 && p.pre == Prefix(s, p.w) && b == Turn(s, p.w - 1)
        && Child(B.L[t], b) == 0 && NotAbove(B.R, s, p.w)
    {
      hide Ground, BinsOK, MapsOK, Marked, Prefix, Turn, TreeIndex, SizeBits, W32, NotAbove, Pow2;
      TreeRoot(B, C, st, treebins, smallmap, treemap, i);
      TreeIndexRange(s);
      NotAboveStart(B, C, st, treebins, s);
      SizeBitsStart(s, Bits(i));
      t := treebins[i];
      var k := W32(s * Pow2(32 - Bits(i)));
      ghost var w := Bits(i);
      b := 0;
      while true
        invariant t in B.R.nodes && 0 <= w <= 32 && B.R.nodes[t].place == Place(i, Prefix(s, w), w)
        invariant k == SizeBits(s, w) && NotAbove(B.R, s, w + 1)
        decreases w
      {
        TreeNode(B, C, st, treebins, t);
        PeekSize(C, first, top, st, mem, B.L, m0, t);
        Peek(C, first, top, st, mem, B.L, m0, t);
        if SizeAt(t) == s {
          same := true;
          return;
        }
        LastLevel(B, C, st, treebins, t, s);
        NotAboveStep(B, C, st, treebins, t, s);
        TreeStep(B, C, st, treebins, t, s);
        SizeBitsStep(s, w);
        b := k / 0x8000_0000 % 2;
        k := W32(k * 2);
        var c := Get(mem, ChildAt(t, b));
        assert c == Child(B.L[t], b);
        if c == 0 {
          same := false;
          return;
        }
        t := c;
        w := w - 1;
      }
    }

    /** insert_large_chunk */
    method InsertLarge(x: int, s: int, ghost m0: Mem)
      requires Inv(m0) && x in C && C[x].kind == Loose && s == C[x].size && MIN_LARGE <= s < WORD
      modifies this`mem, this`treemap, this`treebins, this`C, this`B
      ensures Inv(m0) && C == Recolor(old(C), x, Binned)
    {
      hide Ground, BinsOK, MapsOK, Marked, Mark, TreeIndex, Recolor, Header, IsHeader;
      TreeIndexRange(s);
      var i := TreeIndex(s);
      Scratch(C, first, top, st, mem, B.L, m0, x, 28, i);
      mem := mem[x + 28 := i];
      Scratch(C, first, top, st, mem, B.L, m0, x, 20, 0);
      mem := mem[x + 20 := 0];
      Scratch(C, first, top, st, mem, B.L, m0, x, 16, 0);
      mem := mem[x + 16 := 0];
      if !Marked(treemap, i) {
        PlantRoot(x, s, i, m0);
      } else {
        var t, b, same := FindParent(i, s, m0);
        if same {
          Chain(x, s, i, t, m0);
        } else {
          PlantLeaf(x, s, i, t, b, m0);
        }
      }
    }

    /** insert_large_chunk into an empty bin. */
    method PlantRoot(x: int, s: int, i: int, ghost m0: Mem)
      requires Inv(m0) && x in C && C[x].kind == Loose && s == C[x].size && MIN_LARGE <= s < WORD
      requires i == TreeIndex(s) && 0 <= i < 32 && !Marked(treemap, i)
      requires Get(mem, x + 28) == i && Get(mem, x + 20) == 0 && Get(mem, x + 16) == 0
      modifies this`mem, this`treemap, this`treebins, this`C, this`B
      ensures Inv(m0) && C == Recolor(old(C), x, Binned)
    {
      hide Ground, BinsOK, MapsOK, Marked, Mark, TreeIndex, Prefix, Updated;
      ghost var C0, tm, tb := C, treemap, treebins;
      EnterLarge(x, m0);
      treemap := Mark(treemap, i);
      treebins := treebins[i := x];
      C := Recolor(C, x, Binned);
      ghost var l := ReadLink(mem, x);
      ghost var L := B.L[x := l];
      L := Write(x, 24, TreeBin(TreeBins(st), i), L, m0);
      L := Write(x, 12, x, L, m0);
      L := Write(x, 8, x, L, m0);
      RootPlanted(B, C0, st, tb, smallmap, tm, x, s, l, L);
      B := Planted(B, x, L, AddNode(B.R, x, Node(Place(i, Prefix(s, Bits(i)), Bits(i)), s)));
    }

    /** insert_large_chunk below a node. */
    method PlantLeaf(x: int, s: int, i: int, t: int, b: int, ghost m0: Mem)
      requires Inv(m0) && x in C && C[x].kind == Loose && s == C[x].size && MIN_LARGE <= s < WORD
      requires i == TreeIndex(s) && 0 <= i < 32
      requires Get(mem, x + 28) == i && Get(mem, x + 20) == 0 && Get(mem, x + 16) == 0
      requires t in B.R.nodes && t in B.L
      requires var p := B.R.nodes[t].place;
        && p.bin == i && p.w >= 1 && p.pre == Prefix(s, p.w) && b == Turn(s, p.w - 1)
        && Child(B.L[t], b) == 0 && NotAbove(B.R, s, p.w)
      modifies this`mem, this`C, this`B
      ensures Inv(m0) && C == Recolor(old(C), x, Binned)
    {
      hide Ground, BinsOK, MapsOK, TreeIndex, Prefix, Turn, Updated, NotAbove;
      ghost var C0 := C;
      EnterLarge(x, m0);
      TreeNode(B, C, st, treebins, t);
      C := Recolor(C, x, Binned);
      ghost var l := ReadLink(mem, x);
      ghost var L := B.L[x := l];
      L := Write(t, 16 + 4 * b, x, L, m0);
      L := Write(x, 24, t, L, m0);
      L := Write(x, 12, x, L, m0);
      L := Write(x, 8, x, L, m0);
      LeafPlanted(B, C0, st, treebins, smallmap, treemap, x, s, t, l, L);
      B := Planted(B, x, L, AddNode(B.R, x, Node(Place(i, Prefix(s, B.R.nodes[t].place.w - 1),
          B.R.nodes[t].place.w - 1), s)));
    }

    /** insert_large_chunk behind a node of the same size. */
    method Chain(x: int, s: int, i: int, t: int, ghost m0: Mem)
      requires Inv(m0) && x in C && C[x].kind == Loose && s == C[x].size && MIN_LARGE <= s < WORD
      requires i == TreeIndex(s) && 0 <= i < 32
      requires Get(mem, x + 28) == i && Get(mem, x + 20) == 0 && Get(mem, x + 16) == 0
      requires t in B.R.nodes && t in B.L && B.R.nodes[t].size == s
      modifies this`mem, this`C, this`B
      ensures Inv(m0) && C == Recolor(old(C), x, Binned)
    {
      hide Ground, BinsOK, MapsOK, TreeIndex, Updated;
      ghost var C0 := C;
      EnterLarge(x, m0);
      TreeNode(B, C, st, treebins, t);
      RingNext(B, C, st, treebins, t);
      Peek(C, first, top, st, mem, B.L, m0, t);
      C := Recolor(C, x, Binned);
      ghost var l := ReadLink(mem, x);
      ghost var L := B.L[x := l];
      var f := Get(mem, t + 8);
      L := Write(f, 12, x, L, m0);
      L := Write(t, 8, x, L, m0);
      L := Write(x, 8, f, L, m0);
      L := Write(x, 12, t, L, m0);
      L := Write(x, 24, 0, L, m0);
      ChainJoined(B, C0, st, treebins, smallmap, treemap, x, s, t, f, l, L);
      B := Joined(B, t, x, L);
    }

    lemma EnterLarge(x: int, m0: Mem)
      requires Inv(m0) && x in C && C[x].kind == Loose
      ensures x !in B.L && x > 0 && !IsHeader(st, x)
      ensures Ground(Recolor(C, x, Binned), first, top, st, mem, B.L[x := ReadLink(mem, x)], m0)
    {
      hide BinsOK, MapsOK;
      Enter(C, first, top, st, mem, B.L, m0, x);
      PeekSize(C, first, top, st, mem, B.L, m0, x);
    }

    /** The leaf that unlink_large_chunk moves into the place of x: rightmost first. r is 0 if x is a leaf itself. */
    method FindLeaf(x: int, ghost m0: Mem) returns (r: int, q: int, b: int)
      requires Inv(m0) && x in B.R.nodes && x in B.L
      ensures r == 0 ==> B.L[x].ch0 == 0 && B.L[x].ch1 == 0
      ensures r != 0 ==>
        && r in B.R.nodes && r in B.L && Under(B.R, r, x) && r != x && B.L[r].ch0 == 0 && B.L[r].ch1 == 0
        && q == B.L[r].par && q in B.L && q in B.R.nodes && b == B.R.nodes[r].place.pre % 2
        && 0 <= B.R.nodes[r].place.bin < 32 && B.R.nodes[r].place.w != Bits(B.R.nodes[r].place.bin)
    {
      hide Ground, BinsOK, MapsOK, Under;
      TreeNode(B, C, st, treebins, x);
      SelfUnder(B, C, st, treebins, x);
      Peek(C, first, top, st, mem, B.L, m0, x);
      q, b := x, 1;
      r := Get(mem, ChildAt(x, 1));
      if r == 0 {
        b := 0;
        r := Get(mem, ChildAt(x, 0));
      }
      if r == 0 {
        return;
      }
      ChildUnder(B, C, st, treebins, x, b, x);
      while true
        invariant r in B.R.nodes && r in B.L && Under(B.R, r, x) && r != x
        invariant q == B.L[r].par && q in B.L && q in B.R.nodes && b == B.R.nodes[r].place.pre % 2
        invariant 0 <= B.R.nodes[r].place.bin < 32 && B.R.nodes[r].place.w != Bits(B.R.nodes[r].place.bin)
        invariant B.R.nodes[r].place.w < B.R.nodes[x].place.w
        decreases B.R.nodes[r].place.w
      {
        TreeNode(B, C, st, treebins, r);
        Peek(C, first, top, st, mem, B.L, m0, r);
        var d, c := 1, Get(mem, ChildAt(r, 1));
        if c == 0 {
          d := 0;
          c := Get(mem, ChildAt(r, 0));
        }
        if c == 0 {
          break;
        }
        ChildUnder(B, C, st, treebins, r, d, x);
        q, b, r := r, d, c;
      }
    }

    /** The end of unlink_large_chunk: r, or nothing, is relinked in the place of x. */
    method Relink(x: int, xp: int, r: int, ghost i: int, ghost L: Links, ghost m0: Mem) returns (ghost L': Links)
      requires Linkable(L, m0) && |treebins| == 32 && Relinkable(L, treebins, x, r, i) && xp == L[x].par
        && L[x].idx == i
      requires Large(C, x) && (treebins[i] != x ==> Large(C, xp)) && (r != 0 ==> Large(C, r))
      requires (L[x].ch0 != 0 ==> Large(C, L[x].ch0)) && (L[x].ch1 != 0 ==> Large(C, L[x].ch1))
      modifies this`mem, this`treebins, this`treemap
      ensures Linkable(L', m0) && L' == Relinked(L, old(treebins), x, r, i)
      ensures treebins == Rooted(old(treebins), x, r, i)
      ensures treemap == if old(treebins)[i] == x && r == 0 then Unmark(old(treemap), i) else old(treemap)
    {
      hide Ground, Large, Unmark;
      L' := L;
      Peek(C, first, top, st, mem, L, m0, x);
      var j := Get(mem, x + 28);
      if x == treebins[j] {
        treebins := treebins[j := r];
        if r == 0 {
          treemap := Unmark(treemap, j);
        }
      } else {
        Peek(C, first, top, st, mem, L, m0, xp);
        if Get(mem, xp + 16) == x {
          L' := Write(xp, 16, r, L', m0);
        } else {
          L' := Write(xp, 20, r, L', m0);
        }
      }
      assert L' == Upward(L, old(treebins), x, r, i);
      if r != 0 {
        L' := Write(r, 24, xp, L', m0);
        L' := Adopt(x, r, 16, L', m0);
        L' := Adopt(x, r, 20, L', m0);
      }
    }

    /** Child pointer o of x, if set, becomes r's. */
    method Adopt(x: int, r: int, o: int, ghost L: Links, ghost m0: Mem) returns (ghost L': Links)
      requires Linkable(L, m0) && x in L && r in L && r != x && (o == 16 || o == 20) && Large(C, x) && Large(C, r)
      requires var c := if o == 16 then L[x].ch0 else L[x].ch1; c != 0 ==> c in L && c != x && Large(C, c)
      modifies this`mem
      ensures Linkable(L', m0) && L' == Downward(L, x, r, o) && (forall y {:trigger y in L'} :: y in L' <==> y in L)
    {
      hide Ground, Large;
      L' := L;
      Peek(C, first, top, st, mem, L, m0, x);
      var c := Get(mem, x + o);
      if c != 0 {
        L' := Write(r, o, c, L', m0);
        L' := Write(c, 24, r, L', m0);
      }
    }

    /** unlink_large_chunk */
    method UnlinkLarge(x: int, ghost m0: Mem)
      requires Inv(m0) && x in C && C[x].kind == Binned && C[x].size >= MIN_LARGE
      modifies this`mem, this`treemap, this`treebins, this`C, this`B
      ensures Inv(m0) && C == Recolor(old(C), x, Loose)
    {
      hide Ground, BinsOK, MapsOK, CanLeave, IsHeader;
      ghost var t, k := LargeMember(B, C, st, treebins, x);
      Peek(C, first, top, st, mem, B.L, m0, x);
      var xp := Get(mem, x + 24);
      if Get(mem, x + 12) != x {
        if xp == 0 {
          UnlinkChained(x, t, k, m0);
        } else {
          UnlinkHead(x, xp, m0);
        }
      } else {
        UnlinkAlone(x, xp, m0);
      }
    }

    /** The chunk is chained behind tree node t. */
    method UnlinkChained(x: int, ghost t: int, ghost k: int, ghost m0: Mem)
      requires Inv(m0) && x in C && C[x].kind == Binned && C[x].size >= MIN_LARGE
      requires t in B.R.nodes && t in B.rings && !IsHeader(st, t) && CanLeave(B, st, t, k, x)
      modifies this`mem, this`C, this`B
      ensures Inv(m0) && C == Recolor(old(C), x, Loose)
    {
      hide Ground, BinsOK, MapsOK, IsHeader, Updated;
      MemberLinks(B, C, st, treebins, t, k, x);
      Peek(C, first, top, st, mem, B.L, m0, x);
      var f := Get(mem, x + 8);
      var r := Get(mem, x + 12);
      ghost var L := B.L;
      L := Write(f, 12, r, L, m0);
      L := Write(r, 8, f, L, m0);
      Leave(C, first, top, st, mem, L, m0, x);
      ChainLeaves(B, C, st, treebins, smallmap, treemap, t, k, x, L - {x});
      C := Recolor(C, x, Loose);
      B := Left(B, t, k, L - {x});
    }

    /** The chunk is a tree node with others chained behind it: the last of them takes over. */
    method UnlinkHead(x: int, xp: int, ghost m0: Mem)
      requires Inv(m0) && x in B.R.nodes && x in B.L && B.L[x].bk != x && xp == B.L[x].par
      requires x in C && C[x].kind == Binned && B.L[x].idx == B.R.nodes[x].place.bin
      modifies this`mem, this`treemap, this`treebins, this`C, this`B
      ensures Inv(m0) && C == Recolor(old(C), x, Loose)
    {
      hide Ground, BinsOK, MapsOK, IsHeader, Updated, Relinked, TrieOK;
      ghost var i := B.R.nodes[x].place.bin;
      Peek(C, first, top, st, mem, B.L, m0, x);
      var f := Get(mem, x + 8);
      var r := Get(mem, x + 12);
      LargeAround(B, C, st, treebins, x);
      LargeChained(B, C, st, treebins, x);
      PeekSize(C, first, top, st, mem, B.L, m0, r);
      HandOver(B, C, st, treebins, smallmap, treemap, x, f, r);
      ghost var L := B.L;
      L := Write(f, 12, r, L, m0);
      L := Write(r, 8, f, L, m0);
      LinkOutAt(B.L, f, r, x);
      ghost var tb := treebins;
      L := Relink(x, xp, r, i, L, m0);
      RelinkedKeys(LinkOut(B.L, f, r), tb, x, r, i);
      Leave(C, first, top, st, mem, L, m0, x);
      C := Recolor(C, x, Loose);
      B := Handed(B, x, r, L - {x}, SwapNode(B.R, x, r, B.R.nodes[x].size));
    }

    /** The tree node is the only chunk of its size. */
    method UnlinkAlone(x: int, xp: int, ghost m0: Mem)
      requires Inv(m0) && x in B.R.nodes && x in B.L && B.L[x].bk == x && xp == B.L[x].par
      requires x in C && C[x].kind == Binned && B.L[x].idx == B.R.nodes[x].place.bin
      modifies this`mem, this`treemap, this`treebins, this`C, this`B
      ensures Inv(m0) && C == Recolor(old(C), x, Loose)
    {
      hide Ground, BinsOK, MapsOK, IsHeader, Updated, Relinked, TrieOK, Under, Unmark;
      ghost var i := B.R.nodes[x].place.bin;
      LargeAround(B, C, st, treebins, x);
      var r, q, b := FindLeaf(x, m0);
      ghost var L, tb := B.L, treebins;
      if r == 0 {
        CutOff(B, C, st, treebins, smallmap, treemap, x);
        L := Relink(x, xp, 0, i, L, m0);
        RelinkedKeys(B.L, tb, x, 0, i);
        Leave(C, first, top, st, mem, L, m0, x);
        C := Recolor(C, x, Loose);
        B := Uprooted(B, x, L - {x}, DropNode(B.R, x));
      } else {
        MoveLeaf(x, xp, r, q, b, m0);
      }
    }

    /** Leaf r, child b of q, is cut off and takes the place of x. */
    method MoveLeaf(x: int, xp: int, r: int, q: int, b: int, ghost m0: Mem)
      requires Inv(m0) && x in B.R.nodes && x in B.L && B.L[x].bk == x && xp == B.L[x].par
      requires x in C && C[x].kind == Binned && B.L[x].idx == B.R.nodes[x].place.bin
      requires r in B.R.nodes && r in B.L && Under(B.R, r, x) && r != x && B.L[r].ch0 == 0 && B.L[r].ch1 == 0
      requires q == B.L[r].par && q in B.L && q in B.R.nodes && b == B.R.nodes[r].place.pre % 2
      requires 0 <= B.R.nodes[r].place.bin < 32 && B.R.nodes[r].place.w != Bits(B.R.nodes[r].place.bin)
      modifies this`mem, this`treemap, this`treebins, this`C, this`B
      ensures Inv(m0) && C == Recolor(old(C), x, Loose)
    {
      hide Ground, BinsOK, MapsOK, IsHeader, Relinked, TrieOK, Under, Updated, Large;
      ghost var i, tb := B.R.nodes[x].place.bin, treebins;
      LargeAround(B, C, st, treebins, x);
      TreeNode(B, C, st, treebins, r);
      TreeNode(B, C, st, treebins, q);
      LeafReplaces(B, C, st, treebins, smallmap, treemap, x, r, q, b);
      ChildCleared(B.L, q, b, x);
      LargeAround(B, C, st, treebins, r);
      LargeAround(B, C, st, treebins, q);
      ghost var L := Write(q, 16 + 4 * b, 0, B.L, m0);
      L := Relink(x, xp, r, i, L, m0);
      RelinkedKeys(Updated(B.L, q, 16 + 4 * b, 0), tb, x, r, i);
      Leave(C, first, top, st, mem, L, m0, x);
      C := Recolor(C, x, Loose);
      B := Uprooted(B, x, L - {x}, SwapNode(DropNode(B.R, r), x, r, B.R.nodes[r].size));
    }

    // ---------- searching the trees ----------

    /** The size of a tree node, read from memory. */
    lemma NodeSize(t: int, m0: Mem)
      requires Inv(m0) && t in B.R.nodes
      ensures SizeAt(t) == B.R.nodes[t].size && t in B.L && MIN_LARGE <= B.R.nodes[t].size < WORD && t != 0
      ensures Get(mem, ChildAt(t, 0)) == B.L[t].ch0 && Get(mem, ChildAt(t, 1)) == B.L[t].ch1
    {
      hide Ground, BinsOK, MapsOK;
      TreeNode(B, C, st, treebins, t);
      PeekSize(C, first, top, st, mem, B.L, m0, t);
      Peek(C, first, top, st, mem, B.L, m0, t);
    }

    /** The descent of tmalloc_large through the bin for nb: the candidate v and the subtree t still to be searched. */
    method SearchBin(nb: int, idx: int, ghost m0: Mem) returns (t: int, v: int, rsize: int)
      requires Inv(m0) && MIN_LARGE <= nb < WORD && idx == TreeIndex(nb) && 0 <= idx < 32
      ensures Candidate(B.R, nb, v, rsize) && 0 <= rsize <= WORD - nb && (v != 0 ==> B.R.nodes[v].place.bin == idx)
      ensures t != 0 ==> t in B.R.nodes && B.R.nodes[t].place.bin == idx && (rsize == 0 || AllFit(B.R, t, nb))
      ensures AllSeen(B.R, nb, rsize, idx, 0, t)
    {
      hide Ground, BinsOK, MapsOK, Marked, Prefix, Turn, TreeIndex, SizeBits, W32, Pow2, Seen, AllFit;
      v := 0;
      rsize := W32(-nb);
      NegatedSize(nb);
      t := treebins[idx];
      RootSees(B, C, st, treebins, nb, rsize, idx);
      if t != 0 {
        t, v, rsize := SearchDown(nb, idx, t, rsize, m0);
      }
    }

    lemma NegatedSize(nb: int)
      requires 0 < nb < WORD
      ensures W32(-nb) == WORD - nb
    {
    }

    method SearchDown(nb: int, idx: int, t0: int, rsize0: int, ghost m0: Mem) returns (t: int, v: int, rsize: int)
      requires Inv(m0) && MIN_LARGE <= nb < WORD && idx == TreeIndex(nb) && 0 <= idx < 32
      requires t0 == treebins[idx] && t0 != 0 && rsize0 == WORD - nb && AllSeen(B.R, nb, rsize0, idx, t0, 0)
      ensures Candidate(B.R, nb, v, rsize) && 0 <= rsize <= WORD - nb && (v != 0 ==> B.R.nodes[v].place.bin == idx)
      ensures t != 0 ==> t in B.R.nodes && B.R.nodes[t].place.bin == idx && (rsize == 0 || AllFit(B.R, t, nb))
      ensures AllSeen(B.R, nb, rsize, idx, 0, t)
    {
      hide Ground, BinsOK, MapsOK, Prefix, Turn, TreeIndex, SizeBits, W32, Pow2, Seen, AllFit;
      BinRoot(B, C, st, treebins, nb);
      SizeBitsStart(nb, Bits(idx));
      t, v, rsize := t0, 0, rsize0;
      var rst := 0;
      var sizebits := W32(nb * Pow2(32 - Bits(idx)));
      ghost var w := Bits(idx);
      while true
        invariant t in B.R.nodes && 0 <= w <= 32 && B.R.nodes[t].place == Place(idx, Prefix(nb, w), w)
        invariant sizebits == SizeBits(nb, w) && 0 < rsize <= WORD - nb
        invariant Candidate(B.R, nb, v, rsize) && (v != 0 ==> B.R.nodes[v].place.bin == idx)
        invariant rst != 0 ==> rst in B.R.nodes && B.R.nodes[rst].place.bin == idx && B.R.nodes[rst].place.w >= w
                               && B.R.nodes[rst].place.pre > Prefix(nb, B.R.nodes[rst].place.w)
        invariant AllSeen(B.R, nb, rsize, idx, t, rst)
        decreases w
      {
        NodeSize(t, m0);
        ghost var before, node, held := rsize, t, rst;
        var trem := W32(SizeAt(t) - nb);
        Remainder(SizeAt(t), nb, rsize);
        if trem < rsize {
          v, rsize := t, trem;
          if rsize == 0 {
            ExactSees(B, nb, idx, t);
            break;
          }
        }
        LastLevel(B, C, st, treebins, t, nb);
        SizeBitsStep(nb, w);
        TreeStep(B, C, st, treebins, t, nb);
        RightChild(B, C, st, treebins, t, nb);
        var rt := Get(mem, ChildAt(t, 1));
        t := Get(mem, ChildAt(t, sizebits / 0x8000_0000 % 2));
        if rt != 0 && rt != t {
          rst := rt;
        }
        SearchAll(B, C, st, treebins, nb, before, rsize, node, held, idx);
        if t == 0 {
          t := rst;
          if rst != 0 { RightSubtreeFits(B, C, st, treebins, rst, nb); }
          break;
        }
        sizebits := W32(sizebits * 2);
        w := w - 1;
      }
    }

    /** leftmost_child */
    function LeftmostChild(t: int): int
      reads this`mem
    {
      if Get(mem, ChildAt(t, 0)) != 0 then Get(mem, ChildAt(t, 0)) else Get(mem, ChildAt(t, 1))
    }

    /** The walk to the left from t: the smallest node that fits, of those below r0 and those already seen. */
    method Leftmost(nb: int, t0: int, ghost r0: int, v0: int, rsize0: int, ghost i: int, ghost m0: Mem) returns (v: int,
        rsize: int)
      requires Inv(m0) && 0 < nb < WORD && 0 <= rsize0 <= WORD - nb
      requires t0 != 0 ==> t0 in B.R.nodes && B.R.nodes[t0].place.bin == i && r0 in B.R.nodes && Under(B.R, t0, r0)
      requires rsize0 == 0 || t0 == 0 || AllFit(B.R, r0, nb)
      requires Candidate(B.R, nb, v0, rsize0) && AllSeen(B.R, nb, rsize0, i, 0, t0)
      ensures Candidate(B.R, nb, v, rsize) && 0 <= rsize <= rsize0 && AllSeen(B.R, nb, rsize, i, 0, 0)
      ensures v == v0 || (v != 0 && B.R.nodes[v].place.bin == i)
      ensures t0 != 0 ==> v != 0
    {
      hide Ground, BinsOK, MapsOK, Seen, AllFit, Under, W32;
      var t := t0;
      v, rsize := v0, rsize0;
      while t != 0
        invariant t != 0 ==> t in B.R.nodes && B.R.nodes[t].place.bin == i && Under(B.R, t, r0)
        invariant Candidate(B.R, nb, v, rsize) && 0 <= rsize <= rsize0 && AllSeen(B.R, nb, rsize, i, 0, t)
        invariant v == v0 || (v != 0 && B.R.nodes[v].place.bin == i)
        invariant t == t0 || v != 0
        decreases if t != 0 then B.R.nodes[t].place.w + 1 else 0
      {
        NodeSize(t, m0);
        ghost var before, node := rsize, t;
        if rsize != 0 { FitsAt(B.R, t, r0, nb); }
        var trem := W32(SizeAt(t) - nb);
        Remainder(SizeAt(t), nb, rsize);
        if trem < rsize {
          rsize := trem;
          v := t;
        }
        LeftAll(B, C, st, treebins, nb, before, rsize, node, i);
        t := LeftmostChild(t);
        if t != 0 {
          ChildUnder(B, C, st, treebins, node, if B.L[node].ch0 != 0 then 0 else 1, r0);
          SameBin(B.R, t, node, r0);
        }
      }
    }

    /** The tree chunk that tmalloc_large would take: the smallest that fits, if any does. */
    method FindFit(nb: int, ghost m0: Mem) returns (v: int, rsize: int)
      requires Inv(m0) && MIN_LARGE <= nb < WORD
      ensures Candidate(B.R, nb, v, rsize) && 0 <= rsize && BestOfTrees(B.R, nb, rsize)
      ensures v == 0 ==> NoneFits(B.R, nb)
    {
      hide Ground, BinsOK, MapsOK, Seen, AllFit, Under, W32, TreeIndex, BestOfTrees, NoneFits, NoneBetween, LeftBits,
        Keep, LeastBit, BitIndex, BitOf;
      BinRoot(B, C, st, treebins, nb);
      var idx := TreeIndex(nb);
      var t;
      t, v, rsize := SearchBin(nb, idx, m0);
      ghost var i := idx;
      if t == 0 && v == 0 {
        var leftbits := Keep(LeftBits(BitOf(idx)), treemap);
        ghost var j := FirstMarked(B, C, st, treebins, smallmap, treemap, idx, leftbits);
        if leftbits != 0 {
          i := j;
          t := treebins[BitIndex(LeastBit(leftbits))];
          RootSees(B, C, st, treebins, nb, rsize, i);
          HigherBinFits(B, C, st, treebins, t, nb);
        }
      }
      if t != 0 { SelfUnder(B, C, st, treebins, t); }
      ghost var v1 := v;
      v, rsize := Leftmost(nb, t, t, v, rsize, i, m0);
      if v == 0 {
        NothingFits(B, C, st, treebins, nb);
      } else {
        BestOfBin(B, C, st, treebins, nb, v, rsize, i);
      }
    }

    // ---------- bins and segment together ----------

    /** Everything is consistent, though the running operation may hold a loose chunk, and the victim is not counted. */
    ghost predicate Sound()
      reads this`C, this`first, this`top, this`mem, this`B, this`treebins, this`smallmap, this`treemap, this`topsize
    {
      Inv(mem) && top in C && C[top].size == topsize && top + topsize <= WORD
    }

    lemma Resound(m0: Mem)
      requires Inv(m0)
      ensures Inv(mem)
    {
      hide BinsOK, MapsOK, Tiling, Tags, Mirror, NodesOK;
      LiveKeptSame(C, mem);
    }

    lemma TopFacts(x: int)
      requires Sound() && x in C
      ensures 0 < first <= x <= top && (C[x].kind == Wild <==> x == top) && x % 8 == 0 && C[x].size % 8 == 0
        && C[x].size >= 8
      ensures x != top ==> C[x].size >= MIN_CHUNK && x + C[x].size <= top && C[x].size < WORD && x + C[x].size in C
      ensures x != top && C[x].kind != Used ==> C[x + C[x].size].kind == Used
    {
      hide BinsOK, MapsOK, Tags, Mirror, NodesOK;
      assert ChunkOK(C, first, top, x) && ChunkOK(C, first, top, top);
      if x != top { Outside(C, first, top, x, top); }
    }

    /** unlink_chunk */
    method Unlink(x: int, s: int)
      requires Sound() && x in C && C[x].kind == Binned && s == C[x].size
      modifies this`mem, this`smallmap, this`treemap, this`treebins, this`C, this`B
      ensures Sound() && C == Recolor(old(C), x, Loose)
      ensures BlocksKept(old(C), old(mem), C, mem, 0) && Live(C) == Live(old(C))
    {
      TopFacts(x);
      hide Ground, BinsOK, MapsOK, BlocksKept, Live, Inv;
      ghost var m0, C0 := mem, C;
      if s < MIN_LARGE {
        UnlinkSmall(x, s, m0);
      } else {
        UnlinkLarge(x, m0);
      }
      BinsDone(C0, m0, x, Loose);
    }

    /** insert_chunk */
    method Insert(x: int, s: int)
      requires Sound() && x in C && C[x].kind == Loose && s == C[x].size
      modifies this`mem, this`smallmap, this`treemap, this`treebins, this`C, this`B
      ensures Sound() && C == Recolor(old(C), x, Binned)
      ensures BlocksKept(old(C), old(mem), C, mem, 0) && Live(C) == Live(old(C))
    {
      TopFacts(x);
      hide Ground, BinsOK, MapsOK, BlocksKept, Live, Inv;
      ghost var m0, C0 := mem, C;
      if s < MIN_LARGE {
        InsertSmall(x, s, m0);
      } else {
        InsertLarge(x, s, m0);
      }
      BinsDone(C0, m0, x, Binned);
    }

    lemma BinsDone(C0: Chunks, m0: Mem, x: int, k: Kind)
      requires Inv(m0) && x in C0 && C0[x].kind != Used && k != Used && C == Recolor(C0, x, k)
      ensures Inv(mem) && BlocksKept(C0, m0, C, mem, 0) && Live(C) == Live(C0)
    {
      hide BinsOK, MapsOK, Tiling, Tags, Mirror, NodesOK;
      BinsKeepBlocks(C0, m0, mem, x, k);
      Resound(m0);
    }

    /** set_size_and_pinuse_of_inuse_chunk for the first nb bytes of a free chunk, set_size_and_pinuse_of_free_chunk
        for the rest. */
    method SplitChunk(v: int, nb: int, rsize: int, ghost k: Kind)
      requires Sound() && v in C && (C[v].kind == Loose || C[v].kind == Victim) && (k == Loose || k == Victim)
      requires MIN_CHUNK <= nb && nb % 8 == 0 && rsize == C[v].size - nb >= MIN_CHUNK
      modifies this`mem, this`C
      ensures Sound() && v in old(C) && v + old(C)[v].size in old(C) && C == Cut(old(C), v, nb, k)
      ensures Placed(old(C), old(mem), C, mem, v, nb)
    {
      TopFacts(v);
      hide Ground, BinsOK, MapsOK, Placed, Cut, Head;
      ghost var m0, C0 := mem, C;
      var r := v + nb;
      mem := mem[v + 4 := Head(nb, true, true)];
      mem := mem[r + 4 := Head(rsize, false, true)];
      mem := mem[r + rsize := rsize];
      SplitDone(C0, m0, B, first, top, st, treebins, v, nb, k, mem);
      C := Cut(C0, v, nb, k);
    }

    /** set_inuse_and_pinuse for a whole free chunk. */
    method TakeChunk(v: int, s: int, ghost nb: int)
      requires Sound() && v in C && (C[v].kind == Loose || C[v].kind == Victim) && s == C[v].size
        && nb <= s < nb + MIN_CHUNK
      modifies this`mem, this`C
      ensures Sound() && C == Recolor(old(C), v, Used)
      ensures Placed(old(C), old(mem), C, mem, v, nb)
    {
      TopFacts(v);
      hide Ground, BinsOK, MapsOK, Placed, Head, SetPInUse;
      ghost var m0, C0 := mem, C;
      mem := mem[v + 4 := Head(s, true, true)];
      mem := mem[v + s + 4 := SetPInUse(Get(mem, v + s + 4))];
      TakeDone(C0, m0, B, first, top, st, treebins, v, nb, mem);
      C := Recolor(C0, v, Used);
    }

    /** Memory from the low end of top. */
    method SplitTopChunk(nb: int) returns (p: int)
      requires Sound() && MIN_CHUNK <= nb < topsize && nb % 8 == 0
      modifies this`mem, this`C, this`top, this`topsize
      ensures Sound() && old(top) in old(C) && C == CutTop(old(C), old(top), nb) && p == old(top)
      ensures top == p + nb && topsize == old(topsize) - nb
      ensures Placed(old(C), old(mem), C, mem, p, nb)
    {
      TopFacts(top);
      hide Ground, BinsOK, MapsOK, Placed, Head;
      ghost var m0, C0 := mem, C;
      topsize := topsize - nb;
      p := top;
      top := p + nb;
      mem := mem[top + 4 := Head(topsize, false, true)];
      mem := mem[p + 4 := Head(nb, true, true)];
      TopDone(C0, m0, B, first, p, st, treebins, nb, mem);
      C := CutTop(C0, p, nb);
    }

    // ---------- allocating from the trees ----------

    /** No operation is under way. */
    ghost predicate AtRest()
      reads this`C, this`first, this`top, this`mem, this`B, this`treebins, this`smallmap, this`treemap, this`topsize,
          this`dv, this`dvsize
    {
      Sound() && DvOK(C, dv, dvsize) && OnlyLoose(C, 0)
    }

    /** The best of the trees is the best of all binned chunks. */
    lemma BestBinned(nb: int, rsize: int)
      requires Sound() && MIN_LARGE <= nb && BestOfTrees(B.R, nb, rsize)
      ensures BestFit(C, nb, nb + rsize)
    {
      hide Ground, MapsOK, BinsOK;
      forall a | a in C && C[a].kind == Binned && C[a].size >= nb
        ensures C[a].size >= nb + rsize
      {
        InTrees(B, C, st, treebins, a);
      }
    }

    /** tmalloc_large */
    method TmallocLarge(nb: int) returns (ret: int)
      requires AtRest() && MIN_LARGE <= nb < WORD && nb % 8 == 0
      modifies this`mem, this`smallmap, this`treemap, this`treebins, this`C, this`B
      ensures AtRest()
      ensures ret == 0 ==> C == old(C) && mem == old(mem) && BinsPassed(C, dvsize, nb)
      ensures ret != 0 ==>
        var v := ret - 8;
        && ret % 8 == 0 && Placed(old(C), old(mem), C, mem, v, nb)
        && v in old(C) && old(C)[v].kind == Binned && BestFit(old(C), nb, old(C)[v].size)
        && (dvsize < nb || old(C)[v].size < dvsize)
    {
      hide Ground, BinsOK, MapsOK, Candidate, BestOfTrees, NoneFits, BestFit, W32;
      var v, rsize := FindFit(nb, mem);
      BestBinned(nb, rsize);
      FitSize(nb, v, rsize);
      if v != 0 && rsize < W32(dvsize - nb) {
        ret := CarveTree(v, nb, rsize);
        return;
      }
      DvFits(nb, v, rsize);
      ret := 0;
    }

    lemma FitSize(nb: int, v: int, rsize: int)
      requires AtRest() && MIN_LARGE <= nb < WORD && Candidate(B.R, nb, v, rsize) && 0 <= rsize
      ensures v != 0 ==> v in C && C[v].kind == Binned && C[v].size == nb + rsize < WORD && v in B.R.nodes
      ensures 0 <= dvsize < WORD
      ensures v != 0 ==> (rsize < W32(dvsize - nb) <==> dvsize < nb || C[v].size < dvsize)
    {
      hide Ground, BinsOK, MapsOK;
      if dvsize != 0 {
        TopFacts(dv);
      }
      if v != 0 {
        TreeNode(B, C, st, treebins, v);
        UnsignedLess(nb, rsize, dvsize);
      }
    }

    static lemma UnsignedLess(nb: int, rsize: int, dvs: int)
      requires 0 < nb < WORD && 0 <= dvs < WORD && 0 <= rsize < WORD - nb
      ensures rsize < W32(dvs - nb) <==> dvs < nb || nb + rsize < dvs
    {
      if dvs >= nb { W32Small(dvs - nb); } else { W32Small(dvs - nb + WORD); }
    }

    lemma DvFits(nb: int, v: int, rsize: int)
      requires AtRest() && MIN_LARGE <= nb < WORD && Candidate(B.R, nb, v, rsize) && BestFit(C, nb, nb + rsize)
      requires v != 0 ==>
        v in C && C[v].kind == Binned && !(dvsize < nb || C[v].size < dvsize) && C[v].size == nb + rsize
      ensures forall a {:trigger C[a]} :: a in C && C[a].kind == Binned && C[a].size >= nb ==> nb <= dvsize <= C[a].size
    {
      hide Ground, BinsOK, MapsOK;
      forall a | a in C && C[a].kind == Binned && C[a].size >= nb
        ensures nb <= dvsize <= C[a].size
      {
        TopFacts(a);
      }
    }

    /** The end of tmalloc_large: chunk v is taken, and what it has too much goes back to a bin. */
    method CarveTree(v: int, nb: int, rsize: int) returns (ret: int)
      requires AtRest() && v in C && C[v].kind == Binned && C[v].size == nb + rsize && MIN_LARGE <= nb && nb % 8 == 0
        && rsize >= 0
      modifies this`mem, this`smallmap, this`treemap, this`treebins, this`C, this`B
      ensures AtRest() && ret == v + 8 && ret != 0 && ret % 8 == 0
      ensures Placed(old(C), old(mem), C, mem, v, nb)
    {
      hide Ground, BinsOK, MapsOK, Inv, Placed, BlocksKept, Live, Cut, DvOK, OnlyLoose;
      TopFacts(v);
      NoChunkAtZero();
      ghost var C0, m0 := C, mem;
      Unlink(v, nb + rsize);
      DvRecolor(C0, dv, dvsize, 0, v, Loose);
      ghost var C1, m1 := C, mem;
      if rsize < MIN_CHUNK {
        TakeChunk(v, rsize + nb, nb);
        DvRecolor(C1, dv, dvsize, v, v, Used);
        PlacedAfter(C0, m0, C1, m1, C, mem, v, nb);
      } else {
        RestOfCut(v, nb);
        SplitChunk(v, nb, rsize, Loose);
        ghost var C2, m2 := C, mem;
        Insert(v + nb, rsize);
        DvRecolor(C2, dv, dvsize, v + nb, v + nb, Binned);
        PlacedBefore(C1, m1, C2, m2, C, mem, v, nb);
        PlacedAfter(C0, m0, C1, m1, C, mem, v, nb);
      }
      ret := v + 8;
    }

    lemma NoChunkAtZero()
      requires Sound()
      ensures 0 !in C
    {
      hide BinsOK, MapsOK;
      if 0 in C { TopFacts(0); }
    }

    /** What is left of a loose chunk once nb bytes have been cut off. */
    lemma RestOfCut(v: int, nb: int)
      requires Sound() && DvOK(C, dv, dvsize) && OnlyLoose(C, v) && v in C && C[v].kind == Loose
      requires MIN_CHUNK <= nb && nb % 8 == 0 && nb + MIN_CHUNK <= C[v].size
      ensures v + C[v].size in C
      ensures var C' := Cut(C, v, nb, Loose);
        && DvOK(C', dv, dvsize) && OnlyLoose(C', v + nb) && v + nb in C'
        && C'[v + nb] == Chunk(C[v].size - nb, Loose, v)
    {
      TopFacts(v);
      hide BinsOK, MapsOK;
      DvCut(C, first, top, dv, dvsize, v, nb);
    }

    // ---------- small requests ----------

    /** replace_dv: the old victim, known to be small, goes to its bin. */
    method ReplaceDv(p: int, s: int)
      requires Sound() && DvOK(C, dv, dvsize) && OnlyLoose(C, p) && p in C && C[p].kind == Loose && s == C[p].size
        && dvsize < MIN_LARGE
      modifies this`mem, this`smallmap, this`treemap, this`treebins, this`C, this`B, this`dv, this`dvsize
      ensures AtRest() && dv == p && dvsize == s
      ensures BlocksKept(old(C), old(mem), C, mem, 0) && Live(C) == Live(old(C))
    {
      hide Ground, BinsOK, MapsOK, BlocksKept, Live;
      TopFacts(p);
      ghost var C0, m0 := C, mem;
      BinDv(p);
      ghost var C2 := C;
      RecolorHeld(C, first, top, st, mem, B, treebins, p, Victim);
      LiveRecolor(C, p, Victim);
      C := Recolor(C, p, Victim);
      LastRecolor(C0, m0, C2, mem, p, Victim);
      dvsize := s;
      dv := p;
    }

    /** The old victim, if there is one, goes to its bin. */
    method BinDv(ghost p: int)
      requires Sound() && DvOK(C, dv, dvsize) && OnlyLoose(C, p) && p in C && C[p].kind == Loose && dvsize < MIN_LARGE
      modifies this`mem, this`smallmap, this`treemap, this`treebins, this`C, this`B
      ensures Sound() && OnlyLoose(C, p) && p in C && C[p] == old(C)[p]
      ensures forall a :: a in C ==> C[a].kind != Victim
      ensures BlocksKept(old(C), old(mem), C, mem, 0) && Live(C) == Live(old(C))
    {
      hide Ground, BinsOK, MapsOK, BlocksKept, Live;
      ghost var C0, m0 := C, mem;
      if dvsize != 0 {
        RecolorHeld(C, first, top, st, mem, B, treebins, dv, Loose);
        LiveRecolor(C, dv, Loose);
        C := Recolor(C, dv, Loose);
        ghost var C1 := C;
        Insert(dv, dvsize);
        SameChunksKept(C0, dv, m0, C1, C, mem);
      } else {
        BlocksKeptSame(C, mem);
      }
    }

    lemma SameChunksKept(C0: Chunks, x: int, m0: Mem, C1: Chunks, C2: Chunks, m: Mem)
      requires x in C0 && C0[x].kind != Used && C1 == Recolor(C0, x, Loose) && BlocksKept(C1, m0, C2, m, 0)
      ensures BlocksKept(C0, m0, C2, m, 0)
    {
      forall a | a in C0 && C0[a].kind == Used && a != 0
        ensures Survives(C0, m0, C2, m, a)
      {
        assert C1[a] == C0[a];
        assert Survives(C1, m0, C2, m, a);
      }
    }

    lemma LastRecolor(C0: Chunks, m0: Mem, C1: Chunks, m: Mem, x: int, k: Kind)
      requires BlocksKept(C0, m0, C1, m, 0) && x in C1 && C1[x].kind != Used && k != Used
      ensures BlocksKept(C0, m0, Recolor(C1, x, k), m, 0)
    {
      forall a | a in C0 && C0[a].kind == Used && a != 0
        ensures Survives(C0, m0, Recolor(C1, x, k), m, a)
      {
        assert Survives(C0, m0, C1, m, a);
      }
    }

    lemma BlocksKeptSame(C0: Chunks, m: Mem)
      ensures BlocksKept(C0, m, C0, m, 0)
    {
      forall a | a in C0 && C0[a].kind == Used && a != 0
        ensures Survives(C0, m, C0, m, a)
      {
      }
    }

    /** The smallest tree chunk, as tmalloc_small finds it. */
    method FindSmallest(nb: int, ghost m0: Mem) returns (v: int, rsize: int)
      requires Inv(m0) && MIN_CHUNK <= nb < MIN_LARGE && treemap != 0
      ensures Candidate(B.R, nb, v, rsize) && v != 0 && 0 <= rsize && BestOfTrees(B.R, nb, rsize)
    {
      hide Ground, BinsOK, MapsOK, Seen, AllFit, Under, BestOfTrees, NoneBetween, LeastBit, BitIndex;
      ghost var j := FirstMarked(B, C, st, treebins, smallmap, treemap, -1, treemap);
      var i := BitIndex(LeastBit(treemap));
      var t := treebins[i];
      RootSees(B, C, st, treebins, nb, WORD, i);
      NodeSize(t, m0);
      v, rsize := t, SizeAt(t) - nb;
      LeftAll(B, C, st, treebins, nb, WORD, rsize, t, i);
      SelfUnder(B, C, st, treebins, t);
      SmallFits(t, nb);
      ghost var r0 := t;
      t := LeftmostChild(t);
      if t != 0 {
        ChildUnder(B, C, st, treebins, r0, if B.L[r0].ch0 != 0 then 0 else 1, r0);
        SameBin(B.R, t, r0, r0);
      }
      v, rsize := Leftmost(nb, t, r0, v, rsize, i, m0);
      BestOfFirst(B, C, st, treebins, nb, v, rsize, i);
    }

    lemma SmallFits(t: int, nb: int)
      requires BinsOK(B, C, st, treebins) && t in B.R.nodes && nb < MIN_LARGE
      ensures AllFit(B.R, t, nb)
    {
      hide BinsOK;
      forall c | c in B.R.nodes && Under(B.R, c, t)
        ensures B.R.nodes[c].size >= nb
      {
        TreeNode(B, C, st, treebins, c);
      }
    }

    /** tmalloc_small */
    method TmallocSmall(nb: int) returns (ret: int)
      requires AtRest() && MIN_CHUNK <= nb < MIN_LARGE && nb % 8 == 0 && dvsize < nb && treemap != 0
      modifies this`mem, this`smallmap, this`treemap, this`treebins, this`C, this`B, this`dv, this`dvsize
      ensures AtRest() && ret != 0 && ret % 8 == 0 && Placed(old(C), old(mem), C, mem, ret - 8, nb)
      ensures var v := ret - 8;
        v in old(C) && old(C)[v].kind == Binned && old(C)[v].size >= MIN_LARGE
        && forall a {:trigger old(C)[a]} :: a in old(C) && old(C)[a].kind == Binned && old(C)[a].size >= MIN_LARGE ==>
            old(C)[a].size >= old(C)[v].size
      ensures var v := ret - 8;
        var rsize := old(C)[v].size - nb;
        if rsize >= MIN_CHUNK then dv == v + nb && dvsize == rsize else dv == old(dv) && dvsize == old(dvsize)
    {
      hide Ground, BinsOK, MapsOK, Inv, Candidate, BestOfTrees, Placed, BlocksKept, Live, Cut, DvOK, OnlyLoose;
      ghost var C0, m0 := C, mem;
      var v, rsize := FindSmallest(nb, mem);
      SmallestSize(nb, v, rsize);
      NoChunkAtZero();
      Unlink(v, nb + rsize);
      DvRecolor(C0, dv, dvsize, 0, v, Loose);
      ghost var C1, m1 := C, mem;
      if rsize < MIN_CHUNK {
        TakeChunk(v, rsize + nb, nb);
        DvRecolor(C1, dv, dvsize, v, v, Used);
        PlacedAfter(C0, m0, C1, m1, C, mem, v, nb);
      } else {
        RestOfCut(v, nb);
        SplitChunk(v, nb, rsize, Loose);
        ghost var C2, m2 := C, mem;
        ReplaceDv(v + nb, rsize);
        PlacedBefore(C1, m1, C2, m2, C, mem, v, nb);
        PlacedAfter(C0, m0, C1, m1, C, mem, v, nb);
      }
      ret := v + 8;
    }

    lemma SmallestSize(nb: int, v: int, rsize: int)
      requires AtRest() && v != 0 && Candidate(B.R, nb, v, rsize) && nb < MIN_LARGE && BestOfTrees(B.R, nb, rsize)
      ensures v in C && C[v].kind == Binned && MIN_LARGE <= C[v].size == nb + rsize < WORD && v > 0 && v % 8 == 0
      ensures forall a {:trigger C[a]} :: a in C && C[a].kind == Binned && C[a].size >= MIN_LARGE ==>
        C[a].size >= nb + rsize
    {
      hide Ground, BinsOK, MapsOK;
      TreeNode(B, C, st, treebins, v);
      TopFacts(v);
      forall a | a in C && C[a].kind == Binned && C[a].size >= MIN_LARGE
        ensures C[a].size >= nb + rsize
      {
        InTrees(B, C, st, treebins, a);
      }
    }

    // ---------- the segment ----------

    /** No memory has been obtained yet. */
    ghost predicate Blank()
      reads this
    {
      && C == map[] && smallmap == 0 && treemap == 0 && AllZero(treebins)
      && dv == 0 && dvsize == 0 && topsize == 0 && footprint == 0 <= maxfootprint && st + 400 <= brk
    }

    /** The one segment: top, then the trailing foot, then the end of memory. */
    ghost predicate SegmentOK()
      reads this
    {
      && segbase + segsize == brk && top + topsize + TOP_FOOT == brk && least == segbase <= first
      && footprint == segsize <= maxfootprint
    }

    ghost predicate Valid()
      reads this
    {
      && 0 < st && brk % 8 == 0 && 0 < brk <= limit < MAX_SIZE
      && if top == 0 then Blank() else AtRest() && SegmentOK()
    }

    constructor (st: int, start: int, limit: int, contents: Mem)
      requires 0 < st && st + 400 <= start && start % 8 == 0 && start <= limit < MAX_SIZE
      ensures Valid() && C == map[]
    {
      this.st, this.limit := st, limit;
      mem := contents;
      smallmap, treemap, treebins := 0, 0, seq(32, _ => 0);
      dv, dvsize, top, topsize := 0, 0, 0, 0;
      segbase, segsize, least, footprint, maxfootprint, trimcheck, contiguous := 0, 0, 0, 0, 0, 0, true;
      brk := start;
      first, C, B := 0, map[], EmptyBins(st);
    }

    const MFAIL := MAX_SIZE

    /** MORECORE: the next `size` bytes, or MFAIL. */
    method Morecore(size: int) returns (r: int)
      requires 0 <= size && brk <= limit < MAX_SIZE
      modifies this`brk
      ensures if old(brk) + size > limit then r == MFAIL && brk == old(brk)
              else r == old(brk) && r != MFAIL && brk == old(brk) + size
    {
      if brk + size > limit {
        r := MFAIL;
      } else {
        r := brk;
        brk := brk + size;
      }
    }

    /** init_bins */
    method InitBins()
      modifies this`mem
      ensures HeadersLinked(mem, st, 32)
    {
      hide HeadersLinked;
      NoHeaders(mem, st);
      for i := 0 to 32
        invariant HeadersLinked(mem, st, i)
      {
        var bin := Header(st, i);
        LinkHeader(mem, st, i);
        mem := mem[bin + 8 := bin];
        mem := mem[bin + 12 := bin];
      }
    }

    lemma NoHeaders(m: Mem, st: int)
      ensures HeadersLinked(m, st, 0)
    {
    }

    /** init_top */
    method InitTop(p0: int, psize0: int)
      requires p0 % 8 == 0
      modifies this`mem, this`top, this`topsize, this`trimcheck
      ensures top == p0 && topsize == psize0 && trimcheck == TRIM_THRESHOLD
      ensures mem == old(mem)[p0 + 4 := Head(psize0, false, true)][p0 + psize0 + 4 := TOP_FOOT]
    {
      var offset := AlignOffset(p0 + 8);
      var p, psize := p0 + offset, psize0 - offset;
      top := p;
      topsize := psize;
      mem := mem[p + 4 := Head(psize, false, true)];
      mem := mem[p + psize + 4 := TOP_FOOT];
      trimcheck := TRIM_THRESHOLD;
    }

    /** The segment starts with tsize bytes at tbase. */
    method FirstSegment(tbase: int, tsize: int)
      modifies this`segbase, this`least, this`segsize, this`footprint, this`maxfootprint
      requires footprint == 0 <= maxfootprint && tsize >= 0
      ensures segbase == least == tbase && segsize == footprint == tsize <= maxfootprint
    {
      segbase, least := tbase, tbase;
      segsize := tsize;
      footprint := footprint + tsize;
      if footprint > maxfootprint {
        maxfootprint := footprint;
      }
    }

    /** The first top, over all of the segment but its foot. */
    method FirstTopChunk(tbase: int, psize: int)
      requires AllZero(treebins) && smallmap == 0 && treemap == 0 && dv == 0 && dvsize == 0
      requires 0 < st && st + 400 <= tbase && tbase % 8 == 0 && psize % 8 == 0 && psize >= 8 && tbase + psize <= WORD
      modifies this`mem, this`top, this`topsize, this`trimcheck, this`first, this`C, this`B
      ensures AtRest() && top == first == tbase && topsize == psize && Live(C) == {}
    {
      assert |treebins| == 32;
      hide Ground, BinsOK, MapsOK, HeadersLinked, AllZero, Head, DvOK, OnlyLoose, Live, EmptyBins;
      InitBins();
      ghost var m1 := mem;
      InitTop(tbase, psize);
      HeadersStay(m1, tbase, psize);
      WriteRead(m1, tbase + 4, Head(psize, false, true), tbase + psize + 4, TOP_FOOT);
      FirstHeap(mem, st, treebins, top, topsize);
      first := top;
      C := map[top := Chunk(topsize, Wild, 0)];
      B := EmptyBins(st);
    }

    lemma WriteRead(m: Mem, a: int, v: int, b: int, w: int)
      requires a != b
      ensures Get(m[a := v][b := w], a) == v
    {
    }

    /** First-time initialization with tsize bytes at tbase. */
    method Initialize(tbase: int, tsize: int)
      requires Blank() && top == 0 && 0 < st && st + 400 <= tbase && tbase % 8 == 0 && tsize % 8 == 0
        && TOP_FOOT < tsize
      requires brk == tbase + tsize <= limit < MAX_SIZE
      modifies this
      ensures Valid() && top == tbase && topsize == tsize - TOP_FOOT && Live(C) == {} && brk == old(brk)
      ensures dv == old(dv) && dvsize == old(dvsize)
      ensures contiguous == old(contiguous)
    {
      hide AllZero, Ground, BinsOK, MapsOK, DvOK, OnlyLoose, Live, Inv;
      FirstSegment(tbase, tsize);
      FirstTopChunk(tbase, tsize - TOP_FOOT);
    }

    lemma HeadersStay(m: Mem, p: int, psize: int)
      requires HeadersLinked(m, st, 32) && st + 400 <= p && psize > 0
      ensures HeadersLinked(m[p + 4 := Head(psize, false, true)][p + psize + 4 := TOP_FOOT], st, 32)
    {
      var m' := m[p + 4 := Head(psize, false, true)][p + psize + 4 := TOP_FOOT];
      forall i | 0 <= i < 32
        ensures HeaderLinked(m', st, i)
      {
        assert HeaderLinked(m, st, i);
      }
    }

    /** tsize more bytes at the end of the segment. */
    method Append(tbase: int, tsize: int)
      requires top != 0 && 0 < st && AtRest() && tsize >= 0 && tsize % 8 == 0 && tbase % 8 == 0
      requires segbase + segsize == tbase && top + topsize + TOP_FOOT == tbase && least == segbase <= first
      requires footprint == segsize <= maxfootprint && brk == tbase + tsize <= limit < MAX_SIZE && brk % 8 == 0
        && brk > 0
      modifies this
      ensures Valid() && top == old(top) != 0 && topsize == old(topsize) + tsize && brk == old(brk)
      ensures BlocksKept(old(C), old(mem), C, mem, 0) && Live(C) == Live(old(C)) && contiguous == old(contiguous)
      ensures dv == old(dv) && dvsize == old(dvsize)
    {
      hide Ground, BinsOK, MapsOK, BlocksKept, Live, DvOK, OnlyLoose, Head, AtRest;
      footprint := footprint + tsize;
      if footprint > maxfootprint {
        maxfootprint := footprint;
      }
      segsize := segsize + tsize;
      EnlargeTop(tsize);
    }

    /** init_top on a top that is tsize bytes larger. */
    method EnlargeTop(tsize: int)
      requires AtRest() && tsize >= 0 && tsize % 8 == 0 && top + topsize + tsize <= WORD
      modifies this`mem, this`top, this`topsize, this`trimcheck, this`C
      ensures AtRest() && top == old(top) && topsize == old(topsize) + tsize
      ensures BlocksKept(old(C), old(mem), C, mem, 0) && Live(C) == Live(old(C))
    {
      hide Ground, BinsOK, MapsOK, BlocksKept, Live, DvOK, OnlyLoose, Head;
      TopFacts(top);
      ghost var m0 := mem;
      GrowDv(C, top, dv, dvsize, topsize + tsize);
      InitTop(top, topsize + tsize);
      GrowDone(C, m0, B, first, top, st, treebins, tsize, mem);
      C := C[top := C[top].(size := C[top].size + tsize)];
    }

    lemma TopBound()
      requires Valid()
      ensures 0 <= topsize < WORD
    {
      hide BinsOK, MapsOK, Tags, Mirror, NodesOK;
      if top != 0 { TopFacts(top); }
    }

    lemma NoBlocks(C0: Chunks, m0: Mem, C1: Chunks, m1: Mem)
      requires C0 == map[]
      ensures BlocksKept(C0, m0, C1, m1, 0) && Live(C0) == {}
    {
    }

    lemma DvTop(nb: int)
      requires AtRest() && nb > 0
      ensures top in C && DvOK(CutTop(C, top, nb), dv, dvsize) && OnlyLoose(CutTop(C, top, nb), 0)
    {
      hide BinsOK, MapsOK, DvOK, OnlyLoose;
      DvCutTop(C, first, top, dv, dvsize, nb);
    }

    /** A block from the low end of top. */
    method TakeTop(nb: int) returns (ret: int)
      requires Valid() && top != 0 && MIN_CHUNK <= nb < topsize && nb % 8 == 0
      modifies this`mem, this`C, this`top, this`topsize
      ensures Valid() && top != 0 && ret == old(top) + 8 && ret % 8 == 0 && ret != 0
      ensures Placed(old(C), old(mem), C, mem, ret - 8, nb)
    {
      hide Ground, BinsOK, MapsOK, BlocksKept, Live, DvOK, OnlyLoose, Placed, Inv;
      TopFacts(top);
      DvTop(nb);
      var p := SplitTopChunk(nb);
      ret := p + 8;
    }

    /** What sys_alloc asks MORECORE for, to bring t bytes of top up to nb. */
    static function Demand(nb: int, t: int): int {
      PageAlign(W32(nb - t + TOP_FOOT + 1))
    }

    /** MORECORE cannot provide for nb. */
    predicate Refused(end: int, nb: int) {
      Demand(nb, 0) >= HALF_MAX || end + Demand(nb, 0) > limit
    }

    /** Nothing in the bins, not the victim and not top has room for nb, and MORECORE cannot provide. */
    ghost predicate Starved(C0: Chunks, dvs: int, ts: int, end: int, nb: int) {
      NoBinFits(C0, nb) && dvs < nb && ts <= nb && Refused(end, nb)
    }

    static lemma DemandPositive(nb: int)
      requires Requestable(nb)
      ensures Demand(nb, 0) > 0
    {
      DemandFacts(nb, 0);
    }

    static predicate Requestable(nb: int) {
      nb == MAX_SIZE || (MIN_CHUNK <= nb < WORD - 48 && nb % 8 == 0)
    }

    static lemma DemandFacts(nb: int, t: int)
      requires Requestable(nb) && 0 <= t <= nb && t < WORD
      ensures Demand(nb, t) % 8 == 0 && 0 <= Demand(nb, t) && Demand(nb, 0) > W32(nb + TOP_FOOT)
        && Demand(nb, 0) > TOP_FOOT
      ensures nb < MAX_SIZE ==>
        nb - t + TOP_FOOT < Demand(nb, t) <= Demand(nb, 0) && W32(nb + TOP_FOOT) == nb + TOP_FOOT
    {
      hide W32, PageAlign;
      if nb < MAX_SIZE {
        W32Small(nb + TOP_FOOT);
        DemandOf(nb - t + TOP_FOOT + 1, nb + TOP_FOOT + 1);
      } else {
        DemandWraps();
      }
    }

    static lemma DemandOf(x: int, y: int)
      requires 0 <= x <= y < WORD - 8
      ensures x < PageAlign(W32(x)) <= PageAlign(W32(y)) && y < PageAlign(W32(y))
    {
      W32Small(x);
      W32Small(x + 8);
      W32Small(y);
      W32Small(y + 8);
      hide W32;
      assert x + 8 - (x + 8) % 8 <= y + 8 - (y + 8) % 8;
    }

    static lemma DemandWraps()
      ensures W32(MAX_SIZE + TOP_FOOT + 1) == 40 && W32(MAX_SIZE + TOP_FOOT) == 39 && PageAlign(40) == 48
    {
    }

    /** The calls of MORECORE in sys_alloc; without success tbase is MFAIL. */
    method Obtain(nb: int) returns (tbase: int, tsize: int)
      requires Requestable(nb) && 0 <= topsize <= nb && topsize < WORD && 0 < brk <= limit < MAX_SIZE
      requires top != 0 ==> segbase + segsize == brk
      modifies this`brk, this`contiguous
      ensures tbase == MFAIL ==> brk == old(brk) && (nb < MAX_SIZE ==> Refused(brk, nb))
      ensures tbase != MFAIL ==>
        && tbase == old(brk) && brk == tbase + tsize <= limit && tsize % 8 == 0 && tsize >= 0
        && (nb < MAX_SIZE ==> tsize <= Demand(nb, 0))
        && (top == 0 ==> tsize > TOP_FOOT) && (nb < MAX_SIZE && top == 0 ==> tsize > nb + TOP_FOOT)
        && (nb < MAX_SIZE && top != 0 ==> topsize + tsize > nb)
    {
      hide PageAlign, W32;
      DemandFacts(nb, 0);
      DemandFacts(nb, topsize);
      tbase, tsize := MFAIL, 0;
      if contiguous {
        var br, asize := MFAIL, 0;
        if top == 0 {
          var base := Morecore(0);
          if base != MFAIL {
            asize := PageAlign(W32(nb + TOP_FOOT + 1));
            assert asize == Demand(nb, 0);
            if asize < HALF_MAX {
              br := Morecore(asize);
              if br == base {
                tbase, tsize := base, asize;
              }
            }
          }
        } else {
          asize := PageAlign(W32(nb - topsize + TOP_FOOT + 1));
          if asize < HALF_MAX {
            br := Morecore(asize);
            if br == segbase + segsize {
              tbase, tsize := br, asize;
            }
          }
        }
        if tbase == MFAIL {
          assert br == MFAIL;
          contiguous := false;
        }
      }
      if tbase == MFAIL {
        tbase, tsize := ObtainAnywhere(nb);
      }
    }

    /** The noncontiguous call of MORECORE. */
    method ObtainAnywhere(nb: int) returns (tbase: int, tsize: int)
      requires Requestable(nb) && 0 < brk <= limit < MAX_SIZE
      modifies this`brk
      ensures tbase == MFAIL ==> tsize == 0 && brk == old(brk) && Refused(brk, nb)
      ensures tbase != MFAIL ==> tbase == old(brk) && brk == tbase + tsize <= limit && tsize == Demand(nb, 0)
    {
      hide PageAlign, W32;
      DemandFacts(nb, 0);
      tbase, tsize := MFAIL, 0;
      var asize := PageAlign(W32(nb + TOP_FOOT + 1));
      assert asize == Demand(nb, 0);
      if asize < HALF_MAX {
        var br := Morecore(asize);
        var end := Morecore(0);
        if br != MFAIL && end != MFAIL && br < end {
          var ssize := end - br;
          if ssize > W32(nb + TOP_FOOT) {
            tbase, tsize := br, ssize;
          }
        }
      }
    }

    /** The part of sys_alloc that gets memory: it becomes the first segment, or the segment and top grow by it. */
    method Enlarge(nb: int) returns (more: bool)
      requires Valid() && Requestable(nb) && topsize <= nb
      modifies this
      ensures Valid() && 0 <= topsize < WORD && Live(C) == Live(old(C)) && BlocksKept(old(C), old(mem), C, mem, 0)
      ensures dv == old(dv) && dvsize == old(dvsize)
      ensures !more && nb < MAX_SIZE ==> Refused(old(brk), nb)
      ensures more ==> top == (if old(top) == 0 then old(brk) else old(top)) && top != 0
      ensures more && nb < MAX_SIZE ==> nb < topsize
      ensures nb < MAX_SIZE ==> old(brk) <= brk <= old(brk) + Demand(nb, 0)
    {
      if nb < MAX_SIZE { DemandPositive(nb); }
      hide Ground, BinsOK, MapsOK, BlocksKept, Live, DvOK, OnlyLoose, AllZero, Refused, Demand;
      TopBound();
      ghost var C0, m0 := C, mem;
      var tbase, tsize := Obtain(nb);
      more := tbase != MFAIL;
      if !more {
        BlocksKeptSame(C, mem);
      } else if top == 0 {
        Initialize(tbase, tsize);
        NoBlocks(C0, m0, C, mem);
      } else {
        Append(tbase, tsize);
      }
      TopBound();
    }

    /** sys_alloc */
    method SysAlloc(nb: int) returns (ret: int)
      requires Valid() && Requestable(nb) && topsize <= nb
      modifies this
      ensures Valid()
      ensures ret == 0 ==> Live(C) == Live(old(C)) && BlocksKept(old(C), old(mem), C, mem, 0)
      ensures ret == 0 && nb < MAX_SIZE ==> Refused(old(brk), nb)
      ensures ret != 0 ==> Placed(old(C), old(mem), C, mem, ret - 8, nb) && ret % 8 == 0
      ensures ret != 0 ==> ret - 8 == if old(top) == 0 then old(brk) else old(top)
      ensures nb == MAX_SIZE ==> ret == 0
      ensures nb < MAX_SIZE ==> old(brk) <= brk <= old(brk) + Demand(nb, 0)
      ensures dv == old(dv) && dvsize == old(dvsize)
    {
      hide Ground, BinsOK, MapsOK, BlocksKept, Live, DvOK, OnlyLoose, Placed, AllZero, Refused, Demand, Valid, AtRest;
      ghost var C0, m0 := C, mem;
      var more := Enlarge(nb);
      ghost var C1, m1 := C, mem;
      if more && nb < topsize {
        ret := TakeTop(nb);
        PlacedAfter(C0, m0, C1, m1, C, mem, ret - 8, nb);
        return;
      }
      ret := 0;
    }

    // ---------- dlmalloc ----------

    /** No binned chunk from nb up to 8 * j is there if the small bins between are empty. */
    lemma BestSmall(nb: int, idx: int, j: int)
      requires AtRest() && MIN_CHUNK <= nb < MIN_LARGE && nb == 8 * idx && idx <= j <= 33
        && NoSmallBins(smallmap, idx, j)
      ensures forall a {:trigger C[a]} :: a in C && C[a].kind == Binned && C[a].size >= nb ==>
        C[a].size >= MIN_LARGE || C[a].size >= 8 * j
      ensures j <= 32 ==> BestFit(C, nb, 8 * j)
    {
      hide Ground, BinsOK, MapsOK, Marked;
      forall a | a in C && C[a].kind == Binned && C[a].size >= nb
        ensures C[a].size >= MIN_LARGE || C[a].size >= 8 * j
      {
        TopFacts(a);
        if C[a].size < MIN_LARGE {
          InSmallBin(B, C, st, treebins, smallmap, treemap, a);
        }
      }
    }

    /** A remainderless fit in a small bin. */
    method TakeExact(nb: int, i: int) returns (ret: int)
      requires AtRest() && MIN_CHUNK <= nb < MIN_LARGE && nb % 8 == 0 && nb / 8 <= i <= nb / 8 + 1 && i < 32
      requires Marked(smallmap, i) && NoSmallBins(smallmap, nb / 8, i)
      modifies this`mem, this`smallmap, this`C, this`B
      ensures AtRest() && ret != 0 && ret % 8 == 0 && Placed(old(C), old(mem), C, mem, ret - 8, nb)
      ensures FitRule(old(C), dvsize, ret - 8, nb) && VictimAfter(old(C), dv, dvsize, ret - 8, nb, dv, dvsize)
    {
      hide Ground, BinsOK, MapsOK, Placed, BlocksKept, Live, DvOK, OnlyLoose, Marked, NoSmallBins, BestFit;
      BestSmall(nb, nb / 8, i);
      NoChunkAtZero();
      ghost var C0, m0 := C, mem;
      var b := Header(st, i);
      var p := Get(mem, b + 8);
      UnlinkFirstSmall(b, p, i, mem);
      BinsDone(C0, m0, p, Loose);
      DvRecolor(C0, dv, dvsize, 0, p, Loose);
      ghost var C1, m1 := C, mem;
      TopFacts(p);
      TakeChunk(p, 8 * i, nb);
      DvRecolor(C1, dv, dvsize, p, p, Used);
      PlacedAfter(C0, m0, C1, m1, C, mem, p, nb);
      ret := p + 8;
    }

    /** The next nonempty small bin: its first chunk is split, and the rest becomes the victim. */
    method TakeNext(nb: int, i: int) returns (ret: int)
      requires AtRest() && MIN_CHUNK <= nb < MIN_LARGE && nb % 8 == 0 && nb / 8 + 2 <= i < 32 && dvsize < nb
      requires Marked(smallmap, i) && NoSmallBins(smallmap, nb / 8, i)
      modifies this`mem, this`smallmap, this`treemap, this`treebins, this`C, this`B, this`dv, this`dvsize
      ensures AtRest() && ret != 0 && ret % 8 == 0 && Placed(old(C), old(mem), C, mem, ret - 8, nb)
      ensures FitRule(old(C), old(dvsize), ret - 8, nb)
      ensures VictimAfter(old(C), old(dv), old(dvsize), ret - 8, nb, dv, dvsize)
    {
      hide Ground, BinsOK, MapsOK, Placed, BlocksKept, Live, DvOK, OnlyLoose, Marked, NoSmallBins, BestFit, Cut;
      BestSmall(nb, nb / 8, i);
      NoChunkAtZero();
      ghost var C0, m0 := C, mem;
      var b := Header(st, i);
      var p := Get(mem, b + 8);
      UnlinkFirstSmall(b, p, i, mem);
      BinsDone(C0, m0, p, Loose);
      DvRecolor(C0, dv, dvsize, 0, p, Loose);
      ghost var C1, m1 := C, mem;
      TopFacts(p);
      var rsize := 8 * i - nb;
      RestOfCut(p, nb);
      SplitChunk(p, nb, rsize, Loose);
      ghost var C2, m2 := C, mem;
      ReplaceDv(p + nb, rsize);
      PlacedBefore(C1, m1, C2, m2, C, mem, p, nb);
      PlacedAfter(C0, m0, C1, m1, C, mem, p, nb);
      ret := p + 8;
    }

    /** The designated victim, split or used up. */
    method TakeDv(nb: int) returns (ret: int)
      requires AtRest() && MIN_CHUNK <= nb <= dvsize && nb % 8 == 0
      modifies this`mem, this`C, this`dv, this`dvsize
      ensures AtRest() && ret == old(dv) + 8 && ret != 0 && ret % 8 == 0
        && Placed(old(C), old(mem), C, mem, ret - 8, nb)
      ensures old(dv) in old(C) && old(C)[old(dv)].kind == Victim
      ensures VictimAfter(old(C), old(dv), old(dvsize), ret - 8, nb, dv, dvsize)
    {
      TopFacts(dv);
      hide Sound, Placed, Live;
      ret := dv + 8;
      if dvsize - nb >= MIN_CHUNK {
        SplitDv(nb);
      } else {
        UseDv(nb);
      }
    }

    /** The victim is cut: nb bytes in use, the rest the new victim. */
    method SplitDv(nb: int)
      requires AtRest() && dvsize != 0 && MIN_CHUNK <= nb && nb + MIN_CHUNK <= dvsize && nb % 8 == 0
      modifies this`mem, this`C, this`dv, this`dvsize
      ensures AtRest() && Placed(old(C), old(mem), C, mem, old(dv), nb)
      ensures dv == old(dv) + nb && dvsize == old(dvsize) - nb
    {
      VictimCut(nb);
      hide Ground, BinsOK, MapsOK, Placed, BlocksKept, Live, Cut, Inv, OnlyLoose;
      var rsize := dvsize - nb;
      var p := dv;
      dv := p + nb;
      dvsize := rsize;
      SplitChunk(p, nb, rsize, Victim);
    }

    /** All of the victim is used. */
    method UseDv(nb: int)
      requires AtRest() && dvsize != 0 && nb <= dvsize < nb + MIN_CHUNK
      modifies this`mem, this`C, this`dv, this`dvsize
      ensures AtRest() && Placed(old(C), old(mem), C, mem, old(dv), nb) && dvsize == 0
    {
      hide Ground, BinsOK, MapsOK, Placed, BlocksKept, Live, Inv;
      var dvs, p := dvsize, dv;
      dvsize := 0;
      dv := 0;
      TakeChunk(p, dvs, nb);
    }

    lemma VictimCut(nb: int)
      requires AtRest() && dvsize != 0 && MIN_CHUNK <= nb && nb % 8 == 0 && nb + MIN_CHUNK <= dvsize
      ensures dv in C && dv + C[dv].size in C
      ensures DvOK(Cut(C, dv, nb, Victim), dv + nb, dvsize - nb) && OnlyLoose(Cut(C, dv, nb, Victim), 0)
    {
      TopFacts(dv);
      hide BinsOK, MapsOK, Tags, Mirror, NodesOK;
      if dv + nb in C { Outside(C, first, top, dv, dv + nb); }
    }

    /** The small requests: a small bin, or the trees; 0 if dv, top or the system must provide. */
    method SmallFromBins(nb: int) returns (ret: int)
      requires AtRest() && MIN_CHUNK <= nb < MIN_LARGE - 7 && nb % 8 == 0
      modifies this`mem, this`smallmap, this`treemap, this`treebins, this`C, this`B, this`dv, this`dvsize
      ensures AtRest()
      ensures ret != 0 ==>
        && ret % 8 == 0 && Placed(old(C), old(mem), C, mem, ret - 8, nb) && FitRule(old(C), old(dvsize), ret - 8, nb)
        && VictimAfter(old(C), old(dv), old(dvsize), ret - 8, nb, dv, dvsize)
      ensures ret == 0 ==> C == old(C) && mem == old(mem) && dv == old(dv) && dvsize == old(dvsize)
      ensures ret == 0 ==> BinsPassed(C, dvsize, nb)
    {
      hide Ground, BinsOK, MapsOK, Placed, DvOK, OnlyLoose, Marked, NoSmallBins, BestFit, Down, Up, Keep, LeftBits,
        LeastBit, BitIndex, BitOf, LowBits, NotFirst;
      var idx := nb / 8;
      var smallbits := Down(smallmap, idx);
      ExactBin(smallmap, idx);
      if LowBits(smallbits) {
        idx := idx + NotFirst(smallbits);
        ret := TakeExact(nb, idx);
        return;
      }
      BestSmall(nb, nb / 8, nb / 8 + 2);
      if nb > dvsize {
        if smallbits != 0 {
          ghost var j := NextBin(smallmap, idx);
          var leftbits := Keep(Up(smallbits, idx), LeftBits(BitOf(idx)));
          var i := BitIndex(LeastBit(leftbits));
          ret := TakeNext(nb, i);
          return;
        }
        BestSmall(nb, nb / 8, 32);
        if treemap != 0 {
          ret := TmallocSmall(nb);
          SmallFromTree(old(C), old(dvsize), ret - 8, nb);
          return;
        }
        NoTrees(nb);
      }
      ret := 0;
    }

    lemma SmallFromTree(C0: Chunks, dvs: int, v: int, nb: int)
      requires v in C0 && C0[v].kind == Binned && C0[v].size >= MIN_LARGE > nb > dvs
      requires forall a {:trigger C0[a]} :: a in C0 && C0[a].kind == Binned && C0[a].size >= MIN_LARGE ==>
        C0[a].size >= C0[v].size
      requires forall a {:trigger C0[a]} :: a in C0 && C0[a].kind == Binned && C0[a].size >= nb ==>
        C0[a].size >= MIN_LARGE
      ensures FitRule(C0, dvs, v, nb)
    {
    }

    lemma NoTrees(nb: int)
      requires AtRest() && treemap == 0
      requires forall a {:trigger C[a]} :: a in C && C[a].kind == Binned && C[a].size >= nb ==> C[a].size >= MIN_LARGE
      ensures NoBinFits(C, nb)
    {
      hide Ground, BinsOK, MapsOK, Marked;
      forall a | a in C && C[a].kind == Binned
        ensures C[a].size < nb
      {
        if C[a].size >= nb {
          InTrees(B, C, st, treebins, a);
          var t :| t in B.R.nodes && B.R.nodes[t].size == C[a].size;
          UnmarkedBin(B, C, st, treebins, smallmap, treemap, t);
          EmptyMap(B.R.nodes[t].place.bin);
        }
      }
    }

    /** The victim, between operations. */
    method TakeVictim(nb: int) returns (ret: int)
      requires Valid() && MIN_CHUNK <= nb <= dvsize && nb % 8 == 0
      modifies this`mem, this`C, this`dv, this`dvsize
      ensures Valid() && ret != 0 && ret % 8 == 0 && Placed(old(C), old(mem), C, mem, ret - 8, nb)
      ensures ret - 8 in old(C) && old(C)[ret - 8].kind == Victim
      ensures VictimAfter(old(C), old(dv), old(dvsize), ret - 8, nb, dv, dvsize)
    {
      FreeSizes();
      hide Placed, AtRest, VictimAfter;
      ret := TakeDv(nb);
    }

    /** The bins have nothing to give: the victim, top or the system. */
    method FromVictimOrTop(nb: int) returns (ret: int)
      requires Valid() && Requestable(nb)
      requires nb < MAX_SIZE ==> BinsPassed(C, dvsize, nb)
      modifies this
      ensures Valid()
      ensures ret == 0 ==> Live(C) == Live(old(C)) && BlocksKept(old(C), old(mem), C, mem, 0)
      ensures ret == 0 && nb < MAX_SIZE ==> Starved(old(C), old(dvsize), old(topsize), old(brk), nb)
      ensures ret != 0 ==> ret % 8 == 0 && Placed(old(C), old(mem), C, mem, ret - 8, nb)
      ensures ret != 0 && nb < MAX_SIZE ==> FitRule(old(C), old(dvsize), ret - 8, nb)
      ensures ret != 0 ==> VictimAfter(old(C), old(dv), old(dvsize), ret - 8, nb, dv, dvsize)
      ensures nb == MAX_SIZE ==> ret == 0
      ensures nb < MAX_SIZE ==> old(brk) <= brk <= old(brk) + Demand(nb, 0)
    {
      FreeSizes();
      DemandPositive(nb);
      hide Ground, BinsOK, MapsOK, BlocksKept, Live, DvOK, OnlyLoose, Placed, Refused, AllZero, Demand, NoBinFits,
        FitRule, BinsPassed, Valid, AtRest, VictimAfter;
      if nb < MAX_SIZE { VictimOrTopRule(C, dvsize, nb); }
      VictimStays(C, dv, dvsize, nb);
      if nb <= dvsize {
        ret := TakeVictim(nb);
      } else if nb < topsize {
        ret := TakeTop(nb);
      } else {
        ret := SysAlloc(nb);
      }
    }

    /** Once the bins are passed over, a victim that is large enough is the right choice, and otherwise what is neither
        binned nor the victim. */
    lemma VictimOrTopRule(C0: Chunks, dvs: int, nb: int)
      requires BinsPassed(C0, dvs, nb)
      ensures nb <= dvs ==> forall v {:trigger C0[v]} :: v in C0 && C0[v].kind == Victim ==> FitRule(C0, dvs, v, nb)
      ensures nb > dvs ==> NoBinFits(C0, nb)
      ensures nb > dvs ==> forall v {:trigger FitRule(C0, dvs, v, nb)} ::
        v !in C0 || C0[v].kind == Wild ==> FitRule(C0, dvs, v, nb)
    {
    }

    lemma VictimStays(C0: Chunks, dv0: int, dvs: int, nb: int)
      ensures forall v {:trigger VictimAfter(C0, dv0, dvs, v, nb, dv0, dvs)} ::
        v !in C0 || C0[v].kind == Wild ==> VictimAfter(C0, dv0, dvs, v, nb, dv0, dvs)
    {
    }

    lemma FreeSizes()
      requires Valid()
      ensures 0 <= dvsize < MAX_SIZE && 0 <= topsize < MAX_SIZE
      ensures top == 0 ==> C == map[] && dvsize == 0 && topsize == 0
      ensures top != 0 ==> top in C && C[top].kind == Wild
      ensures dvsize != 0 ==> dv in C && C[dv].kind == Victim
    {
      hide BinsOK, MapsOK, Tags, Mirror, NodesOK;
      if top != 0 {
        TopFacts(top);
        if dvsize != 0 { TopFacts(dv); }
      }
    }

    /** The chunk size dlmalloc looks for. */
    static function ChunkSizeFor(bytes: int): int
      requires 0 <= bytes < WORD
    {
      if bytes >= MAX_REQUEST then MAX_SIZE else RequestSize(bytes)
    }

    /** A request for so many bytes cannot be met: it is too large, or nothing in the bins, not the victim and not top
        has room for it and the memory it asks for is refused. */
    ghost predicate NoRoom(bytes: int)
      requires 0 <= bytes < WORD
      reads this`C, this`dvsize, this`topsize, this`brk
    {
      bytes >= MAX_REQUEST || Starved(C, dvsize, topsize, brk, RequestSize(bytes))
    }

    /** The bytes a request may add to the segment. */
    static function Growth(bytes: int): (g: int)
      requires 0 <= bytes < MAX_REQUEST
      ensures 0 < g <= bytes + 65
    {
      Demand(RequestSize(bytes), 0)
    }

    /** dlmalloc */
    method DlMalloc(bytes: int) returns (ret: int)
      requires Valid() && 0 <= bytes < WORD
      modifies this
      ensures Valid()
      ensures ret == 0 ==> Live(C) == Live(old(C)) && BlocksKept(old(C), old(mem), C, mem, 0)
      ensures ret == 0 ==> old(NoRoom(bytes))
      ensures bytes < MAX_REQUEST ==> old(brk) <= brk <= old(brk) + Growth(bytes)
      ensures ret != 0 ==>
        && bytes < MAX_REQUEST && ret % 8 == 0
        && Placed(old(C), old(mem), C, mem, ret - 8, RequestSize(bytes))
        && FitRule(old(C), old(dvsize), ret - 8, RequestSize(bytes))
        && VictimAfter(old(C), old(dv), old(dvsize), ret - 8, RequestSize(bytes), dv, dvsize)
    {
      hide Ground, BinsOK, MapsOK, BlocksKept, Live, DvOK, OnlyLoose, Placed, Refused, AllZero, NoBinFits, FitRule,
        BinsPassed, Starved, Demand, VictimAfter, AtRest, RequestSize;
      FreeSizes();
      if bytes < MAX_REQUEST { DemandPositive(RequestSize(bytes)); }
      if top == 0 { NothingBinned(C, dvsize, ChunkSizeFor(bytes)); }
      var nb;
      if bytes <= MAX_SMALL_REQUEST {
        nb := RequestSize(bytes);
        if top != 0 {
          ret := SmallFromBins(nb);
          if ret != 0 {
            return;
          }
        }
      } else if bytes >= MAX_REQUEST {
        nb := MAX_SIZE;
      } else {
        nb := RequestSize(bytes);
        if treemap != 0 {
          ret := TmallocLarge(nb);
          if ret != 0 {
            TreeRule(old(C), dvsize, ret - 8, nb);
            return;
          }
        } else if top != 0 {
          NoTreeFits(nb);
          AllPassed(C, dvsize, nb);
        }
      }
      ret := FromVictimOrTop(nb);
    }

    lemma AllPassed(C0: Chunks, dvs: int, nb: int)
      requires NoBinFits(C0, nb)
      ensures nb >= MIN_LARGE ==> BinsPassed(C0, dvs, nb)
    {
    }

    lemma NothingBinned(C0: Chunks, dvs: int, nb: int)
      requires C0 == map[]
      ensures BinsPassed(C0, dvs, nb)
    {
    }

    lemma TreeRule(C0: Chunks, dvs: int, v: int, nb: int)
      requires v in C0 && C0[v].kind == Binned && BestFit(C0, nb, C0[v].size) && (dvs < nb || C0[v].size < dvs)
      requires nb >= MIN_LARGE
      ensures FitRule(C0, dvs, v, nb) && VictimAfter(C0, dv, dvs, v, nb, dv, dvs)
    {
    }

    lemma NoTreeFits(nb: int)
      requires AtRest() && treemap == 0 && nb >= MIN_LARGE
      ensures NoBinFits(C, nb)
    {
      hide Ground, BinsOK, MapsOK, Marked;
      forall a | a in C && C[a].kind == Binned
        ensures C[a].size < nb
      {
        if C[a].size >= nb {
          InTrees(B, C, st, treebins, a);
          var t :| t in B.R.nodes && B.R.nodes[t].size == C[a].size;
          UnmarkedBin(B, C, st, treebins, smallmap, treemap, t);
          EmptyMap(B.R.nodes[t].place.bin);
        }
      }
    }

    // ---------- dlfree ----------

    /** What the tags say about the chunk before q when its PINUSE bit is clear. */
    lemma FreeBefore(q: int)
      requires Sound() && q in C && !PInUse(Get(mem, q + 4))
      ensures var v := q - Get(mem, q);
        && v in C && C[v].size == Get(mem, q) && v + C[v].size == q && C[v].kind != Used && C[v].kind != Wild
        && PrevUsed(C, first, v) && v < q
    {
      hide BinsOK, MapsOK, Mirror, NodesOK, LiveKept;
      PeekSize(C, first, top, st, mem, B.L, mem, q);
      assert ChunkOK(C, first, top, q);
      var v := C[q].prev;
      assert ChunkOK(C, first, top, v) && TagOK(mem, C, first, v);
      if v != first { assert ChunkOK(C, first, top, C[v].prev); }
    }

    lemma HeadFacts(q: int)
      requires Sound() && q in C
      ensures SizeAt(q) == C[q].size && CInUse(Get(mem, q + 4)) == (C[q].kind == Used)
      ensures PInUse(Get(mem, q + 4)) == PrevUsed(C, first, q)
      ensures q != top ==> q + C[q].size in C && (PrevUsed(C, first, q + C[q].size) <==> C[q].kind == Used)
    {
      hide BinsOK, MapsOK, Mirror, NodesOK, LiveKept, Tags;
      PeekSize(C, first, top, st, mem, B.L, mem, q);
      assert ChunkOK(C, first, top, q);
    }

    /** The chunks from lo up to hi, with the freed q among them, become one free chunk; `clear` says whether hi was
        told. */
    method Coalesce(lo: int, size: int, hi: int, clear: bool, ghost k: Kind, ghost q: int)
      requires Sound() && lo in C && CanFuse(C, first, top, lo, hi, k, q) && hi == lo + size
      requires q in C && lo <= q < hi && C[q].kind == Used
      requires clear || !PrevUsed(C, first, hi)
      modifies this`mem, this`C
      ensures Sound() && lo in old(C) && C == Fuse(old(C), lo, hi, k)
      ensures BlocksKept(old(C), old(mem), C, mem, q) && Live(C) == Live(old(C)) - {q}
    {
      hide Ground, BinsOK, MapsOK, CanFuse, Fuse, Live, BlocksKept, Head, ClearPInUse;
      ghost var m0, C0 := mem, C;
      if clear {
        mem := mem[hi + 4 := ClearPInUse(Get(mem, hi + 4))];
      }
      mem := mem[lo + 4 := Head(size, false, true)];
      mem := mem[hi := size];
      FuseDone(C0, m0, B, first, top, st, treebins, lo, hi, k, q, clear, mem);
      C := Fuse(C0, lo, hi, k);
    }

    /** The chunks from lo on become part of top. */
    method CoalesceTop(lo: int, size: int, ghost q: int)
      requires Sound() && lo in C && CanFuseTop(C, first, top, lo, q) && lo + size == top
      requires q in C && lo <= q < top && C[q].kind == Used
      modifies this`mem, this`C, this`top, this`topsize
      ensures Sound() && lo in old(C) && old(top) in old(C) && C == FuseTop(old(C), old(top), lo) && top == lo
        && topsize == old(topsize) + size
      ensures BlocksKept(old(C), old(mem), C, mem, q) && Live(C) == Live(old(C)) - {q}
    {
      hide Ground, BinsOK, MapsOK, CanFuseTop, FuseTop, Live, BlocksKept, Head;
      ghost var m0, C0, top0 := mem, C, top;
      topsize := topsize + size;
      top := lo;
      mem := mem[lo + 4 := Head(topsize, false, true)];
      FuseTopDone(C0, m0, B, first, top0, st, treebins, lo, q, mem);
      C := FuseTop(C0, top0, lo);
    }

    /** What freeing block q does to the others. */
    ghost predicate Released(C0: Chunks, m0: Mem, q: int)
      reads this`C, this`mem
    {
      Live(C) == Live(C0) - {q} && BlocksKept(C0, m0, C, mem, q)
    }

    ghost predicate FreeState(p: int, psize: int, q: int, next: int)
      reads this
    {
      && Sound() && DvOK(C, dv, dvsize) && OnlyLoose(C, p) && Merging(C, first, dv, p, q)
      && psize == next - p && next == q + C[q].size
    }

    lemma FreeFacts(p: int, psize: int, q: int, next: int)
      requires FreeState(p, psize, q, next)
      ensures next in C && q < next && 0 !in C && q != top && p <= q && (next == top <==> C[next].kind == Wild)
      ensures CInUse(Get(mem, next + 4)) == (C[next].kind == Used)
      ensures dvsize != 0 ==> dv in C && C[dv].kind == Victim && (p <= dv < next ==> dv == p)
      ensures dvsize == 0 ==> dv == 0 && p != dv
      ensures C[p].kind == Victim ==> p == dv && dvsize != 0
    {
      hide BinsOK, MapsOK, Tags, Mirror, NodesOK;
      NoChunkAtZero();
      HeadFacts(q);
      TopFacts(q);
      TopFacts(p);
      HeadFacts(next);
      TopFacts(next);
      if dvsize != 0 && p <= dv < next { MergingRange(C, first, top, dv, p, q, dv); }
    }

    /** Consolidation into top. */
    method FreeIntoTop(p: int, psize: int, q: int, next: int)
      requires FreeState(p, psize, q, next) && next == top
      modifies this`mem, this`C, this`top, this`topsize, this`dv, this`dvsize
      ensures AtRest() && Released(old(C), old(mem), q) && top + topsize == old(top) + old(topsize) && top != 0
    {
      FreeFacts(p, psize, q, next);
      FuseTopHere(p, q);
      hide Ground, BinsOK, MapsOK, CanFuseTop, FuseTop, Live, BlocksKept, Merging, DvOK, OnlyLoose;
      CoalesceTop(p, psize, q);
      if p == dv {
        dv := 0;
        dvsize := 0;
      }
    }

    lemma FuseTopHere(p: int, q: int)
      requires Sound() && DvOK(C, dv, dvsize) && OnlyLoose(C, p) && Merging(C, first, dv, p, q) && q + C[q].size == top
      ensures p in C && top in C && CanFuseTop(C, first, top, p, q) && p <= q < top
      ensures var C' := FuseTop(C, top, p);
        OnlyLoose(C', 0) && DvOK(C', if p == dv then 0 else dv, if p == dv then 0 else dvsize)
    {
      hide BinsOK, MapsOK, Tags, Mirror, NodesOK;
      TopFacts(q);
      TopFacts(p);
      NoChunkAtZero();
      MergingCanFuseTop(C, first, top, dv, p, q);
      if dvsize != 0 { TopFacts(dv); }
      if dvsize != 0 && p <= dv < top { MergingRange(C, first, top, dv, p, q, dv); }
      DvFuseTop(C, dv, dvsize, p, q, first, top);
    }

    /** Consolidation with the victim behind. */
    method FreeIntoVictim(p: int, psize: int, q: int, next: int)
      requires FreeState(p, psize, q, next) && next == dv && dvsize != 0
      modifies this`mem, this`C, this`dv, this`dvsize
      ensures AtRest() && Released(old(C), old(mem), q)
    {
      FreeFacts(p, psize, q, next);
      FuseNextHere(p, q, Victim);
      hide Ground, BinsOK, MapsOK, CanFuse, Fuse, Live, BlocksKept, Merging, OnlyLoose, PrevUsed;
      ghost var hi := next + dvsize;
      dvsize := dvsize + psize;
      dv := p;
      Coalesce(p, dvsize, p + dvsize, false, Victim, q);
    }

    /** Fusing up to the end of the free chunk behind q. */
    lemma FuseNextHere(p: int, q: int, k: Kind)
      requires Sound() && DvOK(C, dv, dvsize) && Merging(C, first, dv, p, q) && q + C[q].size in C
      requires var n := q + C[q].size;
        && (C[n].kind == Loose || C[n].kind == Victim)
        && (forall a {:trigger C[a]} :: a in C && C[a].kind == Loose ==> a == p || a == n)
        && k == if C[n].kind == Victim || C[p].kind == Victim then Victim else Loose
      ensures var n := q + C[q].size;
        var hi := n + C[n].size;
        && CanFuse(C, first, top, p, hi, k, q) && hi in C && !PrevUsed(C, first, hi) && p <= q < hi
        && var C' := Fuse(C, p, hi, k);
        && (k == Victim ==> DvOK(C', p, hi - p) && OnlyLoose(C', 0))
        && (k == Loose ==> DvOK(C', dv, dvsize) && OnlyLoose(C', p))
        && p in C' && C'[p].kind == k && C'[p].size == hi - p
    {
      hide BinsOK, MapsOK, Tags, Mirror, NodesOK;
      var n := q + C[q].size;
      var hi := n + C[n].size;
      TopFacts(q);
      TopFacts(p);
      TopFacts(n);
      NoChunkAtZero();
      MergingCanFuseNext(C, first, top, dv, p, q, k);
      if dvsize != 0 && p <= dv < hi { MergingRangeNext(C, first, top, dv, p, q, dv); }
      DvFuse(C, dv, dvsize, p, hi, k, q, first, top);
    }

    /** Consolidation with a binned chunk behind. */
    method FreeWithNext(p: int, psize: int, q: int, next: int)
      requires FreeState(p, psize, q, next) && next in C && C[next].kind == Binned
      modifies this`mem, this`smallmap, this`treemap, this`treebins, this`C, this`B, this`dv, this`dvsize
      ensures AtRest() && Released(old(C), old(mem), q)
    {
      FreeFacts(p, psize, q, next);
      HeadFacts(next);
      hide Ground, BinsOK, MapsOK, Live, BlocksKept, PrevUsed, DvOK, OnlyLoose, Merging;
      ghost var C0, m0 := C, mem;
      var nsize := SizeAt(next);
      var size := psize + nsize;
      Unlink(next, nsize);
      ghost var C1, m1 := C, mem;
      MergingUnlinked(C0, next, p, q);
      FuseUnlinked(p, size, q, next);
      KeptThenFreed(C0, m0, C1, m1, C, mem, q);
    }

    /** The chunk behind has left its bin. */
    method FuseUnlinked(p: int, size: int, q: int, ghost next: int)
      requires Sound() && DvOK(C, dv, dvsize) && Merging(C, first, dv, p, q) && next == q + C[q].size && next in C
        && C[next].kind == Loose
      requires forall a {:trigger C[a]} :: a in C && C[a].kind == Loose ==> a == p || a == next
      requires size == next + C[next].size - p && 0 !in C && (p == dv <==> C[p].kind == Victim)
      modifies this`mem, this`smallmap, this`treemap, this`treebins, this`C, this`B, this`dv, this`dvsize
      ensures AtRest() && Released(old(C), old(mem), q)
    {
      FuseNextHere(p, q, if C[p].kind == Victim then Victim else Loose);
      hide Ground, BinsOK, MapsOK, CanFuse, Fuse, Live, BlocksKept, PrevUsed, Merging, DvOK, OnlyLoose;
      ghost var C1, m1 := C, mem;
      Coalesce(p, size, p + size, false, if C[p].kind == Victim then Victim else Loose, q);
      if p == dv {
        dvsize := size;
      } else {
        ghost var C2, m2 := C, mem;
        Insert(p, size);
        DvRecolor(C2, dv, dvsize, p, p, Binned);
        FreedThenKept(C1, m1, C2, m2, C, mem, q);
      }
    }

    lemma MergingUnlinked(C0: Chunks, n: int, p: int, q: int)
      requires Merging(C0, first, dv, p, q) && n in C0 && C0[n].kind == Binned && C == Recolor(C0, n, Loose)
      requires DvOK(C0, dv, dvsize) && OnlyLoose(C0, p)
      ensures p in C && q in C && n in C && Merging(C, first, dv, p, q) && DvOK(C, dv, dvsize) && C[p] == C0[p]
        && C[q] == C0[q]
      ensures forall a {:trigger C[a]} :: a in C && C[a].kind == Loose ==> a == p || a == n
    {
    }

    /** The chunk behind is in use. */
    method FreeAlone(p: int, psize: int, q: int, next: int)
      requires FreeState(p, psize, q, next) && next in C && C[next].kind == Used && C[p].kind != Victim
      modifies this`mem, this`smallmap, this`treemap, this`treebins, this`C, this`B
      ensures AtRest() && Released(old(C), old(mem), q)
    {
      FreeFacts(p, psize, q, next);
      FuseHere(p, q, Loose);
      hide Ground, BinsOK, MapsOK, CanFuse, Fuse, Live, BlocksKept, PrevUsed, Merging, DvOK, OnlyLoose;
      ghost var C0, m0 := C, mem;
      Coalesce(p, psize, next, true, Loose, q);
      ghost var C1, m1 := C, mem;
      Insert(p, psize);
      DvRecolor(C1, dv, dvsize, p, p, Binned);
      FreedThenKept(C0, m0, C1, m1, C, mem, q);
    }

    /** The victim before takes the freed chunk in. */
    method FreeIntoVictimBefore(p: int, psize: int, q: int, next: int)
      requires FreeState(p, psize, q, next) && next in C && C[next].kind == Used && C[p].kind == Victim
      modifies this`mem, this`C, this`dvsize
      ensures AtRest() && Released(old(C), old(mem), q)
    {
      FreeFacts(p, psize, q, next);
      FuseHere(p, q, Victim);
      hide Ground, BinsOK, MapsOK, CanFuse, Fuse, Live, BlocksKept, PrevUsed, Merging, DvOK, OnlyLoose;
      dvsize := psize;
      Coalesce(p, psize, next, true, Victim, q);
    }

    /** Fusing up to a live chunk. */
    lemma FuseHere(p: int, q: int, k: Kind)
      requires Sound() && DvOK(C, dv, dvsize) && OnlyLoose(C, p) && Merging(C, first, dv, p, q) && q + C[q].size in C
      requires C[q + C[q].size].kind == Used && k == if C[p].kind == Victim then Victim else Loose
      ensures var n := q + C[q].size;
        && CanFuse(C, first, top, p, n, k, q) && p <= q < n
        && var C' := Fuse(C, p, n, k);
        && (k == Victim ==> DvOK(C', p, n - p) && OnlyLoose(C', 0))
        && (k == Loose ==> DvOK(C', dv, dvsize) && OnlyLoose(C', p))
        && p in C' && C'[p].kind == k && C'[p].size == n - p
    {
      hide BinsOK, MapsOK, Tags, Mirror, NodesOK;
      var n := q + C[q].size;
      TopFacts(q);
      TopFacts(p);
      NoChunkAtZero();
      MergingCanFuse(C, first, top, dv, p, q, k);
      if dvsize != 0 && p <= dv < n { MergingRange(C, first, top, dv, p, q, dv); }
      DvFuse(C, dv, dvsize, p, n, k, q, first, top);
    }

    /** Consolidation forward, and the bin for the result. */
    method FreeForward(p: int, psize: int, q: int, next: int)
      requires FreeState(p, psize, q, next) && next in C && (C[p].kind == Victim ==> C[next].kind != Used) && top != 0
      modifies this`mem, this`smallmap, this`treemap, this`treebins, this`C, this`B, this`dv, this`dvsize
      modifies this`top, this`topsize, this`trimcheck
      ensures AtRest() && top != 0 && top + topsize == old(top) + old(topsize) && Released(old(C), old(mem), q)
    {
      FreeFacts(p, psize, q, next);
      NextBinned(p, q, next);
      hide Ground, BinsOK, MapsOK, Live, BlocksKept, Merging, DvOK, OnlyLoose, FreeState, Released;
      if !CInUse(Get(mem, next + 4)) {
        if next == top {
          FreeIntoTop(p, psize, q, next);
          if topsize > trimcheck {
            SysTrim();
          }
        } else if next == dv {
          FreeIntoVictim(p, psize, q, next);
        } else {
          FreeWithNext(p, psize, q, next);
        }
      } else {
        FreeAlone(p, psize, q, next);
      }
    }

    lemma NextBinned(p: int, q: int, next: int)
      requires DvOK(C, dv, dvsize) && OnlyLoose(C, p) && next in C && next != p
      ensures C[next].kind != Used && C[next].kind != Wild && next != dv ==> C[next].kind == Binned
      ensures next == dv && 0 !in C ==> dvsize != 0
    {
    }

    /** sys_trim: MORECORE gives nothing back, so automatic trimming is turned off. */
    method SysTrim()
      modifies this`trimcheck
      ensures trimcheck == MAX_SIZE
    {
      trimcheck := MAX_SIZE;
    }

    /** Consolidation backward; done if the victim has taken the block in. */
    method FreeBackward(q: int, next: int) returns (p: int, psize: int, done: bool)
      requires AtRest() && q in C && C[q].kind == Used && next == q + C[q].size && !PInUse(Get(mem, q + 4))
        && least <= first
      modifies this`mem, this`smallmap, this`treemap, this`treebins, this`C, this`B, this`dvsize
      ensures done ==> AtRest() && Released(old(C), old(mem), q)
      ensures !done ==> FreeState(p, psize, q, next) && next in C && (C[p].kind == Victim ==> C[next].kind != Used)
      ensures !done ==> BlocksKept(old(C), old(mem), C, mem, 0) && Live(C) == Live(old(C))
    {
      FreeBefore(q);
      hide Ground, BinsOK, MapsOK, BlocksKept, Live, Merging, DvOK, OnlyLoose, FreeState;
      NoChunkAtZero();
      ghost var C0 := C;
      BlocksKeptSame(C, mem);
      var prevsize := Get(mem, q);
      p := q - prevsize;
      psize := SizeAt(q) + prevsize;
      HeadFacts(q);
      TopFacts(p);
      assert p >= least;
      PrevKind(p);
      if p != dv {
        Unlink(p, prevsize);
        DvRecolor(C0, dv, dvsize, 0, p, Loose);
      }
      PrevMerged(C0, p, q);
      FreeFacts(p, psize, q, next);
      NextPInUse(q);
      done := false;
      if p == dv && CInUse(Get(mem, next + 4)) && PInUse(Get(mem, next + 4)) {
        VictimHere(p);
        FreeIntoVictimBefore(p, psize, q, next);
        done := true;
      } else {
        NotVictim(p, psize, q, next);
      }
    }

    /** A live chunk is freed. */
    method FreeChunk(q: int)
      requires AtRest() && top != 0 && q in C && C[q].kind == Used && least <= first <= q && 0 !in C
      requires SizeAt(q) == C[q].size && CInUse(Get(mem, q + 4))
      requires PInUse(Get(mem, q + 4)) ==> FreeState(q, C[q].size, q, q + C[q].size)
      modifies this`mem, this`smallmap, this`treemap, this`treebins, this`C, this`B, this`dv, this`dvsize
      modifies this`top, this`topsize, this`trimcheck
      ensures AtRest() && top != 0 && top + topsize == old(top) + old(topsize) && Released(old(C), old(mem), q)
    {
      hide Ground, BinsOK, MapsOK, BlocksKept, Live, Merging, DvOK, OnlyLoose, FreeState;
      assert q >= least && CInUse(Get(mem, q + 4));
      ghost var C0, m0 := C, mem;
      BlocksKeptSame(C, mem);
      var p, psize := q, SizeAt(q);
      var next := q + psize;
      if !PInUse(Get(mem, q + 4)) {
        var done;
        p, psize, done := FreeBackward(q, next);
        if done {
          return;
        }
      } else {
        FreeFacts(p, psize, q, next);
      }
      ghost var C1, m1 := C, mem;
      FreeForward(p, psize, q, next);
      KeptThenFreed(C0, m0, C1, m1, C, mem, q);
    }

    /** dlfree */
    method DlFree(m: int)
      requires Valid() && (m == 0 || m - 8 in Live(C))
      modifies this
      ensures Valid() && brk == old(brk)
      ensures m == 0 ==> C == old(C) && mem == old(mem)
      ensures m != 0 ==> Released(old(C), old(mem), m - 8)
    {
      hide Ground, BinsOK, MapsOK, BlocksKept, Live, Merging, DvOK, OnlyLoose, FreeState, AtRest, Sound, Inv, Released;
      if m != 0 {
        FreeStart(m - 8);
        FreeChunk(m - 8);
      }
    }

    lemma FreeStart(q: int)
      requires Valid() && q in Live(C)
      ensures top != 0 && AtRest() && q in C && C[q].kind == Used && q >= first >= least && 0 !in C
      ensures SizeAt(q) == C[q].size && CInUse(Get(mem, q + 4))
      ensures PInUse(Get(mem, q + 4)) ==> FreeState(q, C[q].size, q, q + C[q].size)
    {
      hide BinsOK, MapsOK, Tags, Mirror, NodesOK;
      HeadFacts(q);
      TopFacts(q);
      NoChunkAtZero();
    }

    /** The bytes a caller may use, from behind the header of a block to the head of the next chunk: they
        lie in the memory obtained so far, and no two live blocks share any. */
    lemma PayloadsApart(p: int, q: int)
      requires Valid() && p in Live(C) && q in Live(C) && p != q
      ensures p in C && q in C && MIN_CHUNK <= C[p].size
      ensures segbase <= p && p + C[p].size + 4 <= brk
      ensures p + C[p].size + 4 <= q + 8 || q + C[q].size + 4 <= p + 8
    {
      hide BinsOK, MapsOK, Tags, Mirror, NodesOK, Tiling, Inv;
      FreeStart(p);
      FreeStart(q);
      TopFacts(p);
      TopFacts(top);
      TilingHere();
      Outside(C, first, top, p, q);
    }

    lemma TilingHere()
      requires Sound()
      ensures Tiling(C, first, top)
    {
      hide BinsOK, MapsOK, Tags, Mirror, NodesOK, Tiling;
    }

    lemma PrevKind(p: int)
      requires AtRest() && p in C && C[p].kind != Used && C[p].kind != Wild
      ensures if p == dv then C[p].kind == Victim && dvsize != 0 else C[p].kind == Binned
    {
      hide BinsOK, MapsOK, Ground;
      NoChunkAtZero();
    }

    lemma PrevMerged(C0: Chunks, p: int, q: int)
      requires Sound() && DvOK(C, dv, dvsize) && p in C0 && q in C0 && p < q && p + C0[p].size == q
        && C0[q].kind == Used && PrevUsed(C0, first, p)
      requires if p == dv then C == C0 && OnlyLoose(C0, 0) && C0[p].kind == Victim
               else C0[p].kind == Binned && C == Recolor(C0, p, Loose) && OnlyLoose(C, p)
      ensures q in C && FreeState(p, q + C[q].size - p, q, q + C[q].size) && C[q] == C0[q]
    {
      hide BinsOK, MapsOK, Ground;
      NoChunkAtZero();
    }

    lemma NextPInUse(q: int)
      requires Sound() && q in C && C[q].kind == Used
      ensures q != top && q + C[q].size in C && PInUse(Get(mem, q + C[q].size + 4))
    {
      TopFacts(q);
      HeadFacts(q);
      HeadFacts(q + C[q].size);
    }

    lemma VictimHere(p: int)
      requires DvOK(C, dv, dvsize) && p == dv && p in C && dvsize != 0
      ensures C[p].kind == Victim
    {
    }

    lemma NotVictim(p: int, psize: int, q: int, next: int)
      requires FreeState(p, psize, q, next) && next in C && (p == dv ==> C[next].kind != Used)
      ensures p in C && (C[p].kind == Victim ==> C[next].kind != Used)
    {
      hide Ground, BinsOK, MapsOK;
    }

    // ---------- the caller's writes ----------

    /** The caller writes a word of a live block: nothing of the heap's, and no other block, changes. */
    method Store(p: int, x: int, v: int)
      requires AtRest() && p in C && C[p].kind == Used && p + 8 <= x < p + C[p].size + 4 && x % 4 == 0
      modifies this`mem
      ensures AtRest() && mem == old(mem)[x := v] && BlocksKept(C, old(mem), C, mem, p)
    {
      hide BinsOK, MapsOK, Ground, BlocksKept;
      StoreDone(C, mem, B, first, top, st, treebins, p, x, v);
      mem := mem[x := v];
    }

    /** The whole words of memcpy. */
    method CopyWords(p: int, q: int, n: int)
      requires AtRest() && p in C && q in C && C[p].kind == Used && C[q].kind == Used && p != q && Aligned(p)
        && Aligned(q)
      requires 0 <= n && 4 * n <= C[p].size - 4 && 4 * n <= C[q].size - 4
      modifies this`mem
      ensures AtRest() && BlocksKept(C, old(mem), C, mem, p) && WordsCopied(old(mem), mem, p + 8, q + 8, n)
    {
      hide BlocksKept, Inv, Sound, DvOK, OnlyLoose, WordsCopied, AtRest, Get, Aligned;
      ghost var m0 := mem;
      AllKept(C, mem, p);
      NoWords(m0, mem, p + 8, q + 8);
      for k := 0 to n
        invariant AtRest() && BlocksKept(C, m0, C, mem, p) && WordsCopied(m0, mem, p + 8, q + 8, k)
      {
        SourceWord(m0, p, q, k);
        ghost var m1 := mem;
        WordAligned(p, k);
        Store(p, WordAt(p + 8, k), Get(mem, WordAt(q + 8, k)));
        OneMoreWord(m0, m1, mem, p, q, k);
      }
    }

    static lemma WordAligned(p: int, k: int)
      requires Aligned(p)
      ensures WordAt(p + 8, k) % 4 == 0
    {
    }

    /** memcpy of n bytes from live block q to live block p. */
    method Memcpy(p: int, q: int, n: int)
      requires AtRest() && p in C && q in C && C[p].kind == Used && C[q].kind == Used && p != q
      requires 0 <= n <= C[p].size - 4 && n <= C[q].size - 4
      modifies this`mem
      ensures AtRest() && BlocksKept(C, old(mem), C, mem, p)
      ensures BytesCopied(old(mem), mem, p + 8, q + 8, n)
    {
      hide BlocksKept, Inv, Sound, DvOK, OnlyLoose, Spliced, BytesCopied, WordsCopied, AtRest, Get, Aligned;
      AlignedBlocks(p, q);
      ghost var m0 := mem;
      var words, rest := n / 4, n % 4;
      CopyWords(p, q, words);
      if rest != 0 {
        CopyRest(p, q, n, words, rest, m0);
      } else {
        AllWordsCopied(m0, mem, p, q, n, words);
      }
    }

    /** The bytes of memcpy behind the whole words. */
    method CopyRest(p: int, q: int, n: int, words: int, rest: int, ghost m0: Mem)
      requires AtRest() && p in C && q in C && C[p].kind == Used && C[q].kind == Used && p != q && Aligned(p)
        && Aligned(q)
      requires 0 <= n <= C[p].size - 4 && n <= C[q].size - 4 && words >= 0 && n == 4 * words + rest && 0 < rest < 4
      requires BlocksKept(C, m0, C, mem, p) && WordsCopied(m0, mem, p + 8, q + 8, words)
      modifies this`mem
      ensures AtRest() && BlocksKept(C, m0, C, mem, p) && BytesCopied(m0, mem, p + 8, q + 8, n)
    {
      hide BlocksKept, Inv, Sound, DvOK, OnlyLoose, Spliced, BytesCopied, WordsCopied, AtRest, Get, Aligned;
      SourceWord(m0, p, q, words);
      ghost var m1 := mem;
      WordAligned(p, words);
      var d := Get(mem, WordAt(p + 8, words));
      Store(p, WordAt(p + 8, words), Spliced(Get(mem, WordAt(q + 8, words)), d, rest));
      BlocksKeptTwice(C, m0, C, m1, C, mem, p, p);
      LastWordCopied(m0, m1, mem, p, q, n, words, rest, d);
    }

    lemma AlignedBlocks(p: int, q: int)
      requires AtRest() && p in C && q in C
      ensures Aligned(p) && Aligned(q)
    {
      TopFacts(p);
      TopFacts(q);
    }

    lemma AllKept(C0: Chunks, m: Mem, p: int)
      ensures BlocksKept(C0, m, C0, m, p)
    {
      forall a | a in C0 && C0[a].kind == Used && a != p
        ensures Survives(C0, m, C0, m, a)
      {
      }
    }

    lemma NoWords(m0: Mem, m: Mem, d: int, s: int)
      ensures WordsCopied(m0, m, d, s, 0)
    {
    }

    /** A source word has not changed yet. */
    lemma SourceWord(m0: Mem, p: int, q: int, k: int)
      requires BlocksKept(C, m0, C, mem, p) && q in C && C[q].kind == Used && p != q && k >= 0
        && 4 * k + 8 < C[q].size + 4
      ensures Get(mem, WordAt(q + 8, k)) == Get(m0, WordAt(q + 8, k))
    {
      assert Survives(C, m0, C, mem, q);
    }

    lemma OneMoreWord(m0: Mem, m1: Mem, m2: Mem, p: int, q: int, k: int)
      requires BlocksKept(C, m0, C, m1, p) && BlocksKept(C, m1, C, m2, p) && WordsCopied(m0, m1, p + 8, q + 8, k)
      requires k >= 0 && m2 == m1[WordAt(p + 8, k) := Get(m0, WordAt(q + 8, k))]
      ensures BlocksKept(C, m0, C, m2, p) && WordsCopied(m0, m2, p + 8, q + 8, k + 1)
    {
      BlocksKeptTwice(C, m0, C, m1, C, m2, p, p);
    }

    // ---------- realloc and memalign ----------

    /** The memory after set_inuse(p, s). */
    static function InUseSet(m: Mem, p: int, s: int): Mem {
      var m1 := m[p + 4 := Head(s, true, PInUse(Get(m, p + 4)))];
      m1[p + s + 4 := SetPInUse(Get(m1, p + s + 4))]
    }

    /** set_inuse */
    method SetInUse(p: int, s: int)
      modifies this`mem
      ensures mem == InUseSet(old(mem), p, s)
    {
      mem := mem[p + 4 := Head(s, true, PInUse(Get(mem, p + 4)))];
      mem := mem[p + s + 4 := SetPInUse(Get(mem, p + s + 4))];
    }

    /** set_inuse for two adjacent pieces, in either order. */
    method SetBothInUse(v: int, nb: int, rsize: int, restFirst: bool)
      requires MIN_CHUNK <= nb && MIN_CHUNK <= rsize && rsize % 8 == 0
      modifies this`mem
      ensures var r := v + nb;
        && Get(mem, v + 4) == Head(nb, true, PInUse(Get(old(mem), v + 4))) && Get(mem, r + 4) == Head(rsize, true, true)
        && Get(mem, r + rsize + 4) == SetPInUse(Get(old(mem), r + rsize + 4))
        && forall x :: x != v + 4 && x != r + 4 && x != r + rsize + 4 ==> Get(mem, x) == Get(old(mem), x)
    {
      hide Head, SetPInUse, PInUse, Get, InUseSet;
      ghost var m0 := mem;
      var r := v + nb;
      if restFirst {
        SetInUse(r, rsize);
        SetInUse(v, nb);
        InUseWritesBack(m0, v, nb, rsize, mem);
      } else {
        SetInUse(v, nb);
        SetInUse(r, rsize);
        InUseWrites(m0, v, nb, rsize, mem);
      }
    }

    /** Two live blocks from one: set_inuse for the first nb bytes of a live chunk and for the rest, in either order. */
    method SplitInUse(v: int, nb: int, rsize: int, restFirst: bool)
      requires AtRest() && v in C && C[v].kind == Used && MIN_CHUNK <= nb && nb % 8 == 0
        && rsize == C[v].size - nb >= MIN_CHUNK
      modifies this`mem, this`C
      ensures AtRest() && v in C && C[v].kind == Used && C[v].size == nb && v + nb in C && C[v + nb].kind == Used
        && C[v + nb].size == rsize
      ensures Live(C) == Live(old(C)) + {v + nb} && v + nb !in Live(old(C)) && v in Live(old(C))
      ensures BlocksKept(old(C), old(mem), C, mem, v) && Undisturbed(old(mem), mem, v, nb)
    {
      TopFacts(v);
      UsedCut(v, nb);
      hide BinsOK, MapsOK, Ground, BlocksKept, Live, Undisturbed, Head, SetPInUse, DvOK, OnlyLoose, PInUse, Get, Cut,
        InUseSet;
      ghost var m0, C0 := mem, C;
      SetBothInUse(v, nb, rsize, restFirst);
      SplitUsedDone(C0, m0, B, first, top, st, treebins, v, nb, mem);
      C := Cut(C0, v, nb, Used);
      CutEnds(C0, v, nb);
    }

    lemma CutEnds(C0: Chunks, v: int, nb: int)
      requires v in C0 && v + C0[v].size in C0 && MIN_CHUNK <= nb <= C0[v].size - MIN_CHUNK
      ensures var C1 := Cut(C0, v, nb, Used);
        v in C1 && C1[v] == Chunk(nb, Used, C0[v].prev) && v + nb in C1 && C1[v + nb] == Chunk(C0[v].size - nb, Used, v)
    {
    }

    /** The four writes of two set_inuse calls. */
    static lemma InUseWrites(m: Mem, v: int, nb: int, rsize: int, m': Mem)
      requires MIN_CHUNK <= nb && MIN_CHUNK <= rsize
      requires m' == InUseSet(InUseSet(m, v, nb), v + nb, rsize)
      ensures var r := v + nb;
        && Get(m', v + 4) == Head(nb, true, PInUse(Get(m, v + 4))) && Get(m', r + 4) == Head(rsize, true, true)
        && Get(m', r + rsize + 4) == SetPInUse(Get(m, r + rsize + 4))
        && forall x :: x != v + 4 && x != r + 4 && x != r + rsize + 4 ==> Get(m', x) == Get(m, x)
    {
    }

    /** The same in the other order. */
    static lemma InUseWritesBack(m: Mem, v: int, nb: int, rsize: int, m': Mem)
      requires MIN_CHUNK <= nb && MIN_CHUNK <= rsize && rsize % 8 == 0
      requires m' == InUseSet(InUseSet(m, v + nb, rsize), v, nb)
      ensures var r := v + nb;
        && Get(m', v + 4) == Head(nb, true, PInUse(Get(m, v + 4))) && Get(m', r + 4) == Head(rsize, true, true)
        && Get(m', r + rsize + 4) == SetPInUse(Get(m, r + rsize + 4))
        && forall x :: x != v + 4 && x != r + 4 && x != r + rsize + 4 ==> Get(m', x) == Get(m, x)
    {
      HeadFields(rsize, true, PInUse(Get(m, v + nb + 4)));
    }

    lemma UsedCut(v: int, nb: int)
      requires AtRest() && v in C && C[v].kind == Used && MIN_CHUNK <= nb && nb % 8 == 0 && C[v].size - nb >= MIN_CHUNK
      ensures v + C[v].size in C && DvOK(Cut(C, v, nb, Used), dv, dvsize) && OnlyLoose(Cut(C, v, nb, Used), 0)
    {
      TopFacts(v);
      hide BinsOK, MapsOK, Tags, Mirror, NodesOK;
      DvCutUsed(C, first, top, dv, dvsize, v, nb);
    }

    /** The block before top grows into it. */
    method ExtendTop(p: int, nb: int)
      requires Valid() && top != 0 && p in C && C[p].kind == Used && p + C[p].size == top
        && C[p].size < nb < C[p].size + topsize && nb % 8 == 0
      modifies this`mem, this`C, this`top, this`topsize
      ensures Valid() && p in C && C[p].kind == Used && C[p].size == nb && p in old(C) && Live(C) == Live(old(C))
      ensures BlocksKept(old(C), old(mem), C, mem, p) && Undisturbed(old(mem), mem, p, old(C)[p].size)
    {
      TopFacts(p);
      TopFacts(top);
      HeadFacts(p);
      ShiftDv(p, nb);
      hide BinsOK, MapsOK, Ground, BlocksKept, Live, Undisturbed, Head, SetPInUse, DvOK, OnlyLoose, PInUse, Get,
        ShiftTop, InUseSet;
      ghost var m0, C0, top0 := mem, C, top;
      MoveTop(p, nb);
      ExtendDone(C0, m0, B, first, top0, st, treebins, p, nb, mem);
      C := ShiftTop(C0, p, nb);
    }

    /** The head of p for nb bytes, and the top behind it. */
    method MoveTop(p: int, nb: int)
      requires nb > 0
      modifies this`mem, this`top, this`topsize
      ensures top == p + nb && topsize == old(SizeAt(p)) + old(topsize) - nb
      ensures Get(mem, p + 4) == Head(nb, true, PInUse(Get(old(mem), p + 4)))
        && Get(mem, p + nb + 4) == Head(topsize, false, true)
      ensures forall x :: x != p + 4 && x != p + nb + 4 ==> Get(mem, x) == Get(old(mem), x)
    {
      hide Head, SetPInUse, PInUse, Get, InUseSet;
      ghost var m0 := mem;
      var newsize := SizeAt(p) + topsize;
      var newtop := p + nb;
      SetInUse(p, nb);
      mem := mem[newtop + 4 := Head(newsize - nb, false, true)];
      top := newtop;
      topsize := newsize - nb;
      ExtendWrites(m0, p, nb, newsize - nb, mem);
    }

    static lemma ExtendWrites(m: Mem, p: int, nb: int, rest: int, m': Mem)
      requires nb > 0
      requires
        m' == InUseSet(m, p, nb)[p + nb + 4 := Head(rest, false, true)]
      ensures && Get(m', p + 4) == Head(nb, true, PInUse(Get(m, p + 4)))
        && Get(m', p + nb + 4) == Head(rest, false, true)
              && forall x :: x != p + 4 && x != p + nb + 4 ==> Get(m', x) == Get(m, x)
    {
    }

    lemma ShiftDv(p: int, nb: int)
      requires AtRest() && p in C && C[p].kind == Used && p + C[p].size == top && nb > C[p].size
      ensures top in C && DvOK(ShiftTop(C, p, nb), dv, dvsize) && OnlyLoose(ShiftTop(C, p, nb), 0)
    {
      hide BinsOK, MapsOK, Tags, Mirror, NodesOK;
      DvShift(C, first, top, dv, dvsize, p, nb);
    }

    /** What realloc of block q to `bytes` bytes delivers at chunk p: the block itself or a new one, its first bytes
        kept. */
    ghost predicate Moved(C0: Chunks, m0: Mem, q: int, p: int, bytes: int)
      requires q in C0
      reads this`C, this`mem
    {
      && 0 <= bytes < MAX_REQUEST
      && Live(C) == Live(C0) - {q} + {p} && (p == q || p !in Live(C0)) && p in C && C[p].kind == Used
      && RequestSize(bytes) <= C[p].size < RequestSize(bytes) + MIN_CHUNK
      && BlocksKept(C0, m0, C, mem, q)
      && BytesCopied(m0, mem, p + 8, q + 8, Lesser(C0[q].size - 4, bytes))
    }

    lemma LiveFacts(q: int)
      requires Valid() && q in Live(C)
      ensures top != 0 && AtRest() && q in C && C[q].kind == Used && q % 8 == 0 && q > 0 && SizeAt(q) == C[q].size
        && 0 !in C
      ensures MIN_CHUNK <= C[q].size < WORD && q + C[q].size <= top
      ensures topsize > 0
    {
      hide BinsOK, MapsOK, Tags, Mirror, NodesOK;
      HeadFacts(q);
      TopFacts(q);
      TopFacts(top);
      NoChunkAtZero();
    }

    /** A live block is split between operations. */
    method SplitLive(v: int, nb: int, rsize: int, restFirst: bool)
      requires Valid() && top != 0 && v in C && C[v].kind == Used && MIN_CHUNK <= nb && nb % 8 == 0
        && rsize == C[v].size - nb >= MIN_CHUNK
      modifies this`mem, this`C
      ensures Valid() && v in C && C[v].kind == Used && C[v].size == nb && v + nb in C && C[v + nb].kind == Used
        && C[v + nb].size == rsize
      ensures Live(C) == Live(old(C)) + {v + nb} && v + nb !in Live(old(C)) && v in Live(old(C))
      ensures BlocksKept(old(C), old(mem), C, mem, v) && Undisturbed(old(mem), mem, v, nb)
    {
      hide BlocksKept, Live, Undisturbed, AtRest;
      SplitInUse(v, nb, rsize, restFirst);
    }

    /** The block is large enough: what it has too much is freed. */
    method Shrink(q: int, nb: int, rsize: int, ghost bytes: int)
      requires Valid() && q in Live(C) && q in C && C[q].size == nb + rsize && rsize >= MIN_CHUNK
        && 0 <= bytes < MAX_REQUEST && nb == RequestSize(bytes)
      modifies this
      ensures brk == old(brk)
      ensures Valid() && Moved(old(C), old(mem), q, q, bytes)
    {
      LiveFacts(q);
      hide BlocksKept, Live, Undisturbed, BytesCopied, RequestSize, Valid, AtRest, Released;
      Payload4(q);
      ghost var C0, m0, n := C, mem, Lesser(C[q].size - 4, bytes);
      SplitLive(q, nb, rsize, false);
      ghost var C1, m1 := C, mem;
      BytesSelf(m0, m1, q + 8, n, nb);
      InLive(q + nb);
      DlFree(q + nb + 8);
      SurvivesFree(C1, m1, q, q + nb);
      BytesStay(m0, m1, mem, q + 8, q + 8, n, nb);
      NotInLive(C0, q + nb);
      BlocksKeptTwice(C0, m0, C1, m1, C, mem, q, q + nb);
      BackAgain(C0, q, q + nb);
    }

    lemma InLive(a: int)
      requires a in C && C[a].kind == Used
      ensures a in Live(C)
    {
    }

    lemma NotInLive(C0: Chunks, a: int)
      requires a !in Live(C0)
      ensures a !in C0 || C0[a].kind != Used
    {
    }

    lemma BackAgain(C0: Chunks, q: int, r: int)
      requires q in Live(C0) && r !in Live(C0) && Live(C) == Live(C0) + {r} - {r}
      ensures Live(C) == Live(C0) - {q} + {q}
    {
      hide Live;
    }

    lemma SurvivesFree(C1: Chunks, m1: Mem, q: int, r: int)
      requires Released(C1, m1, r) && q in C1 && C1[q].kind == Used && q != r
      ensures q in C && C[q].kind == Used && C[q].size == C1[q].size && Undisturbed(m1, mem, q, C[q].size)
      ensures Live(C) == Live(C1) - {r}
    {
      assert Survives(C1, m1, C, mem, q);
    }

    /** The first n bytes of block q are copied to block p. */
    method CopyBlock(p: int, q: int, n: int)
      requires Valid() && q in Live(C) && p in C && q in C && C[p].kind == Used && C[q].kind == Used && p != q
      requires 0 <= n <= C[p].size - 4 && n <= C[q].size - 4
      modifies this`mem
      ensures Valid() && BlocksKept(C, old(mem), C, mem, p) && BytesCopied(old(mem), mem, p + 8, q + 8, n)
    {
      LiveFacts(q);
      hide BlocksKept, Live, BytesCopied, AtRest;
      Memcpy(p, q, n);
    }

    /** The contents of q move to the new block p, and q is freed. */
    method MoveTo(q: int, p: int, n: int) returns (ghost m2: Mem)
      requires Valid() && p != q && p in C && q in C && C[p].kind == Used && C[q].kind == Used && p % 8 == 0
      requires 0 <= n <= C[p].size - 4 && n <= C[q].size - 4
      modifies this
      ensures brk == old(brk)
      ensures Valid() && Live(C) == Live(old(C)) - {q}
      ensures BytesCopied(old(mem), mem, p + 8, q + 8, n)
      ensures BlocksKept(old(C), old(mem), old(C), m2, p) && Released(old(C), m2, q)
    {
      hide BlocksKept, Live, Undisturbed, BytesCopied, Valid, Released, AtRest;
      InLive(q);
      LiveFacts(q);
      ghost var C1, m1 := C, mem;
      CopyBlock(p, q, n);
      m2 := mem;
      DlFree(q + 8);
      SurvivesFree(C1, m2, p, q);
      Payload4(p);
      BytesStay(m1, m2, mem, p + 8, q + 8, n, C[p].size);
    }

    /** Neither large enough nor before a top with room: allocate, copy and free. */
    method Relocate(q: int, bytes: int) returns (ret: int)
      requires Valid() && q in Live(C) && q in C && 0 <= bytes < MAX_REQUEST && C[q].size < RequestSize(bytes)
      modifies this
      ensures Valid()
      ensures ret == 0 ==> Live(C) == Live(old(C)) && BlocksKept(old(C), old(mem), C, mem, 0) && old(NoRoom(bytes))
      ensures ret != 0 ==> ret % 8 == 0 && Moved(old(C), old(mem), q, ret - 8, bytes)
      ensures old(brk) <= brk <= old(brk) + Growth(bytes)
    {
      LiveFacts(q);
      hide BlocksKept, Live, Undisturbed, BytesCopied, Placed, FitRule, Refused, NoBinFits, Valid, AtRest, Released;
      hide Moved, RequestSize, NoRoom, Growth;
      ghost var C0, m0 := C, mem;
      var oc := SizeAt(q) - 4;
      ret := DlMalloc(bytes);
      if ret != 0 {
        var n := if oc < bytes then oc else bytes;
        var p := ret - 8;
        ghost var C1, m1 := C, mem;
        PlacedFacts(C0, m0, q, p, RequestSize(bytes));
        ghost var m2 := MoveTo(q, p, n);
        CopyFromOld(C0, m0, C1, m1, q, n, p);
        MovedKept(C0, m0, C1, m1, m2, q, p, RequestSize(bytes));
        SurvivesMove(C1, m2, p, q);
        MovedHere(C0, m0, q, p, bytes);
      }
    }

    lemma MovedHere(C0: Chunks, m0: Mem, q: int, p: int, bytes: int)
      requires q in C0 && 0 <= bytes < MAX_REQUEST && p != q && p !in Live(C0) && p in C && C[p].kind == Used
      requires RequestSize(bytes) <= C[p].size < RequestSize(bytes) + MIN_CHUNK
      requires BlocksKept(C0, m0, C, mem, q) && Live(C) == Live(C0) - {q} + {p}
      requires BytesCopied(m0, mem, p + 8, q + 8, Lesser(C0[q].size - 4, bytes))
      ensures Moved(C0, m0, q, p, bytes)
    {
      hide BlocksKept, Live, BytesCopied, RequestSize;
    }

    lemma SurvivesMove(C1: Chunks, m2: Mem, p: int, q: int)
      requires Released(C1, m2, q) && p in C1 && C1[p].kind == Used && p != q
      ensures p in C && C[p].kind == Used && C[p].size == C1[p].size
    {
      assert Survives(C1, m2, C, mem, p);
    }

    lemma PlacedFacts(C0: Chunks, m0: Mem, q: int, p: int, nb: int)
      requires Placed(C0, m0, C, mem, p, nb) && q in Live(C0) && q in C0 && q != 0
      ensures p != q && p !in Live(C0) && p in Live(C) && q in Live(C) && p in C && q in C
      ensures C[p].kind == Used && C[q].kind == Used
      ensures C[q].size == C0[q].size && nb <= C[p].size < nb + MIN_CHUNK && Undisturbed(m0, mem, q, C0[q].size)
    {
      assert Survives(C0, m0, C, mem, q);
    }

    /** The bytes copied are those the old block had at first. */
    lemma CopyFromOld(C0: Chunks, m0: Mem, C1: Chunks, m1: Mem, q: int, n: int, p: int)
      requires q in C0 && Undisturbed(m0, m1, q, C0[q].size) && n <= C0[q].size - 4 && q % 8 == 0
      requires BytesCopied(m1, mem, p + 8, q + 8, n)
      ensures BytesCopied(m0, mem, p + 8, q + 8, n)
    {
      BytesSelf(m0, m1, q + 8, n, C0[q].size);
      hide BytesCopied, Undisturbed;
      BytesCompose(m0, m1, mem, p + 8, q + 8, n);
    }

    lemma MovedKept(C0: Chunks, m0: Mem, C1: Chunks, m1: Mem, m2: Mem, q: int, p: int, nb: int)
      requires Placed(C0, m0, C1, m1, p, nb) && BlocksKept(C1, m1, C1, m2, p) && Released(C1, m2, q) && q in Live(C0)
        && p != q && 0 !in C0
      ensures BlocksKept(C0, m0, C, mem, q) && Live(C) == Live(C0) - {q} + {p}
    {
      forall a | a in C0 && C0[a].kind == Used && a != q
        ensures Survives(C0, m0, C, mem, a)
      {
        assert a in Live(C0);
        assert Survives(C0, m0, C1, m1, a) && Survives(C1, m1, C1, m2, a) && Survives(C1, m2, C, mem, a);
      }
    }

    /** The block has the right size already. */
    lemma KeepBlock(q: int, bytes: int)
      requires Valid() && q in Live(C) && q in C && 0 <= bytes < MAX_REQUEST
      requires RequestSize(bytes) <= C[q].size < RequestSize(bytes) + MIN_CHUNK
      ensures Moved(C, mem, q, q, bytes)
    {
      hide BinsOK, MapsOK, Ground, BlocksKept, Live, Undisturbed, DvOK, OnlyLoose, BytesCopied, RequestSize;
      hide AtRest, Sound, Inv, Valid;
      LiveFacts(q);
      AllKept(C, mem, q);
      SameBytes(mem, q, C[q].size);
      BytesSelf(mem, mem, q + 8, Lesser(C[q].size - 4, bytes), C[q].size);
      StaysLive(C, q);
    }

    /** The block before top grows into it. */
    method GrowBlock(q: int, nb: int, ghost bytes: int)
      requires Valid() && q in Live(C) && q in C && 0 <= bytes < MAX_REQUEST && nb == RequestSize(bytes)
      requires q + C[q].size == top && C[q].size < nb < C[q].size + topsize
      modifies this
      ensures brk == old(brk)
      ensures Valid() && Moved(old(C), old(mem), q, q, bytes)
    {
      hide BinsOK, MapsOK, Ground, BlocksKept, Live, Undisturbed, DvOK, OnlyLoose, BytesCopied, RequestSize;
      hide AtRest, Sound, Inv, Valid;
      LiveFacts(q);
      ghost var C0, m0 := C, mem;
      ExtendTop(q, nb);
      BytesSelf(m0, mem, q + 8, Lesser(C0[q].size - 4, bytes), C0[q].size);
      StaysLive(C0, q);
    }

    /** Block q has not the size, and is not followed by a top that makes up for it. */
    ghost predicate TooSmall(q: int, bytes: int)
      requires 0 <= bytes < MAX_REQUEST
      reads this`C, this`top, this`topsize
    {
      var nb := RequestSize(bytes);
      q in C && C[q].size < nb && !(q + C[q].size == top && C[q].size + topsize > nb)
    }

    lemma SmallOrNot(q: int, bytes: int)
      requires q in C && 0 <= bytes
      ensures bytes < MAX_REQUEST ==>
        && 0 <= Growth(bytes)
        && var nb := RequestSize(bytes);
           TooSmall(q, bytes) <==> C[q].size < nb && !(q + C[q].size == top && C[q].size + topsize > nb)
    {
      if bytes < MAX_REQUEST { DemandPositive(RequestSize(bytes)); }
    }

    /** The block keeps its place: it is split, has the size already, or grows into top. */
    method ReallocInPlace(q: int, bytes: int)
      requires Valid() && 0 <= bytes < MAX_REQUEST && q in Live(C) && q in C && !TooSmall(q, bytes)
      modifies this
      ensures Valid() && Moved(old(C), old(mem), q, q, bytes) && brk == old(brk)
    {
      LiveFacts(q);
      SmallOrNot(q, bytes);
      hide BinsOK, MapsOK, Ground, BlocksKept, Live, Undisturbed, DvOK, OnlyLoose, BytesCopied, RequestSize, Valid,
        AtRest, Sound, Inv, Moved, TooSmall;
      var oldsize := SizeAt(q);
      var nb := RequestSize(bytes);
      if oldsize >= nb {
        var rsize := oldsize - nb;
        if rsize >= MIN_CHUNK {
          Shrink(q, nb, rsize, bytes);
        } else {
          KeepBlock(q, bytes);
        }
      } else {
        GrowBlock(q, nb, bytes);
      }
    }

    lemma ReallocFacts(q: int, oldmem: int, bytes: int)
      requires Valid() && q in Live(C) && oldmem == q + 8 && 0 <= bytes
      ensures q in C && SizeAt(q) == C[q].size && oldmem != 0 && oldmem % 8 == 0
      ensures bytes < MAX_REQUEST ==>
        && 0 <= Growth(bytes)
        && var nb := RequestSize(bytes);
           TooSmall(q, bytes) <==> C[q].size < nb && !(q + C[q].size == top && C[q].size + topsize > nb)
    {
      LiveFacts(q);
      SmallOrNot(q, bytes);
      hide Valid, Live, Growth, TooSmall, RequestSize;
      EightOn(q, oldmem);
    }

    static lemma EightOn(q: int, p: int)
      requires q % 8 == 0 && p == q + 8
      ensures p % 8 == 0
    {
      Arith.DivModUnique(p, q / 8 + 1, 8, 0);
    }

    /** internal_realloc */
    method DlRealloc(oldmem: int, bytes: int) returns (ret: int)
      requires Valid() && 0 <= bytes < WORD && oldmem - 8 in Live(C)
      modifies this
      ensures Valid()
      ensures ret == 0 ==> Live(C) == Live(old(C)) && BlocksKept(old(C), old(mem), C, mem, 0)
      ensures ret != 0 ==> oldmem - 8 in old(C) && ret % 8 == 0 && Moved(old(C), old(mem), oldmem - 8, ret - 8, bytes)
      ensures ret == 0 ==> bytes >= MAX_REQUEST || (old(TooSmall(oldmem - 8, bytes)) && old(NoRoom(bytes)))
      ensures bytes < MAX_REQUEST ==> old(brk) <= brk <= old(brk) + Growth(bytes)
    {
      var q := oldmem - 8;
      ReallocFacts(q, oldmem, bytes);
      hide BinsOK, MapsOK, Ground, BlocksKept, Live, Undisturbed, DvOK, OnlyLoose, BytesCopied, RequestSize, Valid,
        AtRest, Sound, Inv, Moved, NoRoom, Demand, Growth, TooSmall;
      if bytes >= MAX_REQUEST {
        BlocksKeptSame(C, mem);
        ret := 0;
        return;
      }
      var oldsize := SizeAt(q);
      var next := q + oldsize;
      var nb := RequestSize(bytes);
      if oldsize >= nb || (next == top && oldsize + topsize > nb) {
        ReallocInPlace(q, bytes);
        ret := oldmem;
      } else {
        ret := Relocate(q, bytes);
      }
    }

    lemma SameBytes(m: Mem, a: int, size: int)
      ensures Undisturbed(m, m, a, size)
    {
    }

    lemma StaysLive(C0: Chunks, q: int)
      requires q in Live(C0) && Live(C) == Live(C0)
      ensures Live(C) == Live(C0) - {q} + {q}
    {
      hide Live;
    }

    /** The alignment that memalign works with: at least 16, and a power of two. */
    static method RoundAlignment(alignment0: nat) returns (alignment: nat, ghost k: nat)
      requires 8 < alignment0 <= 0x8000_0000
      ensures alignment0 <= alignment == Pow2(k) == Rounded(alignment0) && 4 <= k <= 31
      ensures IsPower(alignment0) && alignment0 >= MIN_CHUNK ==> alignment == alignment0
    {
      Pow2Values();
      alignment := if alignment0 < MIN_CHUNK then MIN_CHUNK else alignment0;
      PowerTest(alignment);
      if BitAnd(alignment, alignment - 1) != 0 {
        var a := 16;
        k := 4;
        while a < alignment
          invariant a == Turned(k - 4) == Pow2(k) && 4 <= k <= 31 && (k == 4 || Pow2(k - 1) < alignment)
          decreases 31 - k
        {
          PowerBound(k, alignment);
          a := Aligning.Doubled(a);
          k := k + 1;
          TurnedValue(k - 4);
        }
        alignment := a;
      } else {
        k := PowerIndex(alignment);
        if k > 4 { Pow2Double(k - 1); }
      }
      RoundedPower(alignment0, k);
    }

    /** A power of two below 2^31 leaves room to double. */
    static lemma PowerBound(k: nat, alignment: nat)
      requires Pow2(k) < alignment <= 0x8000_0000
      ensures k < 31
    {
      Pow2Values();
      Pow2Grows(31, k);
    }

    static lemma PowerIndex(a: nat) returns (k: nat)
      requires IsPower(a) && MIN_CHUNK <= a <= 0x8000_0000
      ensures a == Pow2(k) && 4 <= k <= 31
    {
      Pow2Values();
      k :| a == Pow2(k);
      assert Pow2(3) == 8;
      Pow2Grows(k, 3);
      Pow2Grows(32, k);
    }

    /** The blocks of C0 are all there, and the new ones are those of `own`. */
    ghost predicate Extra(C0: Chunks, m0: Mem, own: set<int>)
      reads this`C, this`mem
    {
      Live(C) == Live(C0) + own && Live(C0) !! own && BlocksKept(C0, m0, C, mem, 0)
    }

    /** A new block is split: the rest is another new block. */
    method SplitOwn(v: int, nb: int, rsize: int, restFirst: bool, ghost C0: Chunks, ghost m0: Mem, ghost own: set<int>)
      requires Valid() && top != 0 && Extra(C0, m0, own) && v in own
      requires v in C && C[v].kind == Used && MIN_CHUNK <= nb && nb % 8 == 0 && rsize == C[v].size - nb >= MIN_CHUNK
      modifies this`mem, this`C
      ensures Valid() && v in C && C[v].kind == Used && C[v].size == nb && v + nb in C && C[v + nb].kind == Used
        && C[v + nb].size == rsize
      ensures Extra(C0, m0, own + {v + nb}) && v + nb !in own
    {
      hide BlocksKept, Live, Undisturbed, Valid;
      ghost var C1, m1 := C, mem;
      SplitLive(v, nb, rsize, restFirst);
      NotInLive(C0, v);
      BlocksKeptTwice(C0, m0, C1, m1, C, mem, 0, v);
    }

    /** A new block is given back. */
    method FreeOwn(v: int, ghost C0: Chunks, ghost m0: Mem, ghost own: set<int>, ghost p: int)
      requires Valid() && Extra(C0, m0, own) && v in own && p in own && p != v && p in C && C[p].kind == Used
      modifies this
      ensures brk == old(brk)
      ensures Valid() && Extra(C0, m0, own - {v}) && p in C && C[p].kind == Used && C[p].size == old(C)[p].size
    {
      OwnLive(v, C0, m0, own);
      LiveFacts(v);
      hide BinsOK, MapsOK, Ground, BlocksKept, Live, Undisturbed, DvOK, OnlyLoose;
      ghost var C1, m1 := C, mem;
      DlFree(v + 8);
      SurvivesFree(C1, m1, p, v);
      NotInLive(C0, v);
      BlocksKeptTwice(C0, m0, C1, m1, C, mem, 0, v);
    }

    lemma OwnLive(v: int, C0: Chunks, m0: Mem, own: set<int>)
      requires Extra(C0, m0, own) && v in own
      ensures v in Live(C)
    {
    }

    /** x is a multiple of a. */
    static predicate MultipleOf(x: int, a: nat) { a > 0 && x % a == 0 }

    /** A leftover, if there is one, is freed. */
    method GiveBack(m: int, ghost C0: Chunks, ghost m0: Mem, ghost own0: set<int>,
        ghost p: int) returns (ghost own: set<int>)
      requires Valid() && Extra(C0, m0, own0) && p in own0 && p in C && C[p].kind == Used
      requires m != 0 ==> m - 8 in own0 && m - 8 != p
      modifies this
      ensures brk == old(brk)
      ensures Valid() && Extra(C0, m0, own) && p in C && C[p].kind == Used && C[p].size == old(C)[p].size
      ensures own == if m == 0 then own0 else own0 - {m - 8}
    {
      hide BinsOK, MapsOK, Ground, BlocksKept, Live, DvOK, OnlyLoose, Extra, Valid;
      own := own0;
      if m != 0 {
        FreeOwn(m - 8, C0, m0, own, p);
        own := own0 - {m - 8};
      }
    }

    /** Where the aligned block starts inside chunk p, leaving a leader of at least 16 bytes. */
    static method AlignedSpot(p: int, alignment: nat, ghost k: nat, size: int, ghost nb: int) returns (newp: int)
      requires 0 < p && p % 8 == 0 && alignment == Pow2(k) && 4 <= k <= 31 && size >= nb + alignment + 16
        && p + size < WORD
      requires nb >= MIN_CHUNK && size % 8 == 0 && !MultipleOf(p + 8, alignment)
      ensures MultipleOf(newp + 8, alignment) && newp % 8 == 0 && MIN_CHUNK <= newp - p && nb <= size - (newp - p)
    {
      hide Pow2, BitAnd, W32;
      RoundsUp(p + 8, k);
      var a: int := alignment;
      var r: int := BitAnd(p + 8 + alignment - 1, W32(-a));
      var br := r - 8;
      newp := if br - p >= MIN_CHUNK then br else br + alignment;
      NextMultiple(r, alignment);
      NotSame(p + 8, r, alignment);
      MultiplesOf8(p, r, alignment);
    }

    static lemma NextMultiple(r: int, a: int)
      requires a > 0 && r % a == 0
      ensures (r + a) % a == 0
    {
      Arith.ModAddMultiple(r, 1, a);
    }

    static lemma NotSame(x: int, r: int, a: int)
      requires a > 0 && r % a == 0 && x % a != 0 && x <= r
      ensures x < r
    {
    }

    /** Distances between multiples of 8 are multiples of 8. */
    static lemma MultiplesOf8(p: int, r: int, a: int)
      requires p % 8 == 0 && r % 8 == 0 && a % 8 == 0 && p + 8 < r < p + 8 + a
      ensures p + 16 <= r <= p + a && (r < p + 24 ==> r == p + 16) && (r - 8) % 8 == 0 && (r - 8 + a) % 8 == 0
    {
    }

    /** The block is cut so that it starts at an aligned address; the part before it is the leader, or there is none. */
    method CutLeader(p0: int, alignment: nat, ghost k: nat, ghost nb: int, ghost C0: Chunks, ghost m0: Mem)
      returns (p: int, leader: int, ghost own: set<int>)
      requires Valid() && top != 0 && Extra(C0, m0, {p0}) && p0 in C && C[p0].kind == Used && p0 > 0 && p0 % 8 == 0
        && SizeAt(p0) == C[p0].size
      requires p0 + C[p0].size < WORD && C[p0].size % 8 == 0
      requires alignment == Pow2(k) && 4 <= k <= 31 && MIN_CHUNK <= nb && nb % 8 == 0
        && C[p0].size >= nb + alignment + 16
      modifies this`mem, this`C
      ensures Valid() && Extra(C0, m0, own) && p in own && p in C && C[p].kind == Used && nb <= C[p].size
        && MultipleOf(p + 8, alignment)
      ensures own == if leader == 0 then {p} else {p, leader - 8}
      ensures leader != 0 ==> leader - 8 != p
    {
      hide BinsOK, MapsOK, Ground, BlocksKept, Live, DvOK, OnlyLoose, Pow2, Extra, MultipleOf;
      p, leader, own := p0, 0, {p0};
      if !MultipleOf(p0 + 8, alignment) {
        var size := SizeAt(p0);
        p := AlignedSpot(p0, alignment, k, size, nb);
        var leadsize := p - p0;
        SplitOwn(p0, leadsize, size - leadsize, true, C0, m0, own);
        own := own + {p};
        leader := p0 + 8;
      }
    }

    /** What exceeds nb bytes by more than 16 is the trailer, or there is none. */
    method CutTrailer(p: int, nb: int, ghost C0: Chunks, ghost m0: Mem, ghost own0: set<int>) returns (trailer: int,
        ghost own: set<int>)
      requires Valid() && Extra(C0, m0, own0) && p in own0 && p in C && C[p].kind == Used
        && MIN_CHUNK <= nb <= C[p].size && nb % 8 == 0
      modifies this`mem, this`C
      ensures Valid() && Extra(C0, m0, own) && p in C && C[p].kind == Used && nb <= C[p].size <= nb + MIN_CHUNK
      ensures if trailer == 0 then own == own0 else own == own0 + {trailer - 8} && trailer - 8 !in own0
    {
      hide BinsOK, MapsOK, Ground, BlocksKept, Live, DvOK, OnlyLoose, Extra;
      OwnFacts(p, C0, m0, own0);
      trailer, own := 0, own0;
      var size := SizeAt(p);
      if size > nb + MIN_CHUNK {
        SplitOwn(p, nb, size - nb, false, C0, m0, own);
        own := own + {p + nb};
        trailer := p + nb + 8;
      }
    }

    /** The aligned block p is cut to nb bytes; the trailer and the leader are freed. */
    method Trim(p: int, leader: int, nb: int, ghost C0: Chunks, ghost m0: Mem, ghost own0: set<int>)
      requires Valid() && Extra(C0, m0, own0) && p in C && C[p].kind == Used && MIN_CHUNK <= nb <= C[p].size
        && nb % 8 == 0
      requires own0 == (if leader == 0 then {p} else {p, leader - 8}) && (leader != 0 ==> leader - 8 != p)
      modifies this
      ensures brk == old(brk)
      ensures Valid() && Extra(C0, m0, {p}) && p in C && C[p].kind == Used && nb <= C[p].size <= nb + MIN_CHUNK
    {
      hide BinsOK, MapsOK, Ground, BlocksKept, Live, DvOK, OnlyLoose, Extra, Valid, AtRest, Sound, Inv;
      ghost var own;
      var trailer;
      trailer, own := CutTrailer(p, nb, C0, m0, own0);
      own := GiveBack(leader, C0, m0, own, p);
      own := GiveBack(trailer, C0, m0, own, p);
      assert own == {p};
    }

    /** The rest of memalign: block p0 is cut to an aligned block of nb bytes, and what is left over is freed. */
    method Align(p0: int, alignment: nat, ghost k: nat, nb: int, ghost C0: Chunks, ghost m0: Mem) returns (ret: int)
      requires Valid() && Extra(C0, m0, {p0}) && p0 in C && C[p0].kind == Used
      requires alignment == Pow2(k) && 4 <= k <= 31 && MIN_CHUNK <= nb && nb % 8 == 0
        && C[p0].size >= nb + alignment + 16
      modifies this
      ensures brk == old(brk)
      ensures Valid() && Extra(C0, m0, {ret - 8}) && ret - 8 in C && nb <= C[ret - 8].size <= nb + MIN_CHUNK
      ensures MultipleOf(ret, alignment) && ret % 8 == 0 && ret != 0
    {
      OwnFacts(p0, C0, m0, {p0});
      BelowWord(p0);
      hide BinsOK, MapsOK, Ground, BlocksKept, Live, DvOK, OnlyLoose, Pow2, Extra, Valid, MultipleOf, AtRest, Sound,
        Inv;
      ghost var own;
      var p, leader;
      p, leader, own := CutLeader(p0, alignment, k, nb, C0, m0);
      OwnFacts(p, C0, m0, own);
      Trim(p, leader, nb, C0, m0, own);
      ret := p + 8;
    }

    lemma BelowWord(p: int)
      requires Valid() && top != 0 && p in C
      ensures p + C[p].size < WORD && C[p].size % 8 == 0
    {
      TopFacts(p);
      TopFacts(top);
    }

    lemma OwnFacts(p: int, C0: Chunks, m0: Mem, own: set<int>)
      requires Valid() && Extra(C0, m0, own) && p in own
      ensures p in C && C[p].kind == Used && SizeAt(p) == C[p].size && p % 8 == 0 && p > 0 && C[p].size % 8 == 0
        && top != 0
    {
      OwnLive(p, C0, m0, own);
      LiveFacts(p);
      BelowWord(p);
    }

    lemma PlacedExtra(C0: Chunks, m0: Mem, p: int, nb: int)
      requires Placed(C0, m0, C, mem, p, nb)
      ensures Extra(C0, m0, {p}) && p in C && C[p].kind == Used && nb <= C[p].size < nb + MIN_CHUNK
    {
    }

    static lemma SmallAlignment(ret: int, a: nat)
      requires ret % 8 == 0 && a <= 8
      ensures exists k: nat :: a <= Pow2(k) && ret % Pow2(k) == 0
      ensures a > 0 && IsPower(a) ==> ret % a == 0
    {
      SmallPowers();
      assert a <= Pow2(3) && ret % Pow2(3) == 0;
      if a > 0 && IsPower(a) {
        var k: nat :| a == Pow2(k);
        Pow2Grows(4, k);
        SmallDivisor(ret, k);
      }
    }

    static lemma SmallDivisor(ret: int, k: nat)
      requires ret % 8 == 0 && k <= 3
      ensures ret % Pow2(k) == 0
    {
      var m := Pow2(k);
      assert m == 1 || m == 2 || m == 4 || m == 8 by {
        SmallPowers();
      }
      hide Pow2;
      PowersDivideEight(ret, m);
    }

    static lemma PowersDivideEight(ret: int, m: int)
      requires ret % 8 == 0 && (m == 1 || m == 2 || m == 4 || m == 8)
      ensures ret % m == 0
    {
      if m == 1 {
      } else if m == 2 {
      } else if m == 4 {
      } else {
      }
    }

    static lemma AlignmentBounds(a: nat, k: nat, a0: nat)
      requires a == Pow2(k) && 4 <= k <= 31 && a0 <= a && (IsPower(a0) && a0 >= MIN_CHUNK ==> a == a0) && a0 > 8
      ensures MIN_CHUNK <= a <= 0x8000_0000
      ensures IsPower(a0) ==> a == a0
    {
      Pow2Values();
      Pow2Less(k, 31);
      Pow2Less(4, k);
      if IsPower(a0) && a0 < MIN_CHUNK {
        SmallPowers();
        var j: nat :| a0 == Pow2(j);
        if j > 3 { Pow2Less(4, j); }
      }
    }

    /** Below this, memalign passes the request on. */
    static function AlignedLimit(alignment: nat): int {
      if alignment <= 8 then WORD else MAX_REQUEST - Rounded(alignment)
    }

    /** What memalign asks malloc for. */
    static function AlignedRequest(alignment: nat, bytes: int): int
      requires 0 <= bytes && (alignment <= 8 || bytes < MAX_REQUEST)
    {
      if alignment <= 8 then bytes else RequestSize(bytes) + Rounded(alignment) + MIN_CHUNK - 4
    }

    /** The enlarged request is too large, or malloc has no room for it. */
    ghost predicate NoAlignedRoom(alignment: nat, bytes: int)
      requires alignment <= 0x8000_0000 && 0 <= bytes < WORD
      reads this`C, this`dvsize, this`topsize, this`brk
    {
      bytes >= AlignedLimit(alignment)
      || (AlignedFits(alignment, bytes); NoRoom(AlignedRequest(alignment, bytes)))
    }

    static lemma AlignedFits(alignment: nat, bytes: int)
      requires alignment <= 0x8000_0000 && 0 <= bytes < AlignedLimit(alignment)
      ensures alignment <= 8 || bytes < MAX_REQUEST
      ensures 0 <= AlignedRequest(alignment, bytes) < WORD
    {
    }

    /** internal_memalign */
    method DlMemalign(alignment0: nat, bytes: int) returns (ret: int)
      requires Valid() && alignment0 <= 0x8000_0000 && 0 <= bytes < WORD
      modifies this
      ensures Valid()
      ensures ret == 0 ==> Live(C) == Live(old(C)) && BlocksKept(old(C), old(mem), C, mem, 0)
      ensures ret != 0 ==>
        && bytes < MAX_REQUEST && Extra(old(C), old(mem), {ret - 8}) && ret - 8 in C
        && RequestSize(bytes) <= C[ret - 8].size <= RequestSize(bytes) + MIN_CHUNK
        && ret % 8 == 0 && exists k: nat :: alignment0 <= Pow2(k) && ret % Pow2(k) == 0
      ensures ret != 0 && alignment0 > 0 && IsPower(alignment0) ==> ret % alignment0 == 0
      ensures ret == 0 ==> old(NoAlignedRoom(alignment0, bytes))
      ensures bytes < AlignedLimit(alignment0) && AlignedRequest(alignment0, bytes) < MAX_REQUEST ==>
        old(brk) <= brk <= old(brk) + Growth(AlignedRequest(alignment0, bytes))
      ensures bytes >= AlignedLimit(alignment0) ==> brk == old(brk)
    {
      hide BinsOK, MapsOK, Ground, BlocksKept, Live, DvOK, OnlyLoose, Placed, FitRule, Refused, NoBinFits, BitAnd, Pow2,
        IsPower, RequestSize;
      ghost var C0, m0 := C, mem;
      if alignment0 <= 8 {
        ret := DlMalloc(bytes);
        if ret != 0 {
          PlacedExtra(C0, m0, ret - 8, RequestSize(bytes));
          SmallAlignment(ret, alignment0);
        }
        return;
      }
      var alignment: nat;
      ghost var k: nat;
      alignment, k := RoundAlignment(alignment0);
      AlignmentBounds(alignment, k, alignment0);
      if bytes >= MAX_REQUEST - alignment {
        BlocksKeptSame(C, mem);
        ret := 0;
        return;
      }
      var nb := RequestSize(bytes);
      var req := nb + alignment + MIN_CHUNK - 4;
      ret := DlMalloc(req);
      if ret != 0 {
        PlacedExtra(C0, m0, ret - 8, RequestSize(req));
        ret := Align(ret - 8, alignment, k, nb, C0, m0);
        assert alignment0 <= Pow2(k) && ret % Pow2(k) == 0;
      }
    }
  }
}
