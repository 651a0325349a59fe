/** Which free chunk is in which bin: wiinandfuse/geckonand/malloc.c. */
module Lists {
  import opened Sizes
  import opened Tries
  import opened Rings
  import opened Chunks
  import opened Bins

  /** The links; the rings, by their first element; each node's ring; the tree nodes. */
  datatype Binning = Binning(L: Links, rings: map<int, seq<int>>, home: map<int, int>, R: Trie)

  /** Equal-sized chunks behind a tree node take no part in the tree. */
  ghost predicate Chained(L: Links, y: int) {
    y in L && L[y].par == 0 && L[y].ch0 == 0 && L[y].ch1 == 0
  }

  ghost predicate RingOK(B: Binning, st: int, h: int)
    requires h in B.rings
  {
    var s := B.rings[h];
    && |s| >= 1 && s[0] == h && NoDup(s)
    && (forall y {:trigger y in s} :: y in s ==> y in B.L && y in B.home && B.home[y] == h)
    && (|s| > 1 || h in B.R.nodes ==> Linked(B.L, s))
    && (h in B.R.nodes <==> !IsHeader(st, h))
    && (h in B.R.nodes ==> forall y {:trigger Chained(B.L, y)} :: y in s && y != h ==> Chained(B.L, y))
  }

  ghost predicate HomeOK(B: Binning, y: int) {
    y in B.home && B.home[y] in B.rings && y in B.rings[B.home[y]]
  }

  /** A binned chunk is in the one bin for its size. */
  ghost predicate MemberOK(B: Binning, C: Chunks, st: int, y: int)
    requires y in B.L
  {
    && y in C && C[y].kind == Binned && y in B.home && MIN_CHUNK <= C[y].size < WORD
    && if C[y].size < MIN_LARGE then B.home[y] == Header(st, C[y].size / 8)
       else B.home[y] in B.R.nodes && B.R.nodes[B.home[y]].size == C[y].size && B.L[y].idx == TreeIndex(C[y].size)
  }

  ghost predicate HeaderOK(B: Binning, st: int, i: int) {
    Header(st, i) in B.rings && Header(st, i) in B.L
  }

  ghost predicate RingsOK(B: Binning, st: int) {
    && (forall h {:trigger RingOK(B, st, h)} :: h in B.rings ==> RingOK(B, st, h))
    && (forall y {:trigger HomeOK(B, y)} :: y in B.L ==> HomeOK(B, y))
    && (forall i {:trigger HeaderOK(B, st, i)} :: 0 <= i < 32 ==> HeaderOK(B, st, i))
    && (forall t {:trigger t in B.R.nodes} :: t in B.R.nodes ==> t in B.rings)
  }

  ghost predicate MembersOK(B: Binning, C: Chunks, st: int) {
    && (forall y {:trigger MemberOK(B, C, st, y)} :: y in B.L && !IsHeader(st, y) ==> MemberOK(B, C, st, y))
    && (forall a {:trigger C[a]} :: a in C && C[a].kind == Binned ==> a in B.L)
    && (forall i {:trigger Header(st, i)} :: 0 <= i < 32 ==> Header(st, i) !in C)
  }

  ghost predicate BinsOK(B: Binning, C: Chunks, st: int, tb: seq<int>) {
    RingsOK(B, st) && MembersOK(B, C, st) && TrieOK(B.L, tb, B.R) && B.R.bins == TreeBins(st)
  }

  lemma HeaderIndex(st: int, y: int) returns (i: int)
    requires IsHeader(st, y)
    ensures 0 <= i < 32 && y == Header(st, i)
  {
    i := (y - st) / 8;
  }

  /** If x has a ring, it is the first element of it. */
  ghost predicate Heads(B: Binning, x: int) {
    x in B.rings ==> x in B.rings[x] && x in B.L && x in B.home && B.home[x] == x
  }

  lemma RingHead(B: Binning, st: int, x: int)
    requires RingsOK(B, st)
    ensures Heads(B, x)
  {
    if x in B.rings {
      assert RingOK(B, st, x);
    }
  }

  lemma HeaderRing(B: Binning, st: int, x: int)
    requires RingsOK(B, st) && IsHeader(st, x)
    ensures x in B.rings && Heads(B, x)
  {
    var j := HeaderIndex(st, x);
    assert HeaderOK(B, st, j);
    RingHead(B, st, x);
  }

  /** Bin headers are only at the head of a ring. */
  lemma NoHeaderBehind(B: Binning, st: int, h: int, x: int)
    requires RingsOK(B, st) && h in B.rings && x in B.rings[h] && x != h
    ensures !IsHeader(st, x)
  {
    assert RingOK(B, st, h);
    if IsHeader(st, x) {
      HeaderRing(B, st, x);
    }
  }

  /** A ring none of whose links has changed. */
  ghost predicate Untouched(B: Binning, B': Binning, y: int) {
    && y in B.L && y in B'.L && y in B.home && y in B'.home && B'.home[y] == B.home[y]
    && B'.L[y].fd == B.L[y].fd && B'.L[y].bk == B.L[y].bk
    && (Chained(B.L, y) ==> Chained(B'.L, y))
  }

  lemma RingStays(B: Binning, B': Binning, st: int, h: int)
    requires h in B.rings && RingOK(B, st, h) && h in B'.rings && B'.rings[h] == B.rings[h]
    requires forall y {:trigger Untouched(B, B', y)} :: y in B.rings[h] && (y != h || h !in B.R.nodes) ==>
      Untouched(B, B', y)
    requires h in B.R.nodes ==>
      h in B.L && h in B'.L && h in B'.home && B'.home[h] == h && B'.L[h].fd == B.L[h].fd && B'.L[h].bk == B.L[h].bk
    requires h in B'.R.nodes <==> h in B.R.nodes
    ensures RingOK(B', st, h)
  {
    var s := B.rings[h];
    forall y | y in s
      ensures y in B'.L && y in B'.home && B'.home[y] == h && B'.L[y].fd == B.L[y].fd && B'.L[y].bk == B.L[y].bk
      ensures y != h && Chained(B.L, y) ==> Chained(B'.L, y)
    {
      if y != h || h !in B.R.nodes {
        assert Untouched(B, B', y);
      }
    }
    if |s| > 1 || h in B.R.nodes {
      KeepRing(B.L, s, B'.L);
    }
    if h in B.R.nodes {
      forall y | y in s && y != h
        ensures Chained(B'.L, y)
      {
        assert Chained(B.L, y);
      }
    }
  }

  // ---------- linking a chunk into a ring ----------

  /** The writes that link x in behind h, in program order. */
  function LinkIn(L: Links, h: int, f: int, x: int): Links
    requires h in L && f in L && x in L
  {
    var L1 := Updated(L, h, 8, x);
    var L2 := Updated(L1, f, 12, x);
    var L3 := Updated(L2, x, 8, f);
    Updated(L3, x, 12, h)
  }

  lemma LinkInAt(L: Links, h: int, f: int, x: int, y: int)
    requires h in L && f in L && x in L && x != h && x != f && y in L
    ensures y in LinkIn(L, h, f, x)
    ensures var l := LinkIn(L, h, f, x)[y];
      && l.fd == (if y == x then f else if y == h then x else L[y].fd)
      && l.bk == (if y == x then h else if y == f then x else L[y].bk)
      && l.ch0 == L[y].ch0 && l.ch1 == L[y].ch1 && l.par == L[y].par && l.idx == L[y].idx
  {
  }

  /** The bins with x added behind the first element of ring h; L is the link map in which x has been linked. */
  function Joined(B: Binning, h: int, x: int, L: Links): Binning
    requires h in B.rings && |B.rings[h]| >= 1
  {
    Binning(L, B.rings[h := Grown(B.rings[h], x)], B.home[x := h], B.R)
  }

  ghost predicate JoinsAt(B: Binning, h: int, f: int, x: int, L: Links, y: int)
    requires y in B.L
  {
    && y in L && L[y].fd == (if y == h then x else B.L[y].fd) && L[y].bk == (if y == f then x else B.L[y].bk)
    && L[y].ch0 == B.L[y].ch0 && L[y].ch1 == B.L[y].ch1 && L[y].par == B.L[y].par && L[y].idx == B.L[y].idx
  }

  /** x has been linked in behind h, whose forward neighbour was f; nothing else has changed. */
  ghost predicate Joins(B: Binning, h: int, f: int, x: int, L: Links) {
    && h in B.L && f in B.L && x in L && x !in B.L && L[x].fd == f && L[x].bk == h
    && (forall y {:trigger JoinsAt(B, h, f, x, L, y)} :: y in B.L ==> JoinsAt(B, h, f, x, L, y))
    && (forall y :: y in L ==> y in B.L || y == x)
  }

  lemma JoinedRing(B: Binning, st: int, h: int, f: int, x: int, L: Links)
    requires RingsOK(B, st) && h in B.rings && |B.rings[h]| >= 1 && Joins(B, h, f, x, L)
    requires f == if |B.rings[h]| == 1 then h else B.L[h].fd
    requires h in B.R.nodes ==> Chained(L, x)
    ensures RingOK(Joined(B, h, x, L), st, h)
  {
    var s := B.rings[h];
    assert RingOK(B, st, h);
    assert h in s;
    var B' := Joined(B, h, x, L);
    var s' := B'.rings[h];
    forall y
      ensures y in s' <==> y in s || y == x
    {
      GrownMembers(s, x, y);
    }
    forall y | y in s
      ensures y in B.L && JoinsAt(B, h, f, x, L, y)
    {
    }
    NoDupGrown(s, x);
    if |s| == 1 {
      assert s == [h] && s' == [h, x];
      PairRing(L, h, x);
    } else {
      GrowRing(B.L, s, x, L);
    }
    if h in B.R.nodes {
      forall y | y in s' && y != h
        ensures Chained(L, y)
      {
        if y != x { assert Chained(B.L, y); }
      }
    }
  }

  lemma NoDupGrown(s: seq<int>, x: int)
    requires |s| >= 1 && NoDup(s) && x !in s
    ensures NoDup(Grown(s, x))
  {
    var r := Grown(s, x);
    forall j, k | 0 <= j < k < |r|
      ensures r[j] != r[k]
    {
      if k >= 2 { assert r[k] == s[k - 1]; }
      if j >= 2 { assert r[j] == s[j - 1]; }
    }
  }

  lemma JoinedRings(B: Binning, st: int, h: int, f: int, x: int, L: Links)
    requires RingsOK(B, st) && h in B.rings && |B.rings[h]| >= 1 && Joins(B, h, f, x, L)
    requires f == if |B.rings[h]| == 1 then h else B.L[h].fd
    requires h in B.R.nodes ==> Chained(L, x)
    ensures RingsOK(Joined(B, h, x, L), st)
  {
    var B' := Joined(B, h, x, L);
    JoinedRing(B, st, h, f, x, L);
    assert RingOK(B, st, h) && h in B.rings[h];
    if |B.rings[h]| > 1 {
      Neighbours(B.L, B.rings[h], 0);
      assert f in B.rings[h];
    }
    forall g | g in B'.rings
      ensures RingOK(B', st, g)
    {
      if g != h {
        assert RingOK(B, st, g);
        assert g in B.rings[g];
        forall y | y in B.rings[g]
          ensures Untouched(B, B', y)
        {
          assert JoinsAt(B, h, f, x, L, y);
        }
        RingStays(B, B', st, g);
      }
    }
    forall y | y in L
      ensures HomeOK(B', y)
    {
      GrownMembers(B.rings[h], x, y);
      if y != x {
        assert HomeOK(B, y);
      }
    }
    forall i | 0 <= i < 32
      ensures HeaderOK(B', st, i)
    {
      assert HeaderOK(B, st, i);
      assert JoinsAt(B, h, f, x, L, Header(st, i));
    }
  }

  /** Membership once x has been linked in. */
  lemma JoinedMembers(B: Binning, C: Chunks, st: int, h: int, f: int, x: int, L: Links)
    requires MembersOK(B, C, st) && h in B.rings && |B.rings[h]| >= 1 && Joins(B, h, f, x, L)
    requires x in C && C[x].kind == Loose && MIN_CHUNK <= C[x].size < WORD
    requires if C[x].size < MIN_LARGE then h == Header(st, C[x].size / 8)
             else h in B.R.nodes && B.R.nodes[h].size == C[x].size && L[x].idx == TreeIndex(C[x].size)
    ensures MembersOK(Joined(B, h, x, L), Recolor(C, x, Binned), st)
  {
    var B', C' := Joined(B, h, x, L), Recolor(C, x, Binned);
    forall y | y in B'.L && !IsHeader(st, y)
      ensures MemberOK(B', C', st, y)
    {
      if y != x {
        assert MemberOK(B, C, st, y);
        assert JoinsAt(B, h, f, x, L, y);
      }
    }
    forall a | a in C' && C'[a].kind == Binned
      ensures a in B'.L
    {
      if a != x {
        assert C[a].kind == Binned;
        assert JoinsAt(B, h, f, x, L, a);
      }
    }
  }

  /** The trie does not see fd and bk. */
  lemma TrieKept(L: Links, tb: seq<int>, R: Trie, L': Links)
    requires TrieOK(L, tb, R)
    requires forall t :: t in R.nodes && t in L ==>
      t in L' && L'[t].ch0 == L[t].ch0 && L'[t].ch1 == L[t].ch1 && L'[t].par == L[t].par
    ensures TrieOK(L', tb, R)
  {
    hide Prefix, TreeIndex;
    forall t | t in R.nodes
      ensures NodeOK(L', tb, R, t)
    {
      assert NodeOK(L, tb, R, t);
    }
    forall i | 0 <= i < 32
      ensures RootOK(tb, R, i)
    {
      assert RootOK(tb, R, i);
    }
  }

  /** A chunk linked into a nonempty ring, or an empty small bin: every bin is as it must be. */
  lemma JoinedBins(B: Binning, C: Chunks, st: int, tb: seq<int>, h: int, f: int, x: int, L: Links)
    requires BinsOK(B, C, st, tb) && h in B.rings && |B.rings[h]| >= 1 && Joins(B, h, f, x, L)
    requires f == if |B.rings[h]| == 1 then h else B.L[h].fd
    requires h in B.R.nodes ==> Chained(L, x)
    requires x in C && C[x].kind == Loose && MIN_CHUNK <= C[x].size < WORD
    requires if C[x].size < MIN_LARGE then h == Header(st, C[x].size / 8)
             else h in B.R.nodes && B.R.nodes[h].size == C[x].size && L[x].idx == TreeIndex(C[x].size)
    ensures BinsOK(Joined(B, h, x, L), Recolor(C, x, Binned), st, tb)
  {
    JoinedRings(B, st, h, f, x, L);
    JoinedMembers(B, C, st, h, f, x, L);
    forall t | t in B.R.nodes && t in B.L
      ensures t in L && L[t].ch0 == B.L[t].ch0 && L[t].ch1 == B.L[t].ch1 && L[t].par == B.L[t].par
    {
      assert JoinsAt(B, h, f, x, L, t);
    }
    hide RingsOK, MembersOK;
    TrieKept(B.L, tb, B.R, L);
  }

  // ---------- a new tree node ----------

  ghost predicate PlantsAt(B: Binning, L: Links, y: int)
    requires y in B.L
  {
    && y in L && L[y].fd == B.L[y].fd && L[y].bk == B.L[y].bk && L[y].idx == B.L[y].idx
    && (y !in B.R.nodes ==> L[y].ch0 == B.L[y].ch0 && L[y].ch1 == B.L[y].ch1 && L[y].par == B.L[y].par)
  }

  /** Nothing but tree links of tree nodes has changed. */
  ghost predicate Plants(B: Binning, L: Links, x: int) {
    forall y {:trigger PlantsAt(B, L, y)} :: y in B.L && y != x ==> PlantsAt(B, L, y)
  }

  /** The bins with x as a tree node of its own. */
  function Planted(B: Binning, x: int, L: Links, R: Trie): Binning {
    Binning(L, B.rings[x := [x]], B.home[x := x], R)
  }

  lemma PlantedBins(B: Binning, C: Chunks, st: int, tb: seq<int>, x: int, L: Links, tb': seq<int>, n: Node)
    requires BinsOK(B, C, st, tb) && x !in B.L && x in L && L[x].fd == x && L[x].bk == x && Plants(B, L, x)
    requires forall y :: y in L ==> y in B.L || y == x
    requires x in C && C[x].kind == Loose && MIN_LARGE <= C[x].size < WORD && n.size == C[x].size
    requires L[x].idx == TreeIndex(C[x].size) && !IsHeader(st, x)
    requires TrieOK(L, tb', AddNode(B.R, x, n))
    ensures BinsOK(Planted(B, x, L, AddNode(B.R, x, n)), Recolor(C, x, Binned), st, tb')
  {
    var R' := AddNode(B.R, x, n);
    var B', C' := Planted(B, x, L, R'), Recolor(C, x, Binned);
    RingHead(B, st, x);
    forall g | g in B'.rings
      ensures RingOK(B', st, g)
    {
      if g == x {
        SingleRing(L, x);
      } else {
        PlantedRing(B, st, x, L, n, g);
      }
    }
    forall y | y in L
      ensures HomeOK(B', y)
    {
      if y != x { assert HomeOK(B, y); }
    }
    forall i | 0 <= i < 32
      ensures HeaderOK(B', st, i)
    {
      assert HeaderOK(B, st, i);
      if Header(st, i) != x { assert PlantsAt(B, L, Header(st, i)); }
    }
    forall y | y in L && !IsHeader(st, y)
      ensures MemberOK(B', C', st, y)
    {
      if y != x {
        assert MemberOK(B, C, st, y) && PlantsAt(B, L, y);
      }
    }
    forall a | a in C' && C'[a].kind == Binned
      ensures a in L
    {
      if a != x { assert C[a].kind == Binned; assert PlantsAt(B, L, a); }
    }
  }

  lemma PlantedRing(B: Binning, st: int, x: int, L: Links, n: Node, g: int)
    requires RingsOK(B, st) && x !in B.L && x in L && Plants(B, L, x) && g in B.rings && g != x
    ensures RingOK(Planted(B, x, L, AddNode(B.R, x, n)), st, g)
  {
    var B' := Planted(B, x, L, AddNode(B.R, x, n));
    assert RingOK(B, st, g);
    assert g in B.rings[g];
    forall y | y in B.rings[g] && (y != g || g !in B.R.nodes)
      ensures Untouched(B, B', y)
    {
      assert PlantsAt(B, L, y);
      NotNode(B, st, g, y);
    }
    assert PlantsAt(B, L, g);
    RingStays(B, B', st, g);
  }

  /** Only the first element of a ring is a tree node. */
  lemma NotNode(B: Binning, st: int, g: int, y: int)
    requires RingsOK(B, st) && g in B.rings && y in B.rings[g] && (y != g || g !in B.R.nodes)
    ensures y !in B.R.nodes
  {
    assert RingOK(B, st, g);
    RingHead(B, st, y);
  }

  // ---------- unlinking a chunk that is not the first of its ring ----------

  /** The writes that bypass an element, in program order. */
  function LinkOut(L: Links, f: int, b: int): Links
    requires f in L && b in L
  {
    Updated(Updated(L, f, 12, b), b, 8, f)
  }

  lemma LinkOutAt(L: Links, f: int, b: int, y: int)
    requires f in L && b in L && y in L
    ensures y in LinkOut(L, f, b)
    ensures var l := LinkOut(L, f, b)[y];
      && l.fd == (if y == b then f else L[y].fd) && l.bk == (if y == f then b else L[y].bk)
      && l.ch0 == L[y].ch0 && l.ch1 == L[y].ch1 && l.par == L[y].par && l.idx == L[y].idx
  {
  }

  ghost predicate LeavesAt(B: Binning, f: int, b: int, L: Links, y: int)
    requires y in B.L
  {
    && y in L && L[y].fd == (if y == b then f else B.L[y].fd) && L[y].bk == (if y == f then b else B.L[y].bk)
    && L[y].ch0 == B.L[y].ch0 && L[y].ch1 == B.L[y].ch1 && L[y].par == B.L[y].par && L[y].idx == B.L[y].idx
  }

  /** x is out of the link map; its neighbours f and b have been joined, unless it was the only chunk of a small bin. */
  ghost predicate Leaves(B: Binning, h: int, f: int, b: int, x: int, L: Links) {
    && x !in L && (forall y :: y in L ==> y in B.L)
    && if f == b && h !in B.R.nodes then forall y :: y in B.L && y != x ==> y in L && L[y] == B.L[y]
       else forall y {:trigger LeavesAt(B, f, b, L, y)} :: y in B.L && y != x ==> LeavesAt(B, f, b, L, y)
  }

  function Left(B: Binning, h: int, k: int, L: Links): Binning
    requires h in B.rings && 0 <= k < |B.rings[h]| && |B.rings[h]| >= 2
  {
    Binning(L, B.rings[h := Shrunk(B.rings[h], k)], B.home - {B.rings[h][k]}, B.R)
  }

  ghost predicate CanLeave(B: Binning, st: int, h: int, k: int, x: int) {
    h in B.rings && 1 <= k < |B.rings[h]| && x == B.rings[h][k] && x in B.L
  }

  lemma LeftRing(B: Binning, st: int, h: int, k: int, x: int, L: Links)
    requires RingsOK(B, st) && CanLeave(B, st, h, k, x) && Leaves(B, h, B.L[x].fd, B.L[x].bk, x, L)
    ensures RingOK(Left(B, h, k, L), st, h)
  {
    var s := B.rings[h];
    var B', f, b := Left(B, h, k, L), B.L[x].fd, B.L[x].bk;
    assert RingOK(B, st, h);
    forall y
      ensures y in Shrunk(s, k) <==> y in s && y != x
    {
      ShrunkMembers(s, k, y);
    }
    SameNeighbours(B.L, s, k);
    if f == b && h !in B.R.nodes {
      assert Shrunk(s, k) == [h];
    } else {
      forall y | y in s && y != x
        ensures y in B.L && LeavesAt(B, f, b, L, y)
      {
      }
      ShrinkRing(B.L, s, k, L);
    }
    if h in B.R.nodes {
      forall y | y in Shrunk(s, k) && y != h
        ensures Chained(L, y)
      {
        assert Chained(B.L, y);
      }
    }
  }

  lemma LeftBins(B: Binning, C: Chunks, st: int, tb: seq<int>, h: int, k: int, x: int, L: Links)
    requires BinsOK(B, C, st, tb) && CanLeave(B, st, h, k, x) && Leaves(B, h, B.L[x].fd, B.L[x].bk, x, L)
    requires x in C && C[x].kind == Binned
    ensures BinsOK(Left(B, h, k, L), Recolor(C, x, Loose), st, tb)
  {
    LeftRings(B, st, h, k, x, L);
    LeftMembers(B, C, st, h, k, x, L);
    var f, b := B.L[x].fd, B.L[x].bk;
    assert RingOK(B, st, h);
    forall t | t in B.R.nodes && t in B.L
      ensures t in L && L[t].ch0 == B.L[t].ch0 && L[t].ch1 == B.L[t].ch1 && L[t].par == B.L[t].par
    {
      if t == x { NotNode(B, st, h, x); }
      assert (f == b && h !in B.R.nodes) || LeavesAt(B, f, b, L, t);
    }
    hide RingsOK, MembersOK;
    TrieKept(B.L, tb, B.R, L);
  }

  lemma LeftRings(B: Binning, st: int, h: int, k: int, x: int, L: Links)
    requires RingsOK(B, st) && CanLeave(B, st, h, k, x) && Leaves(B, h, B.L[x].fd, B.L[x].bk, x, L)
    ensures RingsOK(Left(B, h, k, L), st)
  {
    var B', s := Left(B, h, k, L), B.rings[h];
    var f, b := B.L[x].fd, B.L[x].bk;
    LeftRing(B, st, h, k, x, L);
    assert RingOK(B, st, h);
    Neighbours(B.L, s, k);
    assert f in s && b in s && x in s;
    forall g | g in B'.rings
      ensures RingOK(B', st, g)
    {
      if g != h {
        LeftOther(B, st, h, k, x, L, g);
      }
    }
    forall y | y in L
      ensures HomeOK(B', y)
    {
      assert HomeOK(B, y);
      ShrunkMembers(s, k, y);
    }
    forall i | 0 <= i < 32
      ensures HeaderOK(B', st, i)
    {
      assert HeaderOK(B, st, i);
      assert RingOK(B, st, Header(st, i)) && Header(st, i) in B.rings[Header(st, i)];
      assert (f == b && h !in B.R.nodes) || LeavesAt(B, f, b, L, Header(st, i));
    }
    forall t | t in B.R.nodes ensures t in B'.rings {}
  }

  lemma LeftOther(B: Binning, st: int, h: int, k: int, x: int, L: Links, g: int)
    requires RingsOK(B, st) && CanLeave(B, st, h, k, x) && Leaves(B, h, B.L[x].fd, B.L[x].bk, x, L)
    requires g in B.rings && g != h
    ensures RingOK(Left(B, h, k, L), st, g)
  {
    var B', s := Left(B, h, k, L), B.rings[h];
    var f, b := B.L[x].fd, B.L[x].bk;
    assert RingOK(B, st, h) && RingOK(B, st, g);
    Neighbours(B.L, s, k);
    assert f in s && b in s && x in s && g in B.rings[g];
    forall y | y in B.rings[g]
      ensures Untouched(B, B', y)
    {
      assert (f == b && h !in B.R.nodes) || LeavesAt(B, f, b, L, y);
    }
    RingStays(B, B', st, g);
  }

  lemma LeftMembers(B: Binning, C: Chunks, st: int, h: int, k: int, x: int, L: Links)
    requires MembersOK(B, C, st) && RingsOK(B, st) && CanLeave(B, st, h, k, x)
      && Leaves(B, h, B.L[x].fd, B.L[x].bk, x, L)
    requires x in C && C[x].kind == Binned
    ensures MembersOK(Left(B, h, k, L), Recolor(C, x, Loose), st)
  {
    var B', C' := Left(B, h, k, L), Recolor(C, x, Loose);
    var f, b := B.L[x].fd, B.L[x].bk;
    forall y | y in L && !IsHeader(st, y)
      ensures MemberOK(B', C', st, y)
    {
      assert MemberOK(B, C, st, y);
      assert (f == b && h !in B.R.nodes) || LeavesAt(B, f, b, L, y);
    }
    forall a | a in C' && C'[a].kind == Binned
      ensures a in L
    {
      assert C[a].kind == Binned;
      assert (f == b && h !in B.R.nodes) || LeavesAt(B, f, b, L, a);
    }
  }

  // ---------- unlinking a tree node ----------

  /** A tree node that is alone in its ring has left; R' is the trie without it. */
  function Uprooted(B: Binning, x: int, L: Links, R': Trie): Binning {
    Binning(L, B.rings - {x}, B.home - {x}, R')
  }

  /** The trie has lost x, and otherwise the same nodes with the same sizes. */
  ghost predicate NodesWithout(R: Trie, x: int, R': Trie) {
    && R'.bins == R.bins && x !in R'.nodes
    && (forall t {:trigger t in R'.nodes} :: t in R'.nodes ==> t in R.nodes)
    && (forall t {:trigger R.nodes[t]} :: t in R.nodes && t != x ==>
        t in R'.nodes && R'.nodes[t].size == R.nodes[t].size)
  }

  lemma UprootedBins(B: Binning, C: Chunks, st: int, tb: seq<int>, x: int, L: Links, tb': seq<int>, R': Trie)
    requires BinsOK(B, C, st, tb) && x in B.R.nodes && x in B.rings && |B.rings[x]| == 1 && Plants(B, L, x) && x !in L
    requires forall y :: y in L ==> y in B.L
    requires x in C && C[x].kind == Binned && !IsHeader(st, x)
    requires NodesWithout(B.R, x, R') && TrieOK(L, tb', R')
    ensures BinsOK(Uprooted(B, x, L, R'), Recolor(C, x, Loose), st, tb')
  {
    var B', C' := Uprooted(B, x, L, R'), Recolor(C, x, Loose);
    assert RingOK(B, st, x);
    assert B.rings[x] == [x];
    forall g | g in B'.rings
      ensures RingOK(B', st, g)
    {
      UprootedRing(B, st, x, L, R', g);
    }
    forall y | y in L
      ensures HomeOK(B', y)
    {
      assert HomeOK(B, y);
    }
    forall i | 0 <= i < 32
      ensures HeaderOK(B', st, i)
    {
      assert HeaderOK(B, st, i) && PlantsAt(B, L, Header(st, i));
    }
    forall y | y in L && !IsHeader(st, y)
      ensures MemberOK(B', C', st, y)
    {
      UprootedMember(B, C, st, x, L, R', y);
    }
    forall a | a in C' && C'[a].kind == Binned
      ensures a in L
    {
      assert C[a].kind == Binned && PlantsAt(B, L, a);
    }
  }

  lemma UprootedMember(B: Binning, C: Chunks, st: int, x: int, L: Links, R': Trie, y: int)
    requires RingsOK(B, st) && MembersOK(B, C, st) && x in B.R.nodes && x in B.rings && |B.rings[x]| == 1 && x in C
    requires Plants(B, L, x) && x !in L && NodesWithout(B.R, x, R') && y in L && y in B.L && !IsHeader(st, y)
    ensures MemberOK(Uprooted(B, x, L, R'), Recolor(C, x, Loose), st, y)
  {
    assert MemberOK(B, C, st, y) && PlantsAt(B, L, y) && HomeOK(B, y) && RingOK(B, st, x);
    var h := B.home[y];
    assert h != x;
    if C[y].size >= MIN_LARGE {
      assert B.R.nodes[h].size == C[y].size;
    }
  }

  lemma UprootedRing(B: Binning, st: int, x: int, L: Links, R': Trie, g: int)
    requires RingsOK(B, st) && x in B.R.nodes && Plants(B, L, x) && g in B.rings && g != x && x in B.rings
      && NodesWithout(B.R, x, R')
    ensures RingOK(Uprooted(B, x, L, R'), st, g)
  {
    var B' := Uprooted(B, x, L, R');
    assert RingOK(B, st, g) && RingOK(B, st, x);
    assert g in B.rings[g] && x in B.rings[x];
    forall y | y in B.rings[g] && (y != g || g !in B.R.nodes)
      ensures Untouched(B, B', y)
    {
      assert PlantsAt(B, L, y);
      NotNode(B, st, g, y);
    }
    assert PlantsAt(B, L, g);
    RingStays(B, B', st, g);
  }

  ghost predicate HandsAt(B: Binning, f: int, r: int, L: Links, y: int)
    requires y in B.L
  {
    && y in L && L[y].fd == (if y == r then f else B.L[y].fd) && L[y].bk == (if y == f then r else B.L[y].bk)
    && L[y].idx == B.L[y].idx
    && (y !in B.R.nodes && y != r ==> L[y].ch0 == B.L[y].ch0 && L[y].ch1 == B.L[y].ch1 && L[y].par == B.L[y].par)
  }

  /** The last element of the ring of node x, r, has taken over: neighbours joined, and only tree links changed
      besides. */
  ghost predicate Hands(B: Binning, f: int, r: int, x: int, L: Links) {
    && x !in L && (forall y :: y in L ==> y in B.L)
    && (forall y {:trigger HandsAt(B, f, r, L, y)} :: y in B.L && y != x ==> HandsAt(B, f, r, L, y))
  }

  function Handed(B: Binning, x: int, r: int, L: Links, R': Trie): Binning
    requires x in B.rings && |B.rings[x]| >= 2
  {
    Binning(L, (B.rings - {x})[r := Shrunk(B.rings[x], 0)],
            map y | y in B.home && y != x :: if B.home[y] == x then r else B.home[y], R')
  }

  ghost predicate NodesSwapped(R: Trie, x: int, r: int, R': Trie)
    requires x in R.nodes
  {
    && R'.bins == R.bins && x !in R'.nodes && r in R'.nodes && R'.nodes[r].size == R.nodes[x].size
    && (forall t {:trigger t in R'.nodes} :: t in R'.nodes ==> t in R.nodes || t == r)
    && (forall t {:trigger R.nodes[t]} :: t in R.nodes && t != x ==>
        t in R'.nodes && (t == r || R'.nodes[t].size == R.nodes[t].size))
  }

  ghost predicate CanHand(B: Binning, st: int, x: int, r: int, L: Links, R': Trie) {
    && RingsOK(B, st) && x in B.R.nodes && x in B.rings && |B.rings[x]| >= 2 && x in B.L && B.L[x].bk == r
    && Hands(B, B.L[x].fd, r, x, L) && NodesSwapped(B.R, x, r, R')
  }

  lemma HandedFacts(B: Binning, st: int, x: int, r: int, L: Links, R': Trie)
    requires CanHand(B, st, x, r, L, R')
    ensures var s := B.rings[x];
      && Ring(B.L, s) && s[0] == x && r == s[|s| - 1] && r != x && r in s && B.L[x].fd in s && r in B.L && r in B.home
      && B.home[r] == x
      && B.L[x].fd in B.home && B.home[B.L[x].fd] == x
      && r !in B.R.nodes && r !in B.rings && !IsHeader(st, x)
  {
    var s := B.rings[x];
    assert RingOK(B, st, x);
    Neighbours(B.L, s, 0);
    assert r in s && B.L[x].fd in s;
    NotNode(B, st, x, r);
    RingHead(B, st, r);
  }

  lemma HandedRing(B: Binning, st: int, x: int, r: int, L: Links, R': Trie)
    requires CanHand(B, st, x, r, L, R') && !IsHeader(st, r)
    ensures RingOK(Handed(B, x, r, L, R'), st, r)
  {
    var s, f, B' := B.rings[x], B.L[x].fd, Handed(B, x, r, L, R');
    assert RingOK(B, st, x);
    HandedFacts(B, st, x, r, L, R');
    forall y
      ensures y in Shrunk(s, 0) <==> y in s && y != x
    {
      ShrunkMembers(s, 0, y);
    }
    forall y | y in s && y != x
      ensures y in B.L && HandsAt(B, f, r, L, y)
    {
    }
    ShrinkRing(B.L, s, 0, L);
    forall y | y in Shrunk(s, 0) && y != r
      ensures Chained(L, y)
    {
      NotNode(B, st, x, y);
      assert Chained(B.L, y);
    }
  }

  lemma HandedOther(B: Binning, st: int, x: int, r: int, L: Links, R': Trie, g: int)
    requires CanHand(B, st, x, r, L, R') && g in B.rings && g != x
    ensures g != r && RingOK(Handed(B, x, r, L, R'), st, g)
  {
    var s, B' := B.rings[x], Handed(B, x, r, L, R');
    assert RingOK(B, st, x) && RingOK(B, st, g);
    HandedFacts(B, st, x, r, L, R');
    assert g in B.rings[g] && x in s;
    forall y | y in B.rings[g] && (y != g || g !in B.R.nodes)
      ensures Untouched(B, B', y)
    {
      NotNode(B, st, g, y);
      assert HandsAt(B, B.L[x].fd, r, L, y);
    }
    assert HandsAt(B, B.L[x].fd, r, L, g);
    RingStays(B, B', st, g);
  }

  lemma HandedBins(B: Binning, C: Chunks, st: int, tb: seq<int>, x: int, r: int, L: Links, tb': seq<int>, R': Trie)
    requires BinsOK(B, C, st, tb) && CanHand(B, st, x, r, L, R')
    requires x in C && C[x].kind == Binned && !IsHeader(st, r) && TrieOK(L, tb', R')
    ensures BinsOK(Handed(B, x, r, L, R'), Recolor(C, x, Loose), st, tb')
  {
    var B', C' := Handed(B, x, r, L, R'), Recolor(C, x, Loose);
    var s, f := B.rings[x], B.L[x].fd;
    HandedFacts(B, st, x, r, L, R');
    assert RingOK(B, st, x);
    forall g | g in B'.rings
      ensures RingOK(B', st, g)
    {
      if g == r { HandedRing(B, st, x, r, L, R'); } else { HandedOther(B, st, x, r, L, R', g); }
    }
    forall y | y in L
      ensures HomeOK(B', y)
    {
      assert HomeOK(B, y);
      ShrunkMembers(s, 0, y);
    }
    forall i | 0 <= i < 32
      ensures HeaderOK(B', st, i)
    {
      assert HeaderOK(B, st, i) && HandsAt(B, f, r, L, Header(st, i));
    }
    HandedMembers(B, C, st, x, r, L, R');
  }

  lemma HandedMembers(B: Binning, C: Chunks, st: int, x: int, r: int, L: Links, R': Trie)
    requires MembersOK(B, C, st) && CanHand(B, st, x, r, L, R')
    requires x in C && C[x].kind == Binned
    ensures MembersOK(Handed(B, x, r, L, R'), Recolor(C, x, Loose), st)
  {
    var B', C', f := Handed(B, x, r, L, R'), Recolor(C, x, Loose), B.L[x].fd;
    HandedFacts(B, st, x, r, L, R');
    forall y | y in L && !IsHeader(st, y)
      ensures MemberOK(B', C', st, y)
    {
      assert MemberOK(B, C, st, y) && HandsAt(B, f, r, L, y);
    }
    forall a | a in C' && C'[a].kind == Binned
      ensures a in L
    {
      assert C[a].kind == Binned && HandsAt(B, f, r, L, a);
    }
  }
}
