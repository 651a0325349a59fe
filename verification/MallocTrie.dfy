/** The tree bins: bitwise tries keyed on chunk size, in wiinandfuse/geckonand/malloc.c. */
module Tries {
  import opened Sizes

  /** The link fields of a free chunk; the last four only of a large one. */
  datatype Link = Link(fd: int, bk: int, ch0: int, ch1: int, par: int, idx: int)

  type Links = map<int, Link>

  /** Where a tree node sits: the bin, the size bits above the unresolved ones, and how many are unresolved. */
  datatype Place = Place(bin: int, pre: int, w: nat)

  datatype Node = Node(place: Place, size: int)

  /** The tree nodes, by address, by place and by size, and the address of the bins. */
  datatype Trie = Trie(nodes: map<int, Node>, at: map<Place, int>, sized: map<int, int>, bins: int)

  /** The address of the pointer to the root of bin i. */
  function TreeBin(bins: int, i: int): int {
    bins + 4 * i
  }

  function Child(l: Link, b: int): int {
    if b == 0 then l.ch0 else l.ch1
  }

  /** A node's place agrees with its size, and it is the only node there and the only one of that size. */
  ghost predicate PlaceOK(R: Trie, t: int)
    requires t in R.nodes
  {
    var n := R.nodes[t];
    && MIN_LARGE <= n.size < WORD && 0 <= n.place.bin < 32 && n.place.bin == TreeIndex(n.size)
    && n.place.w <= Bits(n.place.bin) && n.place.pre == Prefix(n.size, n.place.w)
    && n.place in R.at && R.at[n.place] == t && n.size in R.sized && R.sized[n.size] == t && t != 0
  }

  ghost predicate ParentOK(L: Links, tb: seq<int>, R: Trie, t: int)
    requires t in R.nodes && |tb| == 32
  {
    var p := R.nodes[t].place;
    && t in L && 0 <= p.bin < 32
    && if p.w == Bits(p.bin) then tb[p.bin] == t && L[t].par == TreeBin(R.bins, p.bin)
       else
         var q := L[t].par;
         q in R.nodes && q in L && R.nodes[q].place == Place(p.bin, p.pre / 2, p.w + 1) && Child(L[q], p.pre % 2) == t
  }

  ghost predicate ChildOK(L: Links, R: Trie, t: int, b: int)
    requires t in R.nodes
  {
    var p := R.nodes[t].place;
    && t in L
    && var c := Child(L[t], b);
       c == 0 || (c in R.nodes && c in L && p.w > 0 && R.nodes[c].place == Place(p.bin, 2 * p.pre + b, p.w - 1)
                  && L[c].par == t)
  }

  ghost predicate NodeOK(L: Links, tb: seq<int>, R: Trie, t: int)
    requires t in R.nodes && |tb| == 32
  {
    PlaceOK(R, t) && ParentOK(L, tb, R, t) && ChildOK(L, R, t, 0) && ChildOK(L, R, t, 1)
  }

  ghost predicate RootOK(tb: seq<int>, R: Trie, i: int)
    requires 0 <= i < 32 == |tb|
  {
    tb[i] == 0 || (tb[i] in R.nodes && R.nodes[tb[i]].place.bin == i && R.nodes[tb[i]].place.w == Bits(i))
  }

  /** Every tree bin is a bitwise trie with consistent parent and child links. */
  ghost predicate TrieOK(L: Links, tb: seq<int>, R: Trie) {
    && |tb| == 32 && R.bins > 0
    && (forall t {:trigger NodeOK(L, tb, R, t)} :: t in R.nodes ==> NodeOK(L, tb, R, t))
    && (forall i {:trigger RootOK(tb, R, i)} :: 0 <= i < 32 ==> RootOK(tb, R, i))
  }

  // ---------- finding ----------

  /** Every node has an ancestor at each level above it, on the path of its own size. */
  lemma {:induction false} Ancestor(L: Links, tb: seq<int>, R: Trie, c: int, k: nat)
    requires TrieOK(L, tb, R) && c in R.nodes && 0 <= R.nodes[c].place.bin < 32
    requires R.nodes[c].place.w <= k <= Bits(R.nodes[c].place.bin) && R.nodes[c].size >= 0
    ensures var p := Place(R.nodes[c].place.bin, Prefix(R.nodes[c].size, k), k);
      p in R.at && R.at[p] in R.nodes && R.nodes[R.at[p]].place == p
    decreases k
  {
    hide Prefix, TreeIndex;
    assert NodeOK(L, tb, R, c);
    var n := R.nodes[c];
    if n.place.w < k {
      Ancestor(L, tb, R, c, k - 1);
      var a := R.at[Place(n.place.bin, Prefix(n.size, k - 1), k - 1)];
      assert NodeOK(L, tb, R, a);
      PrefixStep(n.size, k - 1);
      assert NodeOK(L, tb, R, L[a].par);
    }
  }

  /** A node whose size lies in the interval of t is t, or is below t on the side of its next bit. */
  lemma Descend(L: Links, tb: seq<int>, R: Trie, c: int, t: int)
    requires TrieOK(L, tb, R) && c in R.nodes && t in R.nodes && c != t && R.nodes[c].size >= 0
    requires R.nodes[t].place == Place(R.nodes[c].place.bin, Prefix(R.nodes[c].size, R.nodes[t].place.w),
      R.nodes[t].place.w)
    requires R.nodes[c].place.w <= R.nodes[t].place.w
    ensures var w := R.nodes[t].place.w;
      w >= 1 && R.nodes[c].place.w <= w - 1 && t in L
      && var d := Child(L[t], Turn(R.nodes[c].size, w - 1));
         d != 0 && d in R.nodes
         && R.nodes[d].place == Place(R.nodes[c].place.bin, Prefix(R.nodes[c].size, w - 1), w - 1)
  {
    hide Prefix, TreeIndex;
    assert NodeOK(L, tb, R, c) && NodeOK(L, tb, R, t);
    var n, w := R.nodes[c], R.nodes[t].place.w;
    assert n.place.w != w;
    Ancestor(L, tb, R, c, w - 1);
    var a := R.at[Place(n.place.bin, Prefix(n.size, w - 1), w - 1)];
    assert NodeOK(L, tb, R, a);
    PrefixStep(n.size, w - 1);
    assert NodeOK(L, tb, R, L[a].par);
  }

  /** The root of the bin of a node is the ancestor of it. */
  lemma RootOf(L: Links, tb: seq<int>, R: Trie, c: int)
    requires TrieOK(L, tb, R) && c in R.nodes
    ensures var i := R.nodes[c].place.bin;
      0 <= i < 32 && R.nodes[c].size >= 0 && R.nodes[c].place.w <= Bits(i)
      && tb[i] != 0 && tb[i] in R.nodes && R.nodes[tb[i]].place == Place(i, Prefix(R.nodes[c].size, Bits(i)), Bits(i))
  {
    hide Prefix, TreeIndex;
    assert NodeOK(L, tb, R, c);
    var i := R.nodes[c].place.bin;
    Ancestor(L, tb, R, c, Bits(i));
    var a := R.at[Place(i, Prefix(R.nodes[c].size, Bits(i)), Bits(i))];
    assert NodeOK(L, tb, R, a);
  }

  // ---------- adding a node ----------

  function AddNode(R: Trie, x: int, n: Node): Trie {
    R.(nodes := R.nodes[x := n], at := R.at[n.place := x], sized := R.sized[n.size := x])
  }

  function SetChild(l: Link, b: int, c: int): Link {
    if b == 0 then l.(ch0 := c) else l.(ch1 := c)
  }

  /** A new root. */
  lemma AddRoot(L: Links, tb: seq<int>, R: Trie, x: int, s: int, L': Links, tb': seq<int>)
    requires TrieOK(L, tb, R) && x !in R.nodes && x != 0 && MIN_LARGE <= s < WORD && 0 <= TreeIndex(s) < 32
    requires var i := TreeIndex(s);
      tb[i] == 0 && tb' == tb[i := x]
      && x in L' && L'[x].ch0 == 0 && L'[x].ch1 == 0 && L'[x].par == TreeBin(R.bins, i)
    requires forall t :: t in R.nodes ==> t in L && t in L' && L'[t] == L[t]
    ensures TrieOK(L', tb', AddNode(R, x, Node(Place(TreeIndex(s), Prefix(s, Bits(TreeIndex(s))), Bits(TreeIndex(s))),
      s)))
    ensures s !in R.sized || R.sized[s] !in R.nodes || R.nodes[R.sized[s]].size != s
  {
    hide Prefix, TreeIndex;
    var i := TreeIndex(s);
    var R' := AddNode(R, x, Node(Place(i, Prefix(s, Bits(i)), Bits(i)), s));
    forall t | t in R.nodes
      ensures R.nodes[t].place.bin != i && R.nodes[t].size != s
    {
      RootOf(L, tb, R, t);
      assert NodeOK(L, tb, R, t);
    }
    forall t | t in R'.nodes
      ensures NodeOK(L', tb', R', t)
    {
      if t != x {
        assert NodeOK(L, tb, R, t);
      }
    }
    forall j | 0 <= j < 32
      ensures RootOK(tb', R', j)
    {
      assert RootOK(tb, R, j);
    }
  }

  /** A new leaf below t, where the path of its size ends. */
  lemma AddLeaf(L: Links, tb: seq<int>, R: Trie, t: int, x: int, s: int, L': Links)
    requires TrieOK(L, tb, R) && x !in R.nodes && x != 0 && MIN_LARGE <= s < WORD && t in R.nodes && t in L
    requires var p := R.nodes[t].place;
      p.bin == TreeIndex(s) && p.w >= 1 && p.pre == Prefix(s, p.w) && Child(L[t], Turn(s, p.w - 1)) == 0
    requires x in L' && L'[x].ch0 == 0 && L'[x].ch1 == 0 && L'[x].par == t
    requires t in L' && L'[t] == SetChild(L[t], Turn(s, R.nodes[t].place.w - 1), x)
    requires forall u :: u in R.nodes && u != t ==> u in L && u in L' && L'[u] == L[u]
    requires forall u :: u in R.nodes && R.nodes[u].size == s ==> R.nodes[u].place.w < R.nodes[t].place.w
    ensures TrieOK(L', tb, AddNode(R, x, Node(Place(TreeIndex(s), Prefix(s, R.nodes[t].place.w - 1),
      R.nodes[t].place.w - 1), s)))
    ensures forall u :: u in R.nodes ==> R.nodes[u].size != s
  {
    hide Prefix, TreeIndex;
    var w, i := R.nodes[t].place.w, TreeIndex(s);
    var place := Place(i, Prefix(s, w - 1), w - 1);
    var R' := AddNode(R, x, Node(place, s));
    PrefixStep(s, w - 1);
    assert NodeOK(L, tb, R, t);
    forall u | u in R.nodes
      ensures R.nodes[u].place != place && R.nodes[u].size != s
    {
      assert NodeOK(L, tb, R, u);
      if R.nodes[u].size == s {
        Descend(L, tb, R, u, t);
      }
      assert L[u].par in R.nodes ==> NodeOK(L, tb, R, L[u].par);
    }
    forall u | u in R'.nodes
      ensures NodeOK(L', tb, R', u)
    {
      if u != x {
        AddLeafKeeps(L, tb, R, t, x, s, L', u);
      }
    }
    forall j | 0 <= j < 32
      ensures RootOK(tb, R', j)
    {
      assert RootOK(tb, R, j);
    }
  }

  lemma AddLeafKeeps(L: Links, tb: seq<int>, R: Trie, t: int, x: int, s: int, L': Links, u: int)
    requires TrieOK(L, tb, R) && x !in R.nodes && x != 0 && MIN_LARGE <= s < WORD && t in R.nodes && t in L
      && u in R.nodes
    requires var p := R.nodes[t].place;
      p.bin == TreeIndex(s) && p.w >= 1 && p.pre == Prefix(s, p.w) && Child(L[t], Turn(s, p.w - 1)) == 0
    requires x in L' && L'[x].par == t
    requires t in L' && L'[t] == SetChild(L[t], Turn(s, R.nodes[t].place.w - 1), x)
    requires forall u :: u in R.nodes && u != t ==> u in L && u in L' && L'[u] == L[u]
    requires R.nodes[u].place != Place(TreeIndex(s), Prefix(s, R.nodes[t].place.w - 1), R.nodes[t].place.w - 1)
    requires R.nodes[u].size != s
    ensures NodeOK(L', tb, AddNode(R, x, Node(Place(TreeIndex(s), Prefix(s, R.nodes[t].place.w - 1),
      R.nodes[t].place.w - 1), s)), u)
  {
    hide Prefix, TreeIndex;
    assert NodeOK(L, tb, R, u) && NodeOK(L, tb, R, t);
    PrefixStep(s, R.nodes[t].place.w - 1);
  }

  // ---------- removing a node ----------

  function DropNode(R: Trie, r: int): Trie {
    R.(nodes := R.nodes - {r})
  }

  /** A leaf is cut off. */
  lemma CutLeaf(L: Links, tb: seq<int>, R: Trie, r: int, L': Links, tb': seq<int>)
    requires TrieOK(L, tb, R) && r in R.nodes && r in L && L[r].ch0 == 0 && L[r].ch1 == 0
    requires |tb'| == 32
    requires var p := R.nodes[r].place;
      0 <= p.bin < 32
      && if p.w == Bits(p.bin) then tb' == tb[p.bin := 0]
         else tb' == tb && var q := L[r].par; q in L && q in L' && L'[q] == SetChild(L[q], p.pre % 2, 0)
    requires forall u ::
      u in R.nodes && u != r && (R.nodes[r].place.w == Bits(R.nodes[r].place.bin) || u != L[r].par) ==>
               u in L && u in L' && L'[u] == L[u]
    ensures TrieOK(L', tb', DropNode(R, r))
  {
    hide Prefix, TreeIndex;
    var R' := DropNode(R, r);
    assert NodeOK(L, tb, R, r);
    forall u | u in R'.nodes
      ensures NodeOK(L', tb', R', u)
    {
      CutLeafKeeps(L, tb, R, r, L', tb', u);
    }
    forall j | 0 <= j < 32
      ensures RootOK(tb', R', j)
    {
      assert RootOK(tb, R, j);
      if tb[j] == r {
        assert R.nodes[r].place.bin == j;
      }
    }
  }

  lemma CutLeafKeeps(L: Links, tb: seq<int>, R: Trie, r: int, L': Links, tb': seq<int>, u: int)
    requires TrieOK(L, tb, R) && r in R.nodes && r in L && L[r].ch0 == 0 && L[r].ch1 == 0
    requires |tb'| == 32 && u in R.nodes && u != r
    requires var p := R.nodes[r].place;
      0 <= p.bin < 32
      && if p.w == Bits(p.bin) then tb' == tb[p.bin := 0]
         else tb' == tb && var q := L[r].par; q in L && q in L' && L'[q] == SetChild(L[q], p.pre % 2, 0)
    requires forall u ::
      u in R.nodes && u != r && (R.nodes[r].place.w == Bits(R.nodes[r].place.bin) || u != L[r].par) ==>
               u in L && u in L' && L'[u] == L[u]
    ensures NodeOK(L', tb', DropNode(R, r), u)
  {
    hide Prefix, TreeIndex;
    assert NodeOK(L, tb, R, r) && NodeOK(L, tb, R, u);
  }

  /** r takes the place of x. */
  function SwapNode(R: Trie, x: int, r: int, s: int): Trie
    requires x in R.nodes
  {
    var p := R.nodes[x].place;
    R.(nodes := (R.nodes - {x})[r := Node(p, s)], at := R.at[p := r], sized := R.sized[s := r])
  }

  /** What the link fields must be once r has replaced x. */
  ghost predicate Swapped(L: Links, tb: seq<int>, R: Trie, x: int, r: int, L': Links, tb': seq<int>)
    requires x in R.nodes && x in L && |tb| == 32
  {
    var p, q := R.nodes[x].place, L[x].par;
    && 0 <= p.bin < 32
    && r in L' && L'[r].par == q && L'[r].ch0 == L[x].ch0 && L'[r].ch1 == L[x].ch1
    && (if p.w == Bits(p.bin) then tb' == tb[p.bin := r]
        else tb' == tb && q in L && q in L' && L'[q] == SetChild(L[q], p.pre % 2, r))
    && (L[x].ch0 != 0 ==> L[x].ch0 in L && L[x].ch0 in L' && L'[L[x].ch0] == L[L[x].ch0].(par := r))
    && (L[x].ch1 != 0 ==> L[x].ch1 in L && L[x].ch1 in L' && L'[L[x].ch1] == L[L[x].ch1].(par := r))
    && (forall u :: u in R.nodes && u != x && (p.w == Bits(p.bin) || u != q) && u != L[x].ch0 && u != L[x].ch1 ==>
          u in L && u in L' && L'[u] == L[u])
  }

  lemma SwapNodes(L: Links, tb: seq<int>, R: Trie, x: int, r: int, s: int, L': Links, tb': seq<int>)
    requires TrieOK(L, tb, R) && x in R.nodes && x in L && r !in R.nodes && r != 0 && MIN_LARGE <= s < WORD
    requires TreeIndex(s) == R.nodes[x].place.bin && Prefix(s, R.nodes[x].place.w) == R.nodes[x].place.pre
    requires forall u :: u in R.nodes && u != x ==> R.nodes[u].size != s
    requires Swapped(L, tb, R, x, r, L', tb')
    ensures TrieOK(L', tb', SwapNode(R, x, r, s))
  {
    hide Prefix, TreeIndex;
    var R' := SwapNode(R, x, r, s);
    assert NodeOK(L, tb, R, x);
    forall u | u in R'.nodes
      ensures NodeOK(L', tb', R', u)
    {
      if u == r {
        SwapPlaces(L, tb, R, x, r, s, L', tb');
      } else {
        SwapKeeps(L, tb, R, x, r, s, L', tb', u);
      }
    }
    forall j | 0 <= j < 32
      ensures RootOK(tb', R', j)
    {
      assert RootOK(tb, R, j);
      if tb[j] == x {
        assert R.nodes[x].place.bin == j;
      }
    }
  }

  lemma SwapPlaces(L: Links, tb: seq<int>, R: Trie, x: int, r: int, s: int, L': Links, tb': seq<int>)
    requires TrieOK(L, tb, R) && x in R.nodes && x in L && r !in R.nodes && r != 0 && MIN_LARGE <= s < WORD
    requires TreeIndex(s) == R.nodes[x].place.bin && Prefix(s, R.nodes[x].place.w) == R.nodes[x].place.pre
    requires Swapped(L, tb, R, x, r, L', tb')
    ensures |tb'| == 32 && NodeOK(L', tb', SwapNode(R, x, r, s), r)
  {
    hide Prefix, TreeIndex;
    assert NodeOK(L, tb, R, x);
    var q := L[x].par;
    if R.nodes[x].place.w != Bits(R.nodes[x].place.bin) {
      assert NodeOK(L, tb, R, q);
    }
  }

  lemma SwapKeepsParent(L: Links, tb: seq<int>, R: Trie, x: int, r: int, s: int, L': Links, tb': seq<int>, u: int)
    requires TrieOK(L, tb, R) && x in R.nodes && x in L && r !in R.nodes && r != 0 && MIN_LARGE <= s < WORD
    requires TreeIndex(s) == R.nodes[x].place.bin && Prefix(s, R.nodes[x].place.w) == R.nodes[x].place.pre
    requires forall u :: u in R.nodes && u != x ==> R.nodes[u].size != s
    requires Swapped(L, tb, R, x, r, L', tb')
    requires u in R.nodes && u != x
    ensures |tb'| == 32 && ParentOK(L', tb', SwapNode(R, x, r, s), u)
  {
    hide Prefix, TreeIndex;
    assert NodeOK(L, tb, R, x) && NodeOK(L, tb, R, u);
    var p, y := R.nodes[u].place, L[u].par;
    assert L'[u].par == if y == x && p.w != Bits(p.bin) then r else y;
    if p.w == Bits(p.bin) {
      assert tb'[p.bin] == u;
    } else if y == x {
      assert u == Child(L[x], p.pre % 2);
    } else {
      assert y in R.nodes && NodeOK(L, tb, R, y);
      if y == L[x].par && R.nodes[x].place.w != Bits(R.nodes[x].place.bin) {
        assert Child(L'[y], p.pre % 2) == u;
      } else if y == L[x].ch0 || y == L[x].ch1 {
        assert Child(L'[y], p.pre % 2) == u;
      } else {
        assert L'[y] == L[y];
      }
    }
  }

  lemma SwapKeepsChild(L: Links, tb: seq<int>, R: Trie, x: int, r: int, s: int, L': Links, tb': seq<int>, u: int,
      b: int)
    requires TrieOK(L, tb, R) && x in R.nodes && x in L && r !in R.nodes && r != 0 && MIN_LARGE <= s < WORD
    requires TreeIndex(s) == R.nodes[x].place.bin && Prefix(s, R.nodes[x].place.w) == R.nodes[x].place.pre
    requires forall u :: u in R.nodes && u != x ==> R.nodes[u].size != s
    requires Swapped(L, tb, R, x, r, L', tb')
    requires u in R.nodes && u != x
    requires b == 0 || b == 1
    ensures ChildOK(L', SwapNode(R, x, r, s), u, b)
  {
    hide Prefix, TreeIndex;
    assert NodeOK(L, tb, R, x) && NodeOK(L, tb, R, u);
  }

  lemma SwapKeeps(L: Links, tb: seq<int>, R: Trie, x: int, r: int, s: int, L': Links, tb': seq<int>, u: int)
    requires TrieOK(L, tb, R) && x in R.nodes && x in L && r !in R.nodes && r != 0 && MIN_LARGE <= s < WORD
    requires TreeIndex(s) == R.nodes[x].place.bin && Prefix(s, R.nodes[x].place.w) == R.nodes[x].place.pre
    requires forall u :: u in R.nodes && u != x ==> R.nodes[u].size != s
    requires Swapped(L, tb, R, x, r, L', tb')
    requires u in R.nodes && u != x
    ensures |tb'| == 32 && NodeOK(L', tb', SwapNode(R, x, r, s), u)
  {
    hide Prefix, TreeIndex;
    assert NodeOK(L, tb, R, x) && NodeOK(L, tb, R, u);
    SwapKeepsParent(L, tb, R, x, r, s, L', tb', u);
    SwapKeepsChild(L, tb, R, x, r, s, L', tb', u, 0);
    SwapKeepsChild(L, tb, R, x, r, s, L', tb', u, 1);
    hide ParentOK, ChildOK, Swapped;
  }
}
