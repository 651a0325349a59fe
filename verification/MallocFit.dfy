/** Best fit in the tree bins: what the searches of tmalloc_large and tmalloc_small keep. */
module Fitting {
  import opened Sizes
  import opened BinMaps
  import opened Tries
  import opened Chunks
  import opened Bins
  import opened Lists
  import opened Linking
  import opened TreeBinning
  import opened Unlinking

  /** The candidate so far: none, or a node that exceeds nb by rsize. */
  ghost predicate Candidate(R: Trie, nb: int, v: int, rsize: int) {
    if v == 0 then rsize == WORD - nb else v in R.nodes && rsize >= 0 && R.nodes[v].size == nb + rsize
  }

  /** c is in the bin of t, and larger than everything below t. */
  ghost predicate Beyond(R: Trie, c: int, t: int)
    requires c in R.nodes && t in R.nodes
  {
    var p := R.nodes[t].place;
    R.nodes[c].size >= 0 && R.nodes[c].place.bin == p.bin && Prefix(R.nodes[c].size, p.w) > p.pre
  }

  /** A node that fits no better than the candidate, or that is still to be found through t or through u. */
  ghost predicate Seen(R: Trie, nb: int, rsize: int, t: int, u: int, c: int)
    requires c in R.nodes
  {
    || R.nodes[c].size < nb || R.nodes[c].size >= nb + rsize
    || (t != 0 && t in R.nodes && Under(R, c, t))
    || (u != 0 && u in R.nodes && (Under(R, c, u) || Beyond(R, c, u)))
  }

  ghost predicate AllSeen(R: Trie, nb: int, rsize: int, i: int, t: int, u: int) {
    forall c {:trigger Seen(R, nb, rsize, t, u, c)} :: c in R.nodes && R.nodes[c].place.bin == i ==>
        Seen(R, nb, rsize, t, u, c)
  }

  /** Higher bits decide. */
  lemma {:induction false} PrefixAbove(a: int, b: int, w: nat, v: nat)
    requires a >= 0 && b >= 0 && w <= v && Prefix(a, v) > Prefix(b, v)
    ensures Prefix(a, w) > Prefix(b, w)
    decreases v - w
  {
    hide Prefix;
    if w < v {
      PrefixStep(a, v - 1);
      PrefixStep(b, v - 1);
      PrefixAbove(a, b, w, v - 1);
    }
  }

  lemma BeyondIsLarger(B: Binning, C: Chunks, st: int, tb: seq<int>, c: int, t: int)
    requires BinsOK(B, C, st, tb) && c in B.R.nodes && t in B.R.nodes && Beyond(B.R, c, t)
    ensures B.R.nodes[c].size > B.R.nodes[t].size
  {
    hide Prefix, TreeIndex;
    assert NodeOK(B.L, tb, B.R, t);
    PrefixOrder(B.R.nodes[t].size, B.R.nodes[c].size, B.R.nodes[t].place.w);
  }

  /** One node of the descent for nb: c was below t, or held by u; now it is below the next t, or held by the next u. */
  lemma SearchStep(B: Binning, C: Chunks, st: int, tb: seq<int>, nb: int, rsize: int, rsize': int, t: int, u: int,
      i: int, c: int)
    requires BinsOK(B, C, st, tb) && t in B.R.nodes && t in B.L && MIN_LARGE <= nb < WORD
    requires var p := B.R.nodes[t].place; p.bin == i && p.w >= 1 && p.pre == Prefix(nb, p.w)
    requires u == 0 || (u in B.R.nodes && B.R.nodes[u].place.bin == i && B.R.nodes[u].place.w >= B.R.nodes[t].place.w
                        && B.R.nodes[u].place.pre > Prefix(nb, B.R.nodes[u].place.w))
    requires rsize' <= rsize && (B.R.nodes[t].size >= nb ==> B.R.nodes[t].size >= nb + rsize')
    requires c in B.R.nodes && B.R.nodes[c].place.bin == i && Seen(B.R, nb, rsize, t, u, c)
    ensures var w := B.R.nodes[t].place.w - 1;
      var t' := Child(B.L[t], Turn(nb, w));
      var rt := Child(B.L[t], 1);
      Seen(B.R, nb, rsize', t', if rt != 0 && rt != t' then rt else u, c)
  {
    hide Prefix, TreeIndex;
    var w, s := B.R.nodes[t].place.w - 1, B.R.nodes[c].size;
    var t', rt := Child(B.L[t], Turn(nb, w)), Child(B.L[t], 1);
    assert NodeOK(B.L, tb, B.R, t) && NodeOK(B.L, tb, B.R, c);
    if s < nb || s >= nb + rsize' {
    } else if Under(B.R, c, t) {
      Descend(B.L, tb, B.R, c, t);
      PrefixStep(s, w);
      PrefixStep(nb, w);
      if Turn(s, w) != Turn(nb, w) {
        if Turn(s, w) == 0 {
          PrefixOrder(s, nb, w);
        }
      }
    } else if rt != 0 && rt != t' {
      assert NodeOK(B.L, tb, B.R, rt);
      HeldBeyond(B, C, st, tb, nb, t, u, rt, c);
    }
  }

  /** What an earlier untaken subtree holds is beyond a deeper one. */
  lemma HeldBeyond(B: Binning, C: Chunks, st: int, tb: seq<int>, nb: int, t: int, u: int, rt: int, c: int)
    requires BinsOK(B, C, st, tb) && t in B.R.nodes && t in B.L && MIN_LARGE <= nb < WORD
    requires var p := B.R.nodes[t].place; p.w >= 1 && p.pre == Prefix(nb, p.w)
    requires u in B.R.nodes && B.R.nodes[u].place.bin == B.R.nodes[t].place.bin
      && B.R.nodes[u].place.w >= B.R.nodes[t].place.w
    requires B.R.nodes[u].place.pre > Prefix(nb, B.R.nodes[u].place.w)
    requires rt == Child(B.L[t], 1) && rt in B.R.nodes && rt != 0
    requires c in B.R.nodes && (Under(B.R, c, u) || Beyond(B.R, c, u))
    ensures Beyond(B.R, c, rt)
  {
    hide Prefix, TreeIndex;
    assert NodeOK(B.L, tb, B.R, t) && NodeOK(B.L, tb, B.R, rt);
    var s, w, v := B.R.nodes[c].size, B.R.nodes[t].place.w, B.R.nodes[u].place.w;
    PrefixAbove(s, nb, w, v);
    PrefixStep(s, w - 1);
  }

  /** One node of the walk to the left. */
  lemma LeftStep(B: Binning, C: Chunks, st: int, tb: seq<int>, nb: int, rsize: int, rsize': int, t: int, i: int, c: int)
    requires BinsOK(B, C, st, tb) && t in B.R.nodes && t in B.L && t != 0 && B.R.nodes[t].place.bin == i
    requires rsize' <= rsize && (B.R.nodes[t].size >= nb ==> B.R.nodes[t].size >= nb + rsize')
    requires rsize' == 0 || B.R.nodes[t].size >= nb
    requires c in B.R.nodes && B.R.nodes[c].place.bin == i && Seen(B.R, nb, rsize, 0, t, c)
    ensures var t' := if B.L[t].ch0 != 0 then B.L[t].ch0 else B.L[t].ch1;
      Seen(B.R, nb, rsize', 0, t', c)
  {
    hide Prefix, TreeIndex;
    var s, w := B.R.nodes[c].size, B.R.nodes[t].place.w;
    var t' := if B.L[t].ch0 != 0 then B.L[t].ch0 else B.L[t].ch1;
    assert NodeOK(B.L, tb, B.R, t) && NodeOK(B.L, tb, B.R, c);
    if s < nb || s >= nb + rsize' {
    } else if Under(B.R, c, t) {
      Descend(B.L, tb, B.R, c, t);
      PrefixStep(s, w - 1);
    } else {
      BeyondIsLarger(B, C, st, tb, c, t);
    }
  }

  /** Every tree node that fits is at least as large as the candidate. */
  ghost predicate BestOfTrees(R: Trie, nb: int, rsize: int) {
    forall c {:trigger R.nodes[c]} :: c in R.nodes && R.nodes[c].size >= nb ==> R.nodes[c].size >= nb + rsize
  }

  /** Nodes in lower bins do not fit; nodes in higher bins are larger than those of the bin searched. */
  lemma BestOfBin(B: Binning, C: Chunks, st: int, tb: seq<int>, nb: int, v: int, rsize: int, i: int)
    requires BinsOK(B, C, st, tb) && MIN_LARGE <= nb < WORD && Candidate(B.R, nb, v, rsize)
    requires 0 <= TreeIndex(nb) <= i && AllSeen(B.R, nb, rsize, i, 0, 0) && v != 0 && B.R.nodes[v].place.bin <= i
    requires i == TreeIndex(nb) || (AllSeen(B.R, nb, WORD - nb, TreeIndex(nb), 0, 0)
      && NoneBetween(B.R, TreeIndex(nb), i))
    ensures BestOfTrees(B.R, nb, rsize)
  {
    hide Prefix, TreeIndex;
    assert NodeOK(B.L, tb, B.R, v);
    forall c | c in B.R.nodes && B.R.nodes[c].size >= nb
      ensures B.R.nodes[c].size >= nb + rsize
    {
      assert NodeOK(B.L, tb, B.R, c);
      var j, s := B.R.nodes[c].place.bin, B.R.nodes[c].size;
      if j < TreeIndex(nb) {
        TreeIndexOrder(s, nb);
      } else if j == i {
        assert Seen(B.R, nb, rsize, 0, 0, c);
      } else if j == TreeIndex(nb) {
        assert Seen(B.R, nb, WORD - nb, 0, 0, c);
      } else if j > i {
        TreeIndexOrder(B.R.nodes[v].size, s);
      }
    }
  }

  /** The unsigned remainder of a node that is too small is no better than any candidate's. */
  lemma Remainder(size: int, nb: int, rsize: int)
    requires 0 < size < WORD && 0 < nb < WORD && rsize <= WORD - nb
    ensures if size >= nb then W32(size - nb) == size - nb else W32(size - nb) >= rsize
  {
    if size < nb {
      assert W32(size - nb) == size - nb + WORD;
    }
  }

  /** Every node below r0 fits. */
  ghost predicate AllFit(R: Trie, r0: int, nb: int) {
    r0 in R.nodes && forall c {:trigger Under(R, c, r0)} :: c in R.nodes && Under(R, c, r0) ==> R.nodes[c].size >= nb
  }

  lemma RightSubtreeFits(B: Binning, C: Chunks, st: int, tb: seq<int>, u: int, nb: int)
    requires BinsOK(B, C, st, tb) && u in B.R.nodes && 0 <= nb
      && B.R.nodes[u].place.pre > Prefix(nb, B.R.nodes[u].place.w)
    ensures AllFit(B.R, u, nb)
  {
    hide TreeIndex, Prefix;
    forall c | c in B.R.nodes && Under(B.R, c, u)
      ensures B.R.nodes[c].size >= nb
    {
      PrefixOrder(nb, B.R.nodes[c].size, B.R.nodes[u].place.w);
    }
  }

  lemma HigherBinFits(B: Binning, C: Chunks, st: int, tb: seq<int>, u: int, nb: int)
    requires BinsOK(B, C, st, tb) && u in B.R.nodes && MIN_LARGE <= nb < WORD && B.R.nodes[u].place.bin > TreeIndex(nb)
    ensures AllFit(B.R, u, nb)
  {
    hide TreeIndex, Prefix;
    forall c | c in B.R.nodes && Under(B.R, c, u)
      ensures B.R.nodes[c].size >= nb
    {
      assert NodeOK(B.L, tb, B.R, c);
      TreeIndexOrder(nb, B.R.nodes[c].size);
    }
  }

  /** Everything in a bin is below its root. */
  lemma RootSees(B: Binning, C: Chunks, st: int, tb: seq<int>, nb: int, rsize: int, i: int)
    requires BinsOK(B, C, st, tb) && 0 <= i < |tb|
    ensures AllSeen(B.R, nb, rsize, i, tb[i], 0) && AllSeen(B.R, nb, rsize, i, 0, tb[i])
  {
    hide TreeIndex, Prefix;
    forall c | c in B.R.nodes && B.R.nodes[c].place.bin == i
      ensures Seen(B.R, nb, rsize, tb[i], 0, c) && Seen(B.R, nb, rsize, 0, tb[i], c)
    {
      RootOf(B.L, tb, B.R, c);
    }
  }

  /** No tree node fits. */
  ghost predicate NoneFits(R: Trie, nb: int) {
    forall c {:trigger R.nodes[c]} :: c in R.nodes ==> R.nodes[c].size < nb
  }

  /** The bins strictly between are empty. */
  ghost predicate NoneBetween(R: Trie, i: int, j: int) {
    forall c {:trigger R.nodes[c]} :: c in R.nodes ==> !(i < R.nodes[c].place.bin < j)
  }

  /** An unmarked tree bin has no nodes. */
  lemma UnmarkedBin(B: Binning, C: Chunks, st: int, tb: seq<int>, sm: binmap, tm: binmap, c: int)
    requires BinsOK(B, C, st, tb) && MapsOK(B, st, tb, sm, tm) && c in B.R.nodes
    ensures 0 <= B.R.nodes[c].place.bin < 32 && Marked(tm, B.R.nodes[c].place.bin)
  {
    hide TreeIndex, Prefix, Marked;
    RootOf(B.L, tb, B.R, c);
    assert MapOK(B, st, tb, sm, tm, B.R.nodes[c].place.bin);
  }

  lemma NothingFits(B: Binning, C: Chunks, st: int, tb: seq<int>, nb: int)
    requires BinsOK(B, C, st, tb) && MIN_LARGE <= nb < WORD
    requires 0 <= TreeIndex(nb) && AllSeen(B.R, nb, WORD - nb, TreeIndex(nb), 0, 0)
      && NoneBetween(B.R, TreeIndex(nb), 32)
    ensures NoneFits(B.R, nb) && BestOfTrees(B.R, nb, WORD - nb)
  {
    hide TreeIndex, Prefix;
    forall c | c in B.R.nodes
      ensures B.R.nodes[c].size < nb
    {
      assert NodeOK(B.L, tb, B.R, c);
      var j, s := B.R.nodes[c].place.bin, B.R.nodes[c].size;
      assert j == TreeIndex(nb) ==> Seen(B.R, nb, WORD - nb, 0, 0, c);
      if s >= nb && j < TreeIndex(nb) {
        TreeIndexOrder(s, nb);
      }
    }
  }

  /** The root of the bin for nb. */
  lemma BinRoot(B: Binning, C: Chunks, st: int, tb: seq<int>, nb: int)
    requires BinsOK(B, C, st, tb) && MIN_LARGE <= nb < WORD
    ensures var i := TreeIndex(nb);
      && 0 <= i < |tb| && 0 <= i < 32
      && (tb[i] != 0 ==> tb[i] in B.R.nodes && B.R.nodes[tb[i]].place == Place(i, Prefix(nb, Bits(i)), Bits(i)))
  {
    hide TreeIndex, Prefix;
    TreeIndexRange(nb);
    var i := TreeIndex(nb);
    assert RootOK(tb, B.R, i);
    if tb[i] != 0 {
      assert NodeOK(B.L, tb, B.R, tb[i]);
      TreeIndexRange(B.R.nodes[tb[i]].size);
    }
  }

  /** Once the fit is exact nothing is better. */
  lemma ExactSees(B: Binning, nb: int, i: int, t: int)
    ensures AllSeen(B.R, nb, 0, i, 0, t)
  {
  }

  /** An untaken right child holds larger sizes only. */
  lemma RightChild(B: Binning, C: Chunks, st: int, tb: seq<int>, t: int, nb: int)
    requires BinsOK(B, C, st, tb) && t in B.R.nodes && t in B.L && 0 <= nb
    requires var p := B.R.nodes[t].place; p.w >= 1 && p.pre == Prefix(nb, p.w)
    ensures var p, rt := B.R.nodes[t].place, Child(B.L[t], 1);
      rt != 0 ==> rt in B.R.nodes && B.R.nodes[rt].place.bin == p.bin && B.R.nodes[rt].place.w == p.w - 1
                  && (rt != Child(B.L[t], Turn(nb, p.w - 1)) ==> B.R.nodes[rt].place.pre > Prefix(nb, p.w - 1))
  {
    hide TreeIndex, Prefix;
    assert NodeOK(B.L, tb, B.R, t);
    PrefixStep(nb, B.R.nodes[t].place.w - 1);
  }

  lemma SearchAll(B: Binning, C: Chunks, st: int, tb: seq<int>, nb: int, rsize: int, rsize': int, t: int, u: int,
      i: int)
    requires BinsOK(B, C, st, tb) && t in B.R.nodes && t in B.L && MIN_LARGE <= nb < WORD
    requires var p := B.R.nodes[t].place; p.bin == i && p.w >= 1 && p.pre == Prefix(nb, p.w)
    requires u == 0 || (u in B.R.nodes && B.R.nodes[u].place.bin == i && B.R.nodes[u].place.w >= B.R.nodes[t].place.w
                        && B.R.nodes[u].place.pre > Prefix(nb, B.R.nodes[u].place.w))
    requires rsize' <= rsize && (B.R.nodes[t].size >= nb ==> B.R.nodes[t].size >= nb + rsize')
    requires AllSeen(B.R, nb, rsize, i, t, u)
    ensures var w := B.R.nodes[t].place.w - 1;
      var t' := Child(B.L[t], Turn(nb, w));
      var rt := Child(B.L[t], 1);
      AllSeen(B.R, nb, rsize', i, t', if rt != 0 && rt != t' then rt else u)
  {
    var w := B.R.nodes[t].place.w - 1;
    var t' := Child(B.L[t], Turn(nb, w));
    var rt := Child(B.L[t], 1);
    hide BinsOK, Seen, Prefix, Turn;
    forall c | c in B.R.nodes && B.R.nodes[c].place.bin == i
      ensures Seen(B.R, nb, rsize', t', if rt != 0 && rt != t' then rt else u, c)
    {
      assert Seen(B.R, nb, rsize, t, u, c);
      SearchStep(B, C, st, tb, nb, rsize, rsize', t, u, i, c);
    }
  }

  lemma LeftAll(B: Binning, C: Chunks, st: int, tb: seq<int>, nb: int, rsize: int, rsize': int, t: int, i: int)
    requires BinsOK(B, C, st, tb) && t in B.R.nodes && t in B.L && t != 0 && B.R.nodes[t].place.bin == i
    requires rsize' <= rsize && (B.R.nodes[t].size >= nb ==> B.R.nodes[t].size >= nb + rsize')
    requires rsize' == 0 || B.R.nodes[t].size >= nb
    requires AllSeen(B.R, nb, rsize, i, 0, t)
    ensures AllSeen(B.R, nb, rsize', i, 0, if B.L[t].ch0 != 0 then B.L[t].ch0 else B.L[t].ch1)
  {
    hide BinsOK, Seen;
    forall c | c in B.R.nodes && B.R.nodes[c].place.bin == i
      ensures Seen(B.R, nb, rsize', 0, if B.L[t].ch0 != 0 then B.L[t].ch0 else B.L[t].ch1, c)
    {
      assert Seen(B.R, nb, rsize, 0, t, c);
      LeftStep(B, C, st, tb, nb, rsize, rsize', t, i, c);
    }
  }

  /** For a small request: the best of the first nonempty bin is the best of all. */
  lemma BestOfFirst(B: Binning, C: Chunks, st: int, tb: seq<int>, nb: int, v: int, rsize: int, i: int)
    requires BinsOK(B, C, st, tb) && v in B.R.nodes && B.R.nodes[v].size == nb + rsize && B.R.nodes[v].place.bin == i
    requires AllSeen(B.R, nb, rsize, i, 0, 0) && NoneBetween(B.R, -1, i)
    ensures BestOfTrees(B.R, nb, rsize)
  {
    hide Prefix, TreeIndex;
    assert NodeOK(B.L, tb, B.R, v);
    forall c | c in B.R.nodes && B.R.nodes[c].size >= nb
      ensures B.R.nodes[c].size >= nb + rsize
    {
      assert NodeOK(B.L, tb, B.R, c);
      var j, s := B.R.nodes[c].place.bin, B.R.nodes[c].size;
      if j == i {
        assert Seen(B.R, nb, rsize, 0, 0, c);
      } else {
        TreeIndexOrder(B.R.nodes[v].size, s);
      }
    }
  }

  /** The first marked bin above i, or from 0. */
  lemma FirstMarked(B: Binning, C: Chunks, st: int, tb: seq<int>, sm: binmap, tm: binmap, i: int,
      bits: binmap) returns (j: int)
    requires BinsOK(B, C, st, tb) && MapsOK(B, st, tb, sm, tm) && -1 <= i < 32
    requires IsLeftOf(bits, tm, i)
    ensures bits == 0 ==> NoneBetween(B.R, i, 32)
    ensures bits != 0 ==>
      && i < j < 32 && FoundAt(bits, j)
      && tb[j] != 0 && tb[j] in B.R.nodes && B.R.nodes[tb[j]].place.bin == j && NoneBetween(B.R, i, j)
  {
    hide TreeIndex, Prefix, Marked, Keep, LeftBits, BitOf, BitIndex, LeastBit;
    forall j | 0 <= j < 32
      ensures Marked(bits, j) == (i < j && Marked(tm, j))
    {
      if i >= 0 { LeftMarked(i, tm, j); }
    }
    j := 32;
    if bits != 0 {
      j := Least(bits);
      BitIndexOf(j);
      TreeRoot(B, C, st, tb, sm, tm, j);
    }
    forall c | c in B.R.nodes
      ensures !(i < B.R.nodes[c].place.bin < j)
    {
      UnmarkedBin(B, C, st, tb, sm, tm, c);
      if bits == 0 { EmptyMap(B.R.nodes[c].place.bin); }
    }
  }

  /** The bits of the map above i, or all of them. */
  ghost predicate IsLeftOf(bits: binmap, tm: binmap, i: int) {
    -1 <= i < 32 && bits == if i == -1 then tm else Keep(LeftBits(BitOf(i)), tm)
  }

  /** compute_bit2idx of the least bit gives j. */
  ghost predicate FoundAt(bits: binmap, j: int) {
    BitIndex(LeastBit(bits)) == j
  }

  lemma FitsAt(R: Trie, t: int, r0: int, nb: int)
    requires AllFit(R, r0, nb) && t in R.nodes && Under(R, t, r0)
    ensures R.nodes[t].size >= nb
  {
  }

  lemma SameBin(R: Trie, t: int, u: int, r0: int)
    requires t in R.nodes && u in R.nodes && r0 in R.nodes && Under(R, t, r0) && Under(R, u, r0)
    ensures R.nodes[t].place.bin == R.nodes[u].place.bin
  {
  }

  /** Binned chunks large enough for a large request are in the trees. */
  lemma InTrees(B: Binning, C: Chunks, st: int, tb: seq<int>, a: int)
    requires BinsOK(B, C, st, tb) && a in C && C[a].kind == Binned && C[a].size >= MIN_LARGE
    ensures exists t :: t in B.R.nodes && B.R.nodes[t].size == C[a].size
  {
    var t, k := LargeMember(B, C, st, tb, a);
    assert MemberOK(B, C, st, a) || IsHeader(st, a);
    if IsHeader(st, a) {
      var i := HeaderIndex(st, a);
      assert false;
    }
    var u := B.home[a];
    assert u in B.R.nodes && B.R.nodes[u].size == C[a].size;
  }

  // ---------- small bins ----------

  /** No small bin from i up to j is marked. */
  ghost predicate NoSmallBins(sm: binmap, i: int, j: int) {
    forall k {:trigger Marked(sm, k)} :: 0 <= i <= k < j && k < 32 ==> !Marked(sm, k)
  }

  /** The remainderless bins, idx and idx + 1. */
  lemma ExactBin(sm: binmap, idx: int)
    requires 0 <= idx < 32
    ensures var bits := Down(sm, idx);
      && (LowBits(bits) ==>
            var i := idx + NotFirst(bits); idx <= i <= idx + 1 && i < 32 && Marked(sm, i) && NoSmallBins(sm, idx, i))
      && (!LowBits(bits) ==> NoSmallBins(sm, idx, idx + 2))
      && (bits == 0 ==> NoSmallBins(sm, idx, 32))
  {
    hide BitOf, Has, Down, NotFirst;
    var bits := Down(sm, idx);
    LowTwo(bits);
    NotFirstMarked(bits);
    DownMarked(sm, idx, 0);
    DownMarked(sm, idx, 1);
    forall k | idx <= k < 32
      ensures Marked(sm, k) == Marked(bits, k - idx)
    {
      DownMarked(sm, idx, k - idx);
    }
    if bits == 0 {
      forall k | idx <= k < 32
        ensures !Marked(sm, k)
      {
        EmptyMap(k - idx);
      }
    }
  }

  /** smallbits & 3 is not zero. */
  predicate LowBits(bits: binmap) {
    bits & 3 != 0
  }

  /** The next nonempty small bin. */
  lemma NextBin(sm: binmap, idx: int) returns (i: int)
    requires 0 <= idx < 32 && Down(sm, idx) != 0 && !LowBits(Down(sm, idx))
    ensures idx + 2 <= i < 32 && FoundAt(Keep(Up(Down(sm, idx), idx), LeftBits(BitOf(idx))), i)
    ensures Marked(sm, i) && NoSmallBins(sm, idx, i)
  {
    hide BitOf, Has, Down, Up, Keep, LeftBits, BitIndex, LeastBit, LowBits;
    ExactBin(sm, idx);
    var bits := Down(sm, idx);
    var left := Keep(Up(bits, idx), LeftBits(BitOf(idx)));
    var j := Least(bits);
    DownMarked(sm, idx, j);
    LeftOfShifted(sm, idx, idx + j);
    forall k | 0 <= k < 32
      ensures Marked(left, k) == (idx < k && Marked(sm, k))
    {
      LeftOfShifted(sm, idx, k);
    }
    assert idx + j != idx;
    NotEmpty(left, idx + j);
    i := Least(left);
    BitIndexOf(i);
  }

  /** A small binned chunk is in a marked bin. */
  lemma InSmallBin(B: Binning, C: Chunks, st: int, tb: seq<int>, sm: binmap, tm: binmap, a: int)
    requires BinsOK(B, C, st, tb) && MapsOK(B, st, tb, sm, tm) && a in C && C[a].kind == Binned && C[a].size < MIN_LARGE
    ensures 0 <= C[a].size / 8 < 32 && Marked(sm, C[a].size / 8)
  {
    hide Marked;
    var k := SmallMember(B, C, st, tb, a);
    assert MapOK(B, st, tb, sm, tm, C[a].size / 8);
  }
}
