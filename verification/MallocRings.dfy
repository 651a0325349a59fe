/** Circular lists of equal-sized free chunks: the fd and bk links of wiinandfuse/geckonand/malloc.c. */
module Rings {
  import opened Tries

  function After(k: int, n: int): int { if k + 1 == n then 0 else k + 1 }

  function Before(k: int, n: int): int { if k == 0 then n - 1 else k - 1 }

  ghost predicate LinkAt(L: Links, s: seq<int>, k: int)
    requires 0 <= k < |s|
  {
    var next := s[After(k, |s|)];
    s[k] in L && next in L && L[s[k]].fd == next && L[next].bk == s[k]
  }

  ghost predicate Linked(L: Links, s: seq<int>) {
    forall k {:trigger LinkAt(L, s, k)} :: 0 <= k < |s| ==> LinkAt(L, s, k)
  }

  ghost predicate NoDup(s: seq<int>) {
    forall j, k :: 0 <= j < k < |s| ==> s[j] != s[k]
  }

  /** s is one closed list, in the order of the forward links. */
  ghost predicate Ring(L: Links, s: seq<int>) {
    |s| >= 1 && NoDup(s) && Linked(L, s)
  }

  lemma Neighbours(L: Links, s: seq<int>, k: int)
    requires Linked(L, s) && 0 <= k < |s|
    ensures s[k] in L && L[s[k]].fd == s[After(k, |s|)] && L[s[k]].bk == s[Before(k, |s|)]
  {
    assert LinkAt(L, s, k);
    assert LinkAt(L, s, Before(k, |s|));
  }

  /** An element whose neighbours coincide is alone, or has one other element beside it. */
  lemma SameNeighbours(L: Links, s: seq<int>, k: int)
    requires Ring(L, s) && 0 <= k < |s|
    ensures s[k] in L && (L[s[k]].fd == L[s[k]].bk <==> |s| <= 2) && (L[s[k]].bk == s[k] <==> |s| == 1)
  {
    Neighbours(L, s, k);
  }

  lemma KeepRing(L: Links, s: seq<int>, L': Links)
    requires Ring(L, s)
    requires forall x :: x in s && x in L ==> x in L' && L'[x].fd == L[x].fd && L'[x].bk == L[x].bk
    ensures Ring(L', s)
  {
    forall k | 0 <= k < |s|
      ensures LinkAt(L', s, k)
    {
      assert LinkAt(L, s, k);
      assert s[k] in s && s[After(k, |s|)] in s;
    }
  }

  /** The ring with x linked in behind its first element. */
  function Grown(s: seq<int>, x: int): (r: seq<int>)
    requires |s| >= 1
    ensures |r| == |s| + 1 && r[0] == s[0] && r[1] == x
  {
    [s[0], x] + s[1..]
  }

  lemma GrowRing(L: Links, s: seq<int>, x: int, L': Links)
    requires Ring(L, s) && x !in s && s[0] in L
    requires var h := s[0]; var f := L[h].fd;
      && x in L' && L'[x].fd == f && L'[x].bk == h
      && forall y :: y in s && y in L ==>
           y in L' && L'[y].fd == (if y == h then x else L[y].fd) && L'[y].bk == (if y == f then x else L[y].bk)
    ensures Ring(L', Grown(s, x))
  {
    var r, n := Grown(s, x), |s|;
    assert forall j :: 2 <= j <= n ==> r[j] == s[j - 1];
    Neighbours(L, s, 0);
    forall k | 0 <= k < |r|
      ensures LinkAt(L', r, k)
    {
      if k >= 2 {
        Neighbours(L, s, k - 1);
        assert s[k - 1] in s && s[After(k - 1, n)] in s;
        Neighbours(L, s, After(k - 1, n));
      } else {
        assert s[0] in s && s[After(0, n)] in s;
        Neighbours(L, s, After(0, n));
      }
    }
  }

  /** The ring of two that starts an empty small bin. */
  lemma PairRing(L: Links, h: int, x: int)
    requires h != x && h in L && x in L && L[h].fd == L[h].bk == x && L[x].fd == L[x].bk == h
    ensures Ring(L, [h, x])
  {
    assert LinkAt(L, [h, x], 0) && LinkAt(L, [h, x], 1);
  }

  lemma SingleRing(L: Links, x: int)
    requires x in L && L[x].fd == L[x].bk == x
    ensures Ring(L, [x])
  {
    assert LinkAt(L, [x], 0);
  }

  /** The ring without its k-th element; when that is the first, the last takes its place. */
  function Shrunk(s: seq<int>, k: int): (r: seq<int>)
    requires 0 <= k < |s| && |s| >= 2
    ensures |r| == |s| - 1
  {
    if k == 0 then [s[|s| - 1]] + s[1..|s| - 1] else s[..k] + s[k + 1..]
  }

  /** What unlinking the k-th element does to the links of the others. */
  ghost predicate Bypassed(L: Links, s: seq<int>, k: int, L': Links)
    requires 0 <= k < |s| && s[k] in L
  {
    var x, f, b := s[k], L[s[k]].fd, L[s[k]].bk;
    forall y :: y in s && y in L && y != x ==>
      y in L' && L'[y].fd == (if y == b then f else L[y].fd) && L'[y].bk == (if y == f then b else L[y].bk)
  }

  lemma ShrinkRing(L: Links, s: seq<int>, k: int, L': Links)
    requires Ring(L, s) && 0 <= k < |s| && |s| >= 2 && s[k] in L && Bypassed(L, s, k, L')
    ensures Ring(L', Shrunk(s, k))
  {
    var r, n := Shrunk(s, k), |s|;
    Neighbours(L, s, k);
    forall i | 0 <= i < |r|
      ensures LinkAt(L', r, i)
    {
      var j := if k == 0 then (if i == 0 then n - 1 else i) else if i < k then i else i + 1;
      assert r[i] == s[j];
      Neighbours(L, s, j);
      var m := After(j, n);
      var m' := if m == k then After(k, n) else m;
      assert r[After(i, n - 1)] == s[m'];
      Neighbours(L, s, m);
      Neighbours(L, s, m');
      assert s[j] in s && s[m'] in s;
    }
  }

  lemma ShrunkMembers(s: seq<int>, k: int, y: int)
    requires 0 <= k < |s| && |s| >= 2 && NoDup(s)
    ensures y in Shrunk(s, k) <==> y in s && y != s[k]
  {
    var r, n := Shrunk(s, k), |s|;
    if y in s && y != s[k] {
      var j :| 0 <= j < n && s[j] == y;
      var i := if k == 0 then (if j == n - 1 then 0 else j) else if j < k then j else j - 1;
      assert r[i] == y;
    }
    if y in r {
      var i :| 0 <= i < |r| && r[i] == y;
      var j := if k == 0 then (if i == 0 then n - 1 else i) else if i < k then i else i + 1;
      assert s[j] == y && j != k;
    }
  }

  lemma GrownMembers(s: seq<int>, x: int, y: int)
    requires |s| >= 1
    ensures y in Grown(s, x) <==> y in s || y == x
  {
    assert s == [s[0]] + s[1..];
  }
}
