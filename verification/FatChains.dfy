/** Cluster chains in a file allocation table: wiinandfuse/geckonand/ff.c.
    F[c] is 0 for a free cluster c, a cluster number for a cluster with a successor,
        and |F| or more at the end of a chain. */
module FatChains {

  predicate IsCluster(F: seq<nat>, c: int) { 2 <= c < |F| }

  // ---------- tables that are sets of chains ----------

  /** Every link goes to an allocated cluster. */
  ghost predicate LinkOK(F: seq<nat>, c: int)
    requires IsCluster(F, c)
  {
    F[c] != 1 && (IsCluster(F, F[c]) ==> F[F[c]] != 0)
  }

  /** No two clusters have the same successor. */
  ghost predicate Apart(F: seq<nat>, c: int, d: int)
    requires IsCluster(F, c) && IsCluster(F, d)
  {
    IsCluster(F, F[c]) && F[c] == F[d] ==> c == d
  }

  /** Links lead down in rank: there are no cycles. */
  ghost predicate Below(F: seq<nat>, rank: seq<nat>, c: int)
    requires IsCluster(F, c) && |rank| == |F|
  {
    IsCluster(F, F[c]) ==> rank[F[c]] < rank[c]
  }

  ghost predicate Ranked(F: seq<nat>, rank: seq<nat>) {
    |rank| == |F| && forall c {:trigger Below(F, rank, c)} :: IsCluster(F, c) ==> Below(F, rank, c)
  }

  /** A set of disjoint chains without cycles. */
  ghost predicate Forest(F: seq<nat>) {
    && (forall c {:trigger LinkOK(F, c)} :: IsCluster(F, c) ==> LinkOK(F, c))
    && (forall c, d {:trigger Apart(F, c, d)} :: IsCluster(F, c) && IsCluster(F, d) ==> Apart(F, c, d))
    && exists rank :: Ranked(F, rank)
  }

  /** s is the chain of its first cluster: each cluster is linked to the next, and the last is marked as the end. */
  ghost predicate IsChain(F: seq<nat>, s: seq<nat>) {
    && |s| > 0
    && (forall i :: 0 <= i < |s| ==> IsCluster(F, s[i]))
    && (forall i :: 0 <= i < |s| - 1 ==> F[s[i]] == s[i + 1])
    && F[s[|s| - 1]] >= |F|
  }

  lemma ChainTail(F: seq<nat>, s: seq<nat>)
    requires IsChain(F, s) && |s| > 1
    ensures IsChain(F, s[1..]) && s[1] == F[s[0]]
  {
  }

  lemma LinkBefore(F: seq<nat>, s: seq<nat>, i: nat)
    requires IsChain(F, s) && 0 < i < |s|
    ensures IsCluster(F, s[i - 1]) && F[s[i - 1]] == s[i] && IsCluster(F, s[i])
  {
  }

  lemma OnlyPredecessor(F: seq<nat>, d: nat, e: nat)
    requires Forest(F) && IsCluster(F, d) && IsCluster(F, e) && F[d] == F[e] && IsCluster(F, F[d])
    ensures d == e
  {
    assert Apart(F, d, e);
  }

  lemma ChainSuffix(F: seq<nat>, s: seq<nat>, i: nat)
    requires IsChain(F, s) && i < |s|
    ensures IsChain(F, s[i..])
  {
  }

  lemma ChainAllocated(F: seq<nat>, s: seq<nat>, i: nat)
    requires IsChain(F, s) && i < |s|
    ensures F[s[i]] != 0
  {
    assert i < |s| - 1 ==> F[s[i]] == s[i + 1] && IsCluster(F, s[i + 1]);
  }

  /** A cluster has at most one chain. */
  lemma {:induction false} ChainUnique(F: seq<nat>, s: seq<nat>, t: seq<nat>)
    requires IsChain(F, s) && IsChain(F, t) && s[0] == t[0]
    ensures s == t
    decreases |s|
  {
    assert |t| > 1 ==> F[t[0]] == t[1] && IsCluster(F, t[1]);
    if |s| > 1 {
      assert F[s[0]] == s[1] && IsCluster(F, s[1]);
      ChainTail(F, s);
      ChainTail(F, t);
      ChainUnique(F, s[1..], t[1..]);
    }
  }

  ghost predicate NoRepeats(s: seq<nat>) {
    forall i, j :: 0 <= i < j < |s| ==> s[i] != s[j]
  }

  lemma ChainDistinct(F: seq<nat>, s: seq<nat>)
    requires IsChain(F, s)
    ensures NoRepeats(s)
  {
    forall i, j | 0 <= i < j < |s|
      ensures s[i] != s[j]
    {
      if s[i] == s[j] {
        ChainSuffix(F, s, i);
        ChainSuffix(F, s, j);
        ChainUnique(F, s[i..], s[j..]);
      }
    }
  }

  /** In a forest every allocated cluster has a chain. */
  lemma {:induction false} ChainExists(F: seq<nat>, rank: seq<nat>, c: nat) returns (s: seq<nat>)
    requires Forest(F) && Ranked(F, rank) && IsCluster(F, c) && F[c] != 0
    ensures IsChain(F, s) && s[0] == c
    decreases rank[c]
  {
    assert LinkOK(F, c) && Below(F, rank, c);
    if F[c] >= |F| {
      s := [c];
    } else {
      var t := ChainExists(F, rank, F[c]);
      s := [c] + t;
    }
  }

  /** Nothing links to h: it is where a chain starts. */
  ghost predicate IsHead(F: seq<nat>, h: int) {
    IsCluster(F, h) && F[h] != 0 && forall c {:trigger F[c]} :: IsCluster(F, c) ==> F[c] != h
  }

  /** s is a whole chain of the table. */
  ghost predicate WholeChain(F: seq<nat>, s: seq<nat>) {
    IsChain(F, s) && IsHead(F, s[0])
  }

  /** A number above all ranks. */
  function Bound(rank: seq<nat>): (b: nat)
    ensures forall c :: 0 <= c < |rank| ==> rank[c] < b
  {
    if rank == [] then 0
    else
      var b := Bound(rank[..|rank| - 1]);
      if rank[|rank| - 1] >= b then rank[|rank| - 1] + 1 else b
  }

  /** Following the links backwards leads to a head. */
  lemma {:induction false} Backwards(F: seq<nat>, rank: seq<nat>, s: seq<nat>) returns (t: seq<nat>)
    requires Forest(F) && Ranked(F, rank) && IsChain(F, s)
    ensures WholeChain(F, t) && |t| >= |s| && t[|t| - |s|..] == s
    decreases Bound(rank) - rank[s[0]]
  {
    if c: nat :| IsCluster(F, c) && F[c] == s[0] {
      assert Below(F, rank, c);
      t := Backwards(F, rank, [c] + s);
      assert t[|t| - |s|..] == t[|t| - |s| - 1..][1..] == s;
    } else {
      t := s;
      ChainAllocated(F, s, 0);
    }
  }

  /** Two whole chains are the same or have no cluster in common. */
  lemma WholeChainsDisjoint(F: seq<nat>, s: seq<nat>, t: seq<nat>, i: nat, j: nat)
    requires Forest(F) && WholeChain(F, s) && WholeChain(F, t) && i < |s| && j < |t| && s[i] == t[j]
    ensures s == t
    decreases i
  {
    if i == 0 && j == 0 {
      ChainUnique(F, s, t);
    } else if i == 0 {
      LinkBefore(F, t, j);
    } else if j == 0 {
      LinkBefore(F, s, i);
    } else {
      LinkBefore(F, s, i);
      LinkBefore(F, t, j);
      OnlyPredecessor(F, s[i - 1], t[j - 1]);
      WholeChainsDisjoint(F, s, t, i - 1, j - 1);
    }
  }

  /** Every allocated cluster of a forest is in exactly one of its whole chains. */
  lemma ChainsPartition(F: seq<nat>, c: nat)
    requires Forest(F) && IsCluster(F, c) && F[c] != 0
    ensures exists s :: WholeChain(F, s) && c in s
    ensures forall s, t :: WholeChain(F, s) && WholeChain(F, t) && c in s && c in t ==> s == t
  {
    var rank :| Ranked(F, rank);
    var u := ChainExists(F, rank, c);
    var v := Backwards(F, rank, u);
    assert v[|v| - |u|] == u[0];
    forall s, t | WholeChain(F, s) && WholeChain(F, t) && c in s && c in t
      ensures s == t
    {
      var i :| 0 <= i < |s| && s[i] == c;
      var j :| 0 <= j < |t| && t[j] == c;
      WholeChainsDisjoint(F, s, t, i, j);
    }
  }

  // ---------- counting ----------

  /** The number of entries from cluster c on that are not zero. */
  function AllocatedFrom(F: seq<nat>, c: nat): (n: nat)
    ensures c <= |F| ==> n <= |F| - c
    decreases |F| - c
  {
    if c >= |F| then 0 else (if F[c] != 0 then 1 else 0) + AllocatedFrom(F, c + 1)
  }

  /** The number of clusters in use. */
  function Allocated(F: seq<nat>): nat {
    AllocatedFrom(F, 2)
  }

  lemma {:induction false} CountUpdate(F: seq<nat>, c: nat, k: nat, v: nat)
    requires k < |F|
    ensures AllocatedFrom(F[k := v], c) == AllocatedFrom(F, c) + if c > k || (F[k] == 0) == (v == 0) then 0
      else if v != 0 then 1 else -1
    decreases |F| - c
  {
    if c < |F| {
      CountUpdate(F, c + 1, k, v);
    }
  }

  lemma FreeCount(F: seq<nat>, c: nat)
    requires IsCluster(F, c) && F[c] != 0
    ensures Allocated(F[c := 0]) == Allocated(F) - 1 && Allocated(F) <= |F| - 2
  {
    CountUpdate(F, 2, c, 0);
  }

  // ---------- remove_chain ----------

  /** The clusters that remove_chain frees, in order: it stops at a free cluster, at an entry 1 and past the table. */
  function Trail(F: seq<nat>, c: nat): (s: seq<nat>)
    decreases Allocated(F)
  {
    if !IsCluster(F, c) || F[c] == 0 || F[c] == 1 then []
    else
      CountUpdate(F, 2, c, 0);
      [c] + Trail(F[c := 0], F[c])
  }

  /** The trail ends at an entry 1, which remove_chain reports as an internal error. */
  predicate Broken(F: seq<nat>, c: nat)
    decreases Allocated(F)
  {
    if !IsCluster(F, c) || F[c] == 0 then false
    else if F[c] == 1 then true
    else
      CountUpdate(F, 2, c, 0);
      Broken(F[c := 0], F[c])
  }

  /** The table with the clusters of s free. */
  function Zeroed(F: seq<nat>, s: seq<nat>): (F': seq<nat>)
    ensures |F'| == |F|
    ensures forall c :: 0 <= c < |F| ==> F'[c] == if c in s then 0 else F[c]
  {
    seq(|F|, c requires 0 <= c < |F| => if c in s then 0 else F[c])
  }

  lemma {:induction false} TrailParts(F: seq<nat>, c: nat)
    ensures NoRepeats(Trail(F, c))
    ensures forall d :: d in Trail(F, c) ==> IsCluster(F, d) && F[d] != 0 && F[d] != 1
    ensures Allocated(Zeroed(F, Trail(F, c))) == Allocated(F) - |Trail(F, c)|
    decreases Allocated(F)
  {
    var s := Trail(F, c);
    if s == [] {
      assert Zeroed(F, s) == F;
    } else {
      CountUpdate(F, 2, c, 0);
      var F1 := F[c := 0];
      TrailParts(F1, F[c]);
      var t := Trail(F1, F[c]);
      assert Zeroed(F1, t) == Zeroed(F, s);
      assert c !in t;
    }
  }

  /** Where the trail of an arbitrary table ends: past the table, at an entry 1, at a free cluster or in a cycle. */
  lemma {:induction false} TrailLinks(F: seq<nat>, c: nat)
    requires Trail(F, c) != []
    ensures var s := Trail(F, c);
      && s[0] == c && (forall i :: 0 <= i < |s| ==> IsCluster(F, s[i]))
      && (forall i :: 0 <= i < |s| - 1 ==> F[s[i]] == s[i + 1])
      && var n := F[s[|s| - 1]]; n >= |F| || n in s || (2 <= n < |F| && F[n] <= 1)
    decreases Allocated(F)
  {
    var s, F1, n := Trail(F, c), F[c := 0], F[c];
    CountUpdate(F, 2, c, 0);
    var t := Trail(F1, n);
    assert s == [c] + t;
    TrailParts(F1, n);
    if t != [] {
      TrailLinks(F1, n);
      assert t[0] == n;
      assert forall d :: d in t ==> F1[d] == F[d];
      forall i | 0 <= i < |s| - 1
        ensures F[s[i]] == s[i + 1]
      {
        if i > 0 { assert F1[t[i - 1]] == t[i]; }
      }
    }
  }

  /** One turn of remove_chain. */
  lemma TrailStep(F: seq<nat>, c: nat)
    requires IsCluster(F, c) && F[c] != 0 && F[c] != 1
    ensures var F1 := F[c := 0];
      && Zeroed(F, Trail(F, c)) == Zeroed(F1, Trail(F1, F[c])) && Broken(F, c) == Broken(F1, F[c])
      && Allocated(F1) == Allocated(F) - 1
  {
    CountUpdate(F, 2, c, 0);
  }

  lemma TrailEnd(F: seq<nat>, c: nat)
    requires !IsCluster(F, c) || F[c] == 0 || F[c] == 1
    ensures Zeroed(F, Trail(F, c)) == F
    ensures Broken(F, c) == (IsCluster(F, c) && F[c] == 1)
  {
  }

  /** The trail of a proper chain does not end at an entry 1. */
  lemma {:induction false} ChainNotBroken(F: seq<nat>, s: seq<nat>)
    requires IsChain(F, s)
    ensures !Broken(F, s[0])
    decreases |s|
  {
    ChainDistinct(F, s);
    ChainAllocated(F, s, 0);
    var c, F1 := s[0], F[s[0] := 0];
    CountUpdate(F, 2, c, 0);
    if |s| > 1 {
      var t := s[1..];
      assert F[c] == s[1] && IsCluster(F, s[1]);
      assert IsChain(F1, t);
      ChainNotBroken(F1, t);
    }
  }

  /** Of a proper chain, exactly its clusters are freed. */
  lemma {:induction false} TrailOfChain(F: seq<nat>, s: seq<nat>)
    requires IsChain(F, s)
    ensures Trail(F, s[0]) == s
    decreases |s|
  {
    ChainDistinct(F, s);
    var c, F1 := s[0], F[s[0] := 0];
    if |s| == 1 {
      assert Trail(F1, F[c]) == [];
    } else {
      var t := s[1..];
      assert IsChain(F1, t);
      TrailOfChain(F1, t);
    }
  }

  /** Freeing a whole chain leaves a forest of the other chains. */
  lemma RemoveKeepsForest(F: seq<nat>, c: nat)
    requires Forest(F) && IsHead(F, c)
    ensures Forest(Zeroed(F, Trail(F, c)))
    ensures IsChain(F, Trail(F, c)) && Trail(F, c)[0] == c
  {
    var rank :| Ranked(F, rank);
    var s := ChainExists(F, rank, c);
    TrailOfChain(F, s);
    var F' := Zeroed(F, s);
    forall d | IsCluster(F', d)
      ensures LinkOK(F', d) && Below(F', rank, d)
    {
      assert LinkOK(F, d) && Below(F, rank, d);
      if d !in s && IsCluster(F, F[d]) && F[d] in s {
        var i :| 0 <= i < |s| && s[i] == F[d];
        if i > 0 {
          LinkBefore(F, s, i);
          OnlyPredecessor(F, d, s[i - 1]);
        }
      }
    }
    forall d, e | IsCluster(F', d) && IsCluster(F', e)
      ensures Apart(F', d, e)
    {
      assert Apart(F, d, e);
    }
    assert Ranked(F', rank);
  }

  // ---------- create_chain ----------

  /** Cluster k is met before n, or is n, when the search goes from the one after scl to the end and on from 2. */
  predicate Scanned(scl: nat, n: nat, k: nat) {
    if n >= scl then scl < k <= n else k > scl || k <= n
  }

  /** No cluster met so far is free or has an entry 1. */
  ghost predicate NoneFree(F: seq<nat>, scl: nat, n: nat) {
    forall k: nat {:trigger Scanned(scl, n, k)} :: IsCluster(F, k) && Scanned(scl, n, k) ==> F[k] >= 2
  }

  ghost predicate Full(F: seq<nat>) {
    forall k: nat {:trigger F[k]} :: IsCluster(F, k) ==> F[k] != 0
  }

  lemma ScanNext(F: seq<nat>, scl: nat, n: nat, n': nat)
    requires NoneFree(F, scl, n) && (n == scl || IsCluster(F, n)) && scl < |F| && scl >= 1
    requires n' == if n + 1 >= |F| then 2 else n + 1
    requires IsCluster(F, n') && F[n'] >= 2 && n' != scl && !(n' == 2 && n' > scl && n + 1 >= |F|)
    ensures NoneFree(F, scl, n')
  {
    forall k: nat {:trigger Scanned(scl, n', k)} | IsCluster(F, k) && Scanned(scl, n', k)
      ensures F[k] >= 2
    {
      assert k != n' ==> Scanned(scl, n, k);
    }
  }

  lemma ScanStart(F: seq<nat>, scl: nat)
    ensures NoneFree(F, scl, scl)
  {
    assert forall k: nat {:trigger Scanned(scl, scl, k)} :: !Scanned(scl, scl, k);
  }

  /** n is the first free cluster after scl, in the order of the search. */
  ghost predicate NextFree(F: seq<nat>, scl: nat, n: nat)
    requires IsCluster(F, n)
  {
    F[n] == 0 && forall k: nat {:trigger F[k]} ::
        IsCluster(F, k) && k != n && (if n > scl then scl < k < n else k > scl || k < n) ==> F[k] >= 2
  }

  lemma FoundFree(F: seq<nat>, scl: nat, n: nat, n': nat)
    requires NoneFree(F, scl, n) && (n == scl || IsCluster(F, n)) && 1 <= scl < |F|
    requires n' == if n + 1 >= |F| then 2 else n + 1
    requires IsCluster(F, n') && F[n'] == 0 && !(n' == 2 && n' > scl && n + 1 >= |F|)
    ensures NextFree(F, scl, n')
  {
    forall k: nat {:trigger F[k]} | IsCluster(F, k) && k != n' && (if n' > scl then scl < k < n' else k > scl || k < n')
      ensures F[k] >= 2
    {
      assert Scanned(scl, n, k);
    }
  }

  /** After the last cluster of the search, none is free. */
  lemma ScanFull(F: seq<nat>, scl: nat, n: nat)
    requires NoneFree(F, scl, n) && (n == scl || IsCluster(F, n)) && 1 <= scl < |F|
    requires (n + 1 >= |F| && scl < 2) || (n + 1 == scl && F[scl] >= 2) || (n + 1 >= |F| && scl == 2 && F[2] >= 2)
    ensures Full(F)
  {
    forall k: nat {:trigger F[k]} | IsCluster(F, k)
      ensures F[k] != 0
    {
      assert k != scl ==> Scanned(scl, n, k);
    }
  }

  /** The rank of a table whose cluster n has been put below all others. */
  function Raised(rank: seq<nat>, n: nat): (r: seq<nat>)
    ensures |r| == |rank|
    ensures forall c :: 0 <= c < |rank| ==> r[c] == if c == n then 0 else rank[c] + 1
  {
    seq(|rank|, c requires 0 <= c < |rank| => if c == n then 0 else rank[c] + 1)
  }

  /** The table with the free cluster n at the end of the chain that ends in c, or as a chain of its own if c is 0. */
  function Appended(F: seq<nat>, c: nat, n: nat, eoc: nat): (F': seq<nat>)
    requires n < |F| && (c == 0 || c < |F|)
  {
    if c == 0 then F[n := eoc] else F[n := eoc][c := n]
  }

  /** Where the search for a free cluster starts. */
  function SearchStart(F: seq<nat>, clst: nat, last: nat): nat {
    if clst != 0 then clst else if last == 0 || last >= |F| then 1 else last
  }

  /** What create_chain delivers: the successor if there is one already, an error for a free or impossible cluster,
      0 if no cluster is free, and otherwise the next free cluster, at the end of the chain. */
  ghost predicate Created(F: seq<nat>, clst: nat, last: nat, eoc: nat, r: nat, F': seq<nat>) {
    if clst != 0 && (!IsCluster(F, clst) || F[clst] < 2) then r == 1 && F' == F
    else if clst != 0 && F[clst] < |F| then r == F[clst] && F' == F
    else if r == 0 then Full(F) && F' == F
    else if r == 1 then (exists k :: IsCluster(F, k) && F[k] == 1) && F' == F
    else IsCluster(F, r) && NextFree(F, SearchStart(F, clst, last), r) && F' == Appended(F, clst, r, eoc)
  }

  lemma NoErrors(F: seq<nat>)
    requires Forest(F)
    ensures forall k :: IsCluster(F, k) ==> F[k] != 1
  {
    forall k | IsCluster(F, k)
      ensures F[k] != 1
    {
      assert LinkOK(F, k);
    }
  }

  /** On a set of chains: full exactly if no cluster is free, and never an internal error for an allocated cluster. */
  lemma CreatedInForest(F: seq<nat>, clst: nat, last: nat, eoc: nat, r: nat, F': seq<nat>)
    requires Forest(F) && Created(F, clst, last, eoc, r, F') && eoc >= |F|
    requires clst == 0 || (IsCluster(F, clst) && F[clst] != 0)
    ensures Forest(F') && r != 1
    ensures clst == 0 || F[clst] >= |F| ==> (r == 0 <==> Full(F))
  {
    NoErrors(F);
    if r >= 2 && F' != F {
      AppendKeepsForest(F, clst, r, eoc);
    }
  }

  lemma AppendKeepsForest(F: seq<nat>, c: nat, n: nat, eoc: nat)
    requires Forest(F) && IsCluster(F, n) && F[n] == 0 && eoc >= |F|
    requires c == 0 || (IsCluster(F, c) && F[c] >= |F|)
    ensures Forest(Appended(F, c, n, eoc))
  {
    var rank :| Ranked(F, rank);
    var F' := Appended(F, c, n, eoc);
    var r := Raised(rank, n);
    forall d | IsCluster(F, d)
      ensures F[d] != n
    {
      assert LinkOK(F, d);
    }
    forall d | IsCluster(F', d)
      ensures LinkOK(F', d) && Below(F', r, d)
    {
      assert LinkOK(F, d) && Below(F, rank, d);
    }
    forall d, e | IsCluster(F', d) && IsCluster(F', e)
      ensures Apart(F', d, e)
    {
      assert Apart(F, d, e);
    }
    assert Ranked(F', r);
  }

  lemma AppendCount(F: seq<nat>, c: nat, n: nat, eoc: nat)
    requires IsCluster(F, n) && F[n] == 0 && eoc > 0 && n > 0
    requires c == 0 || (IsCluster(F, c) && F[c] != 0)
    ensures Allocated(Appended(F, c, n, eoc)) == Allocated(F) + 1
  {
    CountUpdate(F, 2, n, eoc);
    if c != 0 { CountUpdate(F[n := eoc], 2, c, n); }
  }

  /** The chain of c grows by one cluster and every other chain stays. */
  lemma AppendChain(F: seq<nat>, s: seq<nat>, n: nat, eoc: nat)
    requires Forest(F) && IsChain(F, s) && IsCluster(F, n) && F[n] == 0 && eoc >= |F|
    ensures IsChain(Appended(F, s[|s| - 1], n, eoc), s + [n])
    ensures n !in s
  {
    ChainDistinct(F, s);
    forall i | 0 <= i < |s| ensures F[s[i]] != 0 { ChainAllocated(F, s, i); }
    var F' := Appended(F, s[|s| - 1], n, eoc);
    var t := s + [n];
    forall i | 0 <= i < |t| - 1
      ensures F'[t[i]] == t[i + 1]
    {
      assert t[i] == s[i];
    }
  }

  /** A whole chain without the cluster appended to stays a whole chain. */
  lemma OtherChain(F: seq<nat>, c: nat, n: nat, eoc: nat, t: seq<nat>)
    requires Forest(F) && IsCluster(F, n) && F[n] == 0 && eoc >= |F| && (c == 0 || (IsCluster(F, c) && F[c] >= |F|))
    requires IsChain(F, t) && c !in t
    ensures IsChain(Appended(F, c, n, eoc), t)
  {
    forall i | 0 <= i < |t| ensures F[t[i]] != 0 { ChainAllocated(F, t, i); }
  }

  // ---------- f_truncate ----------

  /** Marking c as the end of its chain makes its successor the head of a chain. */
  lemma CutKeepsForest(F: seq<nat>, c: nat, eoc: nat)
    requires Forest(F) && IsCluster(F, c) && F[c] != 0 && eoc >= |F|
    ensures Forest(F[c := eoc]) && (IsCluster(F, F[c]) ==> IsHead(F[c := eoc], F[c]))
    ensures Allocated(F[c := eoc]) == Allocated(F)
  {
    var rank :| Ranked(F, rank);
    var F' := F[c := eoc];
    CountUpdate(F, 2, c, eoc);
    assert LinkOK(F, c) && Below(F, rank, c);
    forall d | IsCluster(F', d)
      ensures LinkOK(F', d) && Below(F', rank, d)
    {
      assert LinkOK(F, d) && Below(F, rank, d);
    }
    forall d, e | IsCluster(F', d) && IsCluster(F', e)
      ensures Apart(F', d, e)
    {
      assert Apart(F, d, e);
    }
    assert Ranked(F', rank);
    if IsCluster(F, F[c]) {
      forall d | IsCluster(F', d)
        ensures F'[d] != F[c]
      {
        assert Apart(F, d, c);
      }
    }
  }
}
