/** A caller of the allocator: any sequence of requests and writes, wiinandfuse/geckonand/malloc.c. */
module Client {
  import Arith
  import opened Sizes
  import opened Chunks
  import opened Segments
  import opened Copying
  import opened Malloc

  // ---------- what the caller sees ----------

  /** A block as the caller knows it: the bytes asked for, and those written so far. */
  datatype Block = Block(bytes: int, data: map<int, int>)

  datatype Op =
    | Alloc(bytes: int)
    | AllocAligned(alignment: nat, bytes: int)
    | Resize(i: nat, bytes: int)
    | Release(i: nat)
    | Put(i: nat, off: nat, v: int)

  predicate Fair(op: Op) {
    match op
    case Alloc(bytes) => 0 <= bytes < WORD
    case AllocAligned(alignment, bytes) => alignment <= 0x8000_0000 && 0 <= bytes < WORD
    case Resize(_, bytes) => 0 <= bytes < WORD
    case _ => true
  }

  predicate CanPut(s: seq<Block>, i: nat, off: nat) {
    i < |s| && off % 4 == 0 && off + 4 <= s[i].bytes
  }

  function Written(d: map<int, int>, off: nat, v: int): map<int, int> {
    d[off := ByteOf(v, 0)][off + 1 := ByteOf(v, 1)][off + 2 := ByteOf(v, 2)][off + 3 := ByteOf(v, 3)]
  }

  function Below(d: map<int, int>, n: int): map<int, int> {
    map o | o in d && o < n :: d[o]
  }

  /** The caller's view after an operation that succeeds or not: blocks are independent stores of bytes. */
  function Played(s: seq<Block>, op: Op, ok: bool): seq<Block> {
    match op
    case Alloc(bytes) => if ok then s + [Block(bytes, map[])] else s
    case AllocAligned(_, bytes) => if ok then s + [Block(bytes, map[])] else s
    case Resize(i, bytes) => if ok && i < |s| then s[i := Block(bytes, Below(s[i].data, bytes))] else s
    case Release(i) => if i < |s| then s[..i] + s[i + 1..] else s
    case Put(i, off, v) => if CanPut(s, i, off) then s[i := s[i].(data := Written(s[i].data, off, v))] else s
  }

  function Play(ops: seq<Op>, oks: seq<bool>): seq<Block>
    requires |ops| == |oks|
  {
    if ops == [] then []
    else
      var n := |ops| - 1;
      Played(Play(ops[..n], oks[..n]), ops[n], oks[n])
  }

  // ---------- what the heap holds ----------

  ghost predicate Holds(m: Mem, p: int, b: Block) {
    forall o {:trigger b.data[o]} :: o in b.data ==> 0 <= o < b.bytes && ByteAt(m, p + o) == b.data[o]
  }

  /** Block b is a live chunk with room for it, aligned, and its written bytes are in memory. */
  ghost predicate EntryOK(C: Chunks, m: Mem, p: int, b: Block) {
    && p % 8 == 0 && p > 8 && p - 8 in C && C[p - 8].kind == Used && 0 <= b.bytes <= C[p - 8].size - 4 && Holds(m, p, b)
  }

  ghost predicate Distinct(ptrs: seq<int>) {
    forall i, j :: 0 <= i < j < |ptrs| ==> ptrs[i] != ptrs[j]
  }

  predicate Pointed(ptrs: seq<int>, a: int) {
    a + 8 in ptrs
  }

  predicate Aims(ptrs: seq<int>, live: set<int>, i: nat)
    requires i < |ptrs|
  {
    ptrs[i] - 8 in live
  }

  /** The pointers are those of the chunks of live, each once. */
  ghost predicate Points(ptrs: seq<int>, live: set<int>) {
    && Distinct(ptrs)
    && (forall a {:trigger Pointed(ptrs, a)} :: a in live ==> Pointed(ptrs, a))
    && (forall i {:trigger Aims(ptrs, live, i)} :: 0 <= i < |ptrs| ==> Aims(ptrs, live, i))
  }

  /** The live chunks are the caller's blocks. */
  ghost predicate Owned(C: Chunks, ptrs: seq<int>) {
    Points(ptrs, Live(C))
  }

  ghost predicate Entries(C: Chunks, m: Mem, ptrs: seq<int>, s: seq<Block>) {
    && |ptrs| == |s|
    && forall i {:trigger EntryOK(C, m, ptrs[i], s[i])} :: 0 <= i < |s| ==> EntryOK(C, m, ptrs[i], s[i])
  }

  /** A block whose chunk is not disturbed keeps its bytes. */
  lemma EntryStays(C0: Chunks, m0: Mem, C: Chunks, m: Mem, p: int, b: Block)
    requires EntryOK(C0, m0, p, b) && Survives(C0, m0, C, m, p - 8)
    ensures EntryOK(C, m, p, b)
  {
    hide ByteAt, Undisturbed;
    forall o | o in b.data
      ensures 0 <= o < b.bytes && ByteAt(m, p + o) == b.data[o]
    {
      assert 0 <= o < b.bytes && ByteAt(m0, p + o) == b.data[o];
      ByteStays(m0, m, p, o, C0[p - 8].size);
    }
  }

  lemma ByteStays(m0: Mem, m: Mem, p: int, o: int, size: int)
    requires p % 8 == 0 && 0 <= o < size - 4 && Undisturbed(m0, m, p - 8, size)
    ensures ByteAt(m, p + o) == ByteAt(m0, p + o)
  {
    FourAligned(p);
    Position(p, o);
    hide ByteOf, Get;
  }

  lemma FourAligned(p: int)
    requires p % 8 == 0
    ensures p % 4 == 0
  {
    var q := p / 8;
    assert p == (2 * q) * 4;
    Arith.DivModUnique(p, 2 * q, 4, 0);
  }

  lemma EntriesStay(C0: Chunks, m0: Mem, C: Chunks, m: Mem, ptrs: seq<int>, s: seq<Block>)
    requires Entries(C0, m0, ptrs, s) && BlocksKept(C0, m0, C, m, 0)
    ensures Entries(C, m, ptrs, s)
  {
    forall i | 0 <= i < |s|
      ensures EntryOK(C, m, ptrs[i], s[i])
    {
      assert EntryOK(C0, m0, ptrs[i], s[i]);
      assert Survives(C0, m0, C, m, ptrs[i] - 8);
      EntryStays(C0, m0, C, m, ptrs[i], s[i]);
    }
  }

  /** A new live chunk becomes the caller's last block. */
  lemma EntryAdded(C0: Chunks, m0: Mem, C: Chunks, m: Mem, ptrs: seq<int>, s: seq<Block>, p: int, bytes: int)
    requires Owned(C0, ptrs) && Entries(C0, m0, ptrs, s) && BlocksKept(C0, m0, C, m, 0)
    requires p - 8 !in Live(C0) && Live(C) == Live(C0) + {p - 8}
    requires EntryOK(C, m, p, Block(bytes, map[]))
    ensures Owned(C, ptrs + [p]) && Entries(C, m, ptrs + [p], s + [Block(bytes, map[])])
  {
    EntriesStay(C0, m0, C, m, ptrs, s);
    hide Live, EntryOK, BlocksKept, Points;
    var t, u := ptrs + [p], s + [Block(bytes, map[])];
    forall i | 0 <= i < |u|
      ensures EntryOK(C, m, t[i], u[i])
    {
      assert i < |s| ==> EntryOK(C, m, ptrs[i], s[i]);
    }
    PointsAdded(ptrs, Live(C0), p);
  }

  lemma PointsAdded(ptrs: seq<int>, live: set<int>, p: int)
    requires Points(ptrs, live) && p - 8 !in live
    ensures Points(ptrs + [p], live + {p - 8})
  {
    var t, all := ptrs + [p], live + {p - 8};
    forall i | 0 <= i < |t|
      ensures Aims(t, all, i) && (i < |ptrs| ==> t[i] != p)
    {
      assert i < |ptrs| ==> Aims(ptrs, live, i);
    }
    forall a | a in all
      ensures Pointed(t, a)
    {
      assert a in live ==> Pointed(ptrs, a);
      assert t[|ptrs|] == p;
    }
  }

  /** The block of pointer i is given up. */
  lemma EntryRemoved(C0: Chunks, m0: Mem, C: Chunks, m: Mem, ptrs: seq<int>, s: seq<Block>, i: nat)
    requires Owned(C0, ptrs) && Entries(C0, m0, ptrs, s) && i < |s|
    requires BlocksKept(C0, m0, C, m, ptrs[i] - 8) && Live(C) == Live(C0) - {ptrs[i] - 8}
    ensures Owned(C, ptrs[..i] + ptrs[i + 1..]) && Entries(C, m, ptrs[..i] + ptrs[i + 1..], s[..i] + s[i + 1..])
  {
    var t, u := ptrs[..i] + ptrs[i + 1..], s[..i] + s[i + 1..];
    forall k | 0 <= k < |u|
      ensures EntryOK(C, m, t[k], u[k])
    {
      OtherEntry(C0, m0, C, m, ptrs, s, i, if k < i then k else k + 1);
    }
    PointsRemoved(ptrs, Live(C0), i);
  }

  lemma PointsRemoved(ptrs: seq<int>, live: set<int>, i: nat)
    requires Points(ptrs, live) && i < |ptrs|
    ensures Points(ptrs[..i] + ptrs[i + 1..], live - {ptrs[i] - 8})
  {
    var t, rest := ptrs[..i] + ptrs[i + 1..], live - {ptrs[i] - 8};
    forall j | 0 <= j < |t|
      ensures Aims(t, rest, j)
    {
      assert Aims(ptrs, live, if j < i then j else j + 1);
    }
    forall a | a in rest
      ensures Pointed(t, a)
    {
      assert Pointed(ptrs, a);
      var j :| 0 <= j < |ptrs| && ptrs[j] == a + 8;
      assert j < i ==> t[j] == a + 8;
      assert j > i ==> t[j - 1] == a + 8;
    }
  }

  lemma OtherEntry(C0: Chunks, m0: Mem, C: Chunks, m: Mem, ptrs: seq<int>, s: seq<Block>, i: nat, k: nat)
    requires Owned(C0, ptrs) && Entries(C0, m0, ptrs, s) && i < |s| && k < |s| && k != i
    requires BlocksKept(C0, m0, C, m, ptrs[i] - 8)
    ensures EntryOK(C, m, ptrs[k], s[k])
  {
    assert ptrs[k] != ptrs[i];
    assert EntryOK(C0, m0, ptrs[k], s[k]);
    assert Survives(C0, m0, C, m, ptrs[k] - 8);
    EntryStays(C0, m0, C, m, ptrs[k], s[k]);
  }

  /** The block of pointer i is replaced by that of pointer p, which is the same or new. */
  lemma EntryReplaced(C0: Chunks, m0: Mem, C: Chunks, m: Mem, ptrs: seq<int>, s: seq<Block>, i: nat, p: int, b: Block)
    requires Owned(C0, ptrs) && Entries(C0, m0, ptrs, s) && i < |s|
    requires BlocksKept(C0, m0, C, m, ptrs[i] - 8) && Live(C) == Live(C0) - {ptrs[i] - 8} + {p - 8}
    requires p == ptrs[i] || p - 8 !in Live(C0)
    requires EntryOK(C, m, p, b)
    ensures Owned(C, ptrs[i := p]) && Entries(C, m, ptrs[i := p], s[i := b])
  {
    var t, u := ptrs[i := p], s[i := b];
    forall k | 0 <= k < |u|
      ensures EntryOK(C, m, t[k], u[k])
    {
      if k != i { OtherEntry(C0, m0, C, m, ptrs, s, i, k); }
    }
    PointsReplaced(ptrs, Live(C0), i, p);
  }

  lemma PointsReplaced(ptrs: seq<int>, live: set<int>, i: nat, p: int)
    requires Points(ptrs, live) && i < |ptrs| && (p == ptrs[i] || p - 8 !in live)
    ensures Points(ptrs[i := p], live - {ptrs[i] - 8} + {p - 8})
  {
    var t, now := ptrs[i := p], live - {ptrs[i] - 8} + {p - 8};
    forall j | 0 <= j < |t|
      ensures Aims(t, now, j) && (j != i ==> t[j] != p)
    {
      assert Aims(ptrs, live, j);
    }
    forall a | a in now
      ensures Pointed(t, a)
    {
      if a == p - 8 {
        assert t[i] == a + 8;
      } else {
        assert Pointed(ptrs, a);
        var j :| 0 <= j < |ptrs| && ptrs[j] == a + 8;
        assert t[j] == a + 8;
      }
    }
  }

  // ---------- requests that cannot be met ----------

  /** Why an operation fails: its request cannot be met. */
  ghost predicate Denied(h: Heap, op: Op)
    requires Fair(op)
    reads h
  {
    match op
    case Alloc(bytes) => h.NoRoom(bytes)
    case AllocAligned(alignment, bytes) => h.NoAlignedRoom(alignment, bytes)
    case Resize(_, bytes) => h.NoRoom(bytes)
    case _ => false
  }

  /** The bytes that malloc is asked for. */
  function Asked(op: Op): int
    requires Fair(op)
  {
    match op
    case Alloc(bytes) => bytes
    case AllocAligned(alignment, bytes) =>
      if bytes < Heap.AlignedLimit(alignment) then
        Heap.AlignedFits(alignment, bytes); Heap.AlignedRequest(alignment, bytes)
      else MAX_REQUEST
    case Resize(_, bytes) => bytes
    case _ => 0
  }

  /** The request is not too large for MORECORE, however much memory there is. */
  predicate Modest(op: Op)
    requires Fair(op)
  {
    0 <= Asked(op) < MAX_REQUEST && Heap.Growth(Asked(op)) < HALF_MAX
  }

  /** The bytes that an operation may add to the segment. */
  function Need(op: Op): (n: int)
    requires Fair(op) && Modest(op)
  {
    Heap.Growth(Asked(op))
  }

  function Total(ops: seq<Op>): int
    requires forall op :: op in ops ==> Fair(op) && Modest(op)
  {
    if ops == [] then 0 else Total(ops[..|ops| - 1]) + Need(ops[|ops| - 1])
  }

  lemma NeedPositive(op: Op)
    requires Fair(op) && Modest(op)
    ensures Need(op) > 0
  {
    Heap.DemandPositive(RequestSize(Asked(op)));
  }

  lemma {:induction false} TotalGrows(ops: seq<Op>, n: nat)
    requires forall op :: op in ops ==> Fair(op) && Modest(op)
    requires n <= |ops|
    ensures Total(ops[..n]) <= Total(ops)
    decreases |ops|
  {
    hide Need, Modest, Fair;
    if n == |ops| {
      assert ops[..n] == ops;
    } else {
      var m := |ops| - 1;
      assert ops[..m][..n] == ops[..n];
      assert ops[m] in ops;
      NeedPositive(ops[m]);
      TotalGrows(ops[..m], n);
    }
  }

  /** With that much memory left no modest request is denied. */
  lemma NotDenied(h: Heap, op: Op)
    requires Fair(op) && Modest(op) && h.brk + Need(op) <= h.limit
    ensures !Denied(h, op)
  {
    hide NoBinFits, Heap.Demand;
  }

  // ---------- one operation ----------

  ghost predicate Served(h: Heap, ptrs: seq<int>, s: seq<Block>)
    reads h
  {
    h.Valid() && Owned(h.C, ptrs) && Entries(h.C, h.mem, ptrs, s)
  }

  lemma NewEntry(h: Heap, p: int, bytes: int)
    requires h.Valid() && p - 8 in Live(h.C) && p - 8 in h.C && p % 8 == 0 && 0 <= bytes < MAX_REQUEST
    requires RequestSize(bytes) <= h.C[p - 8].size
    ensures EntryOK(h.C, h.mem, p, Block(bytes, map[]))
  {
    h.LiveFacts(p - 8);
  }

  method DoAlloc(h: Heap, bytes: int, ptrs: seq<int>, s: seq<Block>) returns (now: seq<int>, ok: bool)
    requires Served(h, ptrs, s) && 0 <= bytes < WORD
    modifies h
    ensures Served(h, now, Played(s, Alloc(bytes), ok))
    ensures !ok ==> old(Denied(h, Alloc(bytes)))
    ensures Modest(Alloc(bytes)) ==> old(h.brk) <= h.brk <= old(h.brk) + Need(Alloc(bytes))
  {
    hide Live, BlocksKept, Owned, Entries, EntryOK, RequestSize, FitRule, NoBinFits, Heap.Refused, Heap.Valid;
    hide Heap.NoRoom, Heap.Growth;
    ghost var C0, m0 := h.C, h.mem;
    var ret := h.DlMalloc(bytes);
    ok := ret != 0;
    if ok {
      now := ptrs + [ret];
      InLive(h.C, ret - 8);
      NewEntry(h, ret, bytes);
      EntryAdded(C0, m0, h.C, h.mem, ptrs, s, ret, bytes);
    } else {
      now := ptrs;
      NothingChanged(C0, m0, h.C, h.mem, ptrs, s);
    }
  }

  lemma InLive(C: Chunks, a: int)
    requires a in C && C[a].kind == Used
    ensures a in Live(C)
  {
  }

  lemma NothingChanged(C0: Chunks, m0: Mem, C: Chunks, m: Mem, ptrs: seq<int>, s: seq<Block>)
    requires Owned(C0, ptrs) && Entries(C0, m0, ptrs, s) && Live(C) == Live(C0) && BlocksKept(C0, m0, C, m, 0)
    ensures Owned(C, ptrs) && Entries(C, m, ptrs, s)
  {
    EntriesStay(C0, m0, C, m, ptrs, s);
  }

  method DoAligned(h: Heap, alignment: nat, bytes: int, ptrs: seq<int>, s: seq<Block>) returns (now: seq<int>, ok: bool)
    requires Served(h, ptrs, s) && alignment <= 0x8000_0000 && 0 <= bytes < WORD
    modifies h
    ensures Served(h, now, Played(s, AllocAligned(alignment, bytes), ok))
    ensures !ok ==> old(Denied(h, AllocAligned(alignment, bytes)))
    ensures Modest(AllocAligned(alignment, bytes)) ==>
      old(h.brk) <= h.brk <= old(h.brk) + Need(AllocAligned(alignment, bytes))
  {
    hide Live, BlocksKept, Owned, Entries, EntryOK, RequestSize, Heap.Valid;
    ghost var C0, m0 := h.C, h.mem;
    var ret := h.DlMemalign(alignment, bytes);
    ok := ret != 0;
    if ok {
      now := ptrs + [ret];
      NewEntry(h, ret, bytes);
      EntryAdded(C0, m0, h.C, h.mem, ptrs, s, ret, bytes);
    } else {
      now := ptrs;
      NothingChanged(C0, m0, h.C, h.mem, ptrs, s);
    }
  }

  /** What a block has below n is there after realloc to n bytes. */
  lemma EntryMoved(C0: Chunks, m0: Mem, C: Chunks, m: Mem, q: int, p: int, b: Block, n: int)
    requires EntryOK(C0, m0, q, b) && BytesCopied(m0, m, p, q, Lesser(C0[q - 8].size - 4, n))
    requires EntryOK(C, m, p, Block(n, map[]))
    ensures EntryOK(C, m, p, Block(n, Below(b.data, n)))
  {
    hide ByteAt;
    var d := Below(b.data, n);
    forall o | o in d
      ensures 0 <= o < n && ByteAt(m, p + o) == d[o]
    {
      assert b.data[o] == d[o];
      assert ByteCopied(m0, m, p, q, o);
    }
  }

  method DoResize(h: Heap, i: nat, bytes: int, ptrs: seq<int>, s: seq<Block>) returns (now: seq<int>, ok: bool)
    requires Served(h, ptrs, s) && 0 <= bytes < WORD && i < |s|
    modifies h
    ensures Served(h, now, Played(s, Resize(i, bytes), ok))
    ensures !ok ==> old(Denied(h, Resize(i, bytes)))
    ensures Modest(Resize(i, bytes)) ==> old(h.brk) <= h.brk <= old(h.brk) + Need(Resize(i, bytes))
  {
    EntryFacts(h.C, h.mem, ptrs, s, i);
    hide Live, BlocksKept, Owned, Entries, EntryOK, RequestSize, Heap.Valid, BytesCopied, Below;
    ghost var C0, m0 := h.C, h.mem;
    var ret := h.DlRealloc(ptrs[i], bytes);
    ok := ret != 0;
    if ok {
      now := ptrs[i := ret];
      InLive(h.C, ret - 8);
      NewEntry(h, ret, bytes);
      EntryMoved(C0, m0, h.C, h.mem, ptrs[i], ret, s[i], bytes);
      EntryReplaced(C0, m0, h.C, h.mem, ptrs, s, i, ret, Block(bytes, Below(s[i].data, bytes)));
    } else {
      now := ptrs;
      NothingChanged(C0, m0, h.C, h.mem, ptrs, s);
    }
  }

  lemma EntryFacts(C: Chunks, m: Mem, ptrs: seq<int>, s: seq<Block>, i: nat)
    requires Owned(C, ptrs) && Entries(C, m, ptrs, s) && i < |s|
    ensures |ptrs| == |s| && EntryOK(C, m, ptrs[i], s[i]) && ptrs[i] - 8 in Live(C) && ptrs[i] - 8 in C && ptrs[i] > 8
  {
    assert Aims(ptrs, Live(C), i);
  }

  method DoRelease(h: Heap, i: nat, ptrs: seq<int>, s: seq<Block>) returns (now: seq<int>)
    requires Served(h, ptrs, s) && i < |s|
    modifies h
    ensures Served(h, now, Played(s, Release(i), true))
    ensures h.brk == old(h.brk)
  {
    EntryFacts(h.C, h.mem, ptrs, s, i);
    hide Live, BlocksKept, Owned, Entries, EntryOK, Heap.Valid;
    ghost var C0, m0 := h.C, h.mem;
    h.DlFree(ptrs[i]);
    now := ptrs[..i] + ptrs[i + 1..];
    EntryRemoved(C0, m0, h.C, h.mem, ptrs, s, i);
  }

  /** A word written into a block. */
  lemma EntryWritten(C: Chunks, m: Mem, p: int, b: Block, off: nat, v: int)
    requires EntryOK(C, m, p, b) && off % 4 == 0 && off + 4 <= b.bytes
    ensures EntryOK(C, m[p + off := v], p, b.(data := Written(b.data, off, v)))
  {
    hide ByteOf;
    var m', d := m[p + off := v], Written(b.data, off, v);
    forall o | o in d
      ensures 0 <= o < b.bytes && ByteAt(m', p + o) == d[o]
    {
      if off <= o < off + 4 {
        InWord(p, off, o);
      } else {
        assert b.data[o] == d[o];
        OtherWord(p, off, o);
      }
    }
  }

  lemma InWord(p: int, off: nat, o: int)
    requires p % 8 == 0 && off % 4 == 0 && off <= o < off + 4
    ensures (p + o) % 4 == o - off && p + o - (p + o) % 4 == p + off
  {
  }

  lemma OtherWord(p: int, off: nat, o: int)
    requires p % 8 == 0 && off % 4 == 0 && !(off <= o < off + 4)
    ensures p + o - (p + o) % 4 != p + off
  {
  }

  method DoPut(h: Heap, i: nat, off: nat, v: int, ptrs: seq<int>, s: seq<Block>)
    requires Served(h, ptrs, s) && CanPut(s, i, off)
    modifies h`mem
    ensures Served(h, ptrs, Played(s, Put(i, off, v), true))
  {
    EntryFacts(h.C, h.mem, ptrs, s, i);
    h.LiveFacts(ptrs[i] - 8);
    hide Live, BlocksKept, Owned, Entries, Heap.AtRest, Written;
    ghost var m0 := h.mem;
    InWord(ptrs[i], off, off);
    h.Store(ptrs[i] - 8, ptrs[i] + off, v);
    EntryWritten(h.C, m0, ptrs[i], s[i], off, v);
    SetAgain(Live(h.C), ptrs[i] - 8);
    EntryReplaced(h.C, m0, h.C, h.mem, ptrs, s, i, ptrs[i], s[i].(data := Written(s[i].data, off, v)));
    assert ptrs[i := ptrs[i]] == ptrs;
  }

  lemma SetAgain(live: set<int>, a: int)
    requires a in live
    ensures live == live - {a} + {a}
  {
  }

  // ---------- whole runs ----------

  method Do(h: Heap, op: Op, ptrs: seq<int>, s: seq<Block>) returns (now: seq<int>, ok: bool)
    requires Served(h, ptrs, s) && Fair(op)
    modifies h
    ensures Served(h, now, Played(s, op, ok))
    ensures !ok ==> old(Denied(h, op))
    ensures Modest(op) ==> old(h.brk) <= h.brk <= old(h.brk) + Need(op)
  {
    hide Served, Below, Written, Heap.Growth, Denied;
    now, ok := ptrs, true;
    if Modest(op) { NeedPositive(op); }
    match op {
      case Alloc(bytes) => now, ok := DoAlloc(h, bytes, ptrs, s);
      case AllocAligned(alignment, bytes) => now, ok := DoAligned(h, alignment, bytes, ptrs, s);
      case Resize(i, bytes) => if i < |s| { now, ok := DoResize(h, i, bytes, ptrs, s); }
      case Release(i) => if i < |s| { now := DoRelease(h, i, ptrs, s); }
      case Put(i, off, v) => if CanPut(s, i, off) { DoPut(h, i, off, v, ptrs, s); }
    }
  }

  /** Two blocks have no byte in common. */
  ghost predicate BytesApart(p: int, b: Block, q: int, c: Block) {
    p + b.bytes <= q || q + c.bytes <= p
  }

  lemma BlocksApart(h: Heap, ptrs: seq<int>, s: seq<Block>, i: nat, j: nat)
    requires Served(h, ptrs, s) && i < j < |s|
    ensures |ptrs| == |s| && ptrs[i] % 8 == 0 && BytesApart(ptrs[i], s[i], ptrs[j], s[j])
  {
    EntryFacts(h.C, h.mem, ptrs, s, i);
    EntryFacts(h.C, h.mem, ptrs, s, j);
    hide Live, Entries, Holds, Heap.Valid;
    assert ptrs[i] != ptrs[j];
    h.PayloadsApart(ptrs[i] - 8, ptrs[j] - 8);
  }

  /** The memory suffices for all of the operations. */
  predicate Enough(ops: seq<Op>, start: int, limit: int)
    requires forall op :: op in ops ==> Fair(op)
  {
    (forall op :: op in ops ==> Modest(op)) && start + Total(ops) <= limit
  }

  /** Over every run of requests, releases and writes the heap stays sound and is a store of independent blocks:
      each holds, at an 8-aligned address and apart from all others, the bytes that were written to it last. With
      enough memory for the requests none of them fails. */
  method Run(h: Heap, ops: seq<Op>) returns (ptrs: seq<int>, oks: seq<bool>)
    requires h.Valid() && Live(h.C) == {} && forall op :: op in ops ==> Fair(op)
    modifies h
    ensures |oks| == |ops| && h.Valid() && Owned(h.C, ptrs)
    ensures var s := Play(ops, oks);
      && |ptrs| == |s|
      && (forall i :: 0 <= i < |s| ==> ptrs[i] % 8 == 0 && Holds(h.mem, ptrs[i], s[i]))
      && forall i, j :: 0 <= i < j < |s| ==> BytesApart(ptrs[i], s[i], ptrs[j], s[j])
    ensures Enough(ops, old(h.brk), h.limit) ==> forall k :: 0 <= k < |ops| ==> oks[k]
  {
    ptrs, oks := RunLoop(h, ops);
    RunResult(h, ptrs, Play(ops, oks));
  }

  method RunLoop(h: Heap, ops: seq<Op>) returns (ptrs: seq<int>, oks: seq<bool>)
    requires h.Valid() && Live(h.C) == {} && forall op :: op in ops ==> Fair(op)
    modifies h
    ensures |oks| == |ops| && Served(h, ptrs, Play(ops, oks))
    ensures Enough(ops, old(h.brk), h.limit) ==> forall k :: 0 <= k < |ops| ==> oks[k]
  {
    hide Played, Owned, Entries, Fair, Heap.Valid, Live, Enough, Denied, Modest;
    ptrs, oks := [], [];
    var s: seq<Block> := [];
    assert ops[..0] == [];
    Nothing(h);
    ghost var start := h.brk;
    if Enough(ops, start, h.limit) { WithinStarts(ops, start, h.limit); }
    for n := 0 to |ops|
      invariant |oks| == n && s == Play(ops[..n], oks) && Served(h, ptrs, s)
      invariant Enough(ops, start, h.limit) ==> Within(ops, n, start, h.brk) && forall k :: 0 <= k < n ==> oks[k]
    {
      assert ops[n] in ops;
      if Enough(ops, start, h.limit) { NextFits(h, ops, n, start); }
      var ok;
      ghost var before := oks;
      ptrs, ok := Do(h, ops[n], ptrs, s);
      s := Played(s, ops[n], ok);
      oks := oks + [ok];
      assert ops[..n + 1][..n] == ops[..n] && oks[..n] == before;
    }
    assert ops[..|ops|] == ops;
  }

  /** The segment has grown by no more than the first n operations may add. */
  ghost predicate Within(ops: seq<Op>, n: nat, start: int, brk: int)
    requires n <= |ops|
  {
    (forall op :: op in ops ==> Fair(op) && Modest(op)) && brk <= start + Total(ops[..n])
  }

  lemma WithinStarts(ops: seq<Op>, start: int, limit: int)
    requires (forall op :: op in ops ==> Fair(op)) && Enough(ops, start, limit)
    ensures Within(ops, 0, start, start)
  {
    hide Modest, Fair;
    assert ops[..0] == [];
  }

  lemma NextFits(h: Heap, ops: seq<Op>, n: nat, start: int)
    requires n < |ops| && Within(ops, n, start, h.brk)
    requires (forall op :: op in ops ==> Fair(op)) && Enough(ops, start, h.limit)
    ensures Fair(ops[n]) && Modest(ops[n]) && !Denied(h, ops[n])
    ensures forall brk {:trigger Within(ops, n + 1, start, brk)} :: brk <= h.brk + Need(ops[n]) ==>
      Within(ops, n + 1, start, brk)
  {
    hide Modest, Fair, Denied, Need;
    assert ops[n] in ops;
    assert ops[..n + 1][..n] == ops[..n];
    TotalGrows(ops, n + 1);
    NotDenied(h, ops[n]);
  }

  lemma Nothing(h: Heap)
    requires h.Valid() && Live(h.C) == {}
    ensures Served(h, [], [])
  {
  }

  lemma RunResult(h: Heap, ptrs: seq<int>, s: seq<Block>)
    requires Served(h, ptrs, s)
    ensures h.Valid() && Owned(h.C, ptrs) && |ptrs| == |s|
    ensures forall i :: 0 <= i < |s| ==> ptrs[i] % 8 == 0 && Holds(h.mem, ptrs[i], s[i])
    ensures forall i, j :: 0 <= i < j < |s| ==> BytesApart(ptrs[i], s[i], ptrs[j], s[j])
  {
    forall i | 0 <= i < |s|
      ensures ptrs[i] % 8 == 0 && Holds(h.mem, ptrs[i], s[i])
    {
      EntryFacts(h.C, h.mem, ptrs, s, i);
    }
    forall i, j | 0 <= i < j < |s|
      ensures BytesApart(ptrs[i], s[i], ptrs[j], s[j])
    {
      BlocksApart(h, ptrs, s, i, j);
    }
  }
}
