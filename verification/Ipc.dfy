/** The request rings between the two processors, as interleaved steps of both sides: wiinandfuse/geckonand/ipc.c.
    One ring has one writer and one reader; the two rings of the system are independent copies of it. */
module Ipc {
  import opened Arith
  import opened Sizes
  import opened Aligning

  /** The words of an ipc_request: code, tag and six arguments. */
  const WORDS := 8

  type Slot = s: seq<nat> | |s| == WORDS witness seq(WORDS, _ => 0)

  /** What ipc_vpost writes: code, tag and at most six arguments; the other argument words stay as they are. */
  type Request = s: seq<nat> | 2 <= |s| <= WORDS witness [0, 0]

  /** Where the writer is: between posts; k words of the request written; or its own tail advanced but not yet shown. */
  datatype Writer = Resting | Writing(req: Request, k: nat) | Advanced(req: Request)

  /** Where the reader is: between receptions; k words copied; or its own head advanced but not yet shown. */
  datatype Reader = Waiting | Copying(words: seq<nat>) | Taken(buf: Slot)

  /** A ring: its slots; the tail and the head in the mailbox registers; the writer's own tail, the reader's own head,
      and what they are doing; the requests posted (a tail that shows them has been written) and received so far. */
  datatype Ring = Ring(slots: seq<Slot>, tailReg: nat, headReg: nat, tail: nat, head: nat, writer: Writer,
      reader: Reader,
                       posted: seq<Request>, received: seq<Slot>)

  /** (i + 1) & (size - 1) */
  function Next(i: nat, size: nat): nat
    requires size > 0
  {
    BitAnd(i + 1, size - 1)
  }

  lemma {:induction false} LowMask(x: nat, k: nat)
    ensures Pow2(k) > 0 && BitAnd(x, Pow2(k) - 1) == x % Pow2(k)
    decreases k
  {
    hide BitAnd;
    if k == 0 {
      BitAndZero(x);
    } else {
      var m := Pow2(k - 1);
      LowMask(x / 2, k - 1);
      assert Pow2(k) == 2 * m;
      BitAndStep(x / 2, x % 2, m - 1, 1);
      HalfRest(x, m);
    }
  }

  lemma BitAndZero(x: nat)
    ensures BitAnd(x, 0) == 0
  {
  }

  lemma HalfRest(x: nat, m: nat)
    requires m > 0
    ensures x % (2 * m) == 2 * ((x / 2) % m) + x % 2
  {
    var h := x / 2;
    var q, r := h / m, h % m;
    assert h == q * m + r;
    assert x == 2 * h + x % 2;
    assert x == q * (2 * m) + (2 * r + x % 2);
    DivModUnique(x, q, 2 * m, 2 * r + x % 2);
  }

  /** The masked increment goes round the ring exactly if the size is a power of two. */
  lemma NextIsCyclic(size: nat)
    requires size > 0
    ensures IsPower(size) <==> forall i :: 0 <= i < size ==> Next(i, size) == (i + 1) % size
  {
    hide BitAnd;
    if IsPower(size) {
      var k: nat :| size == Pow2(k);
      forall i | 0 <= i < size
        ensures Next(i, size) == (i + 1) % size
      {
        LowMask(i + 1, k);
      }
    } else {
      PowerTest(size);
      DivModUnique(size, 1, size, 0);
      assert Next(size - 1, size) != (size - 1 + 1) % size;
    }
  }

  // ---------- the steps ----------

  datatype Step =
    | Start(req: Request)
    | Store
    | Advance
    | Show
    | Notice
    | Load
    | Pass
    | Release

  /** When a step can be taken. A writer facing a full ring, or a reader facing an empty one, spins. */
  predicate Enabled(r: Ring, size: nat, a: Step)
    requires size > 0
  {
    match a
    case Start(_) => r.writer.Resting? && r.headReg != Next(r.tail, size)
    case Store => r.writer.Writing? && r.writer.k < |r.writer.req| && r.tail < |r.slots|
    case Advance => r.writer.Writing? && r.writer.k == |r.writer.req|
    case Show => r.writer.Advanced?
    case Notice => r.reader.Waiting? && r.tailReg != r.head
    case Load => r.reader.Copying? && |r.reader.words| < WORDS && r.head < |r.slots|
    case Pass => r.reader.Copying? && |r.reader.words| == WORDS
    case Release => r.reader.Taken?
  }

  function Do(r: Ring, size: nat, a: Step): Ring
    requires size > 0 && Enabled(r, size, a)
  {
    match a
    case Start(req) => r.(writer := Writing(req, 0))
    case Store =>
      var s: Slot := r.slots[r.tail][r.writer.k := r.writer.req[r.writer.k]];
      r.(slots := r.slots[r.tail := s], writer := Writing(r.writer.req, r.writer.k + 1))
    case Advance => r.(tail := Next(r.tail, size), writer := Advanced(r.writer.req))
    case Show => r.(tailReg := r.tail, posted := r.posted + [r.writer.req], writer := Resting)
    case Notice => r.(reader := Copying([]))
    case Load => r.(reader := Copying(r.reader.words + [r.slots[r.head][|r.reader.words|]]))
    case Pass => r.(head := Next(r.head, size), reader := Taken(r.reader.words))
    case Release => r.(headReg := r.head, received := r.received + [r.reader.buf], reader := Waiting)
  }

  // ---------- the invariant ----------

  /** The slot that request number i goes into, if request number 0 went into slot base. */
  function Place(base: nat, i: nat, size: nat): nat
    requires size > 0
  {
    (base + i) % size
  }

  /** The words of the request are the first words of the slot. */
  predicate Holds(s: seq<nat>, req: Request) {
    |req| <= |s| && s[..|req|] == req
  }

  /** A request that has been posted but not received is whole in its slot. */
  ghost predicate InSlot(r: Ring, base: nat, size: nat, i: nat)
    requires size > 0
  {
    |r.slots| == size && i < |r.posted| && Place(base, i, size) < size
        && Holds(r.slots[Place(base, i, size)], r.posted[i])
  }

  ghost predicate WriterOK(r: Ring, base: nat, size: nat)
    requires size > 0
  {
    var p := |r.posted|;
    && |r.slots| == size && Place(base, p, size) < size
    && match r.writer
       case Resting => r.tail == Place(base, p, size)
       case Writing(req, k) =>
         && r.tail == Place(base, p, size) && k <= |req| && p + 1 - |r.received| <= size - 1
         && r.slots[r.tail][..k] == req[..k]
       case Advanced(req) =>
         r.tail == Place(base, p + 1, size) && p + 1 - |r.received| <= size - 1
             && Holds(r.slots[Place(base, p, size)], req)
  }

  ghost predicate ReaderOK(r: Ring, base: nat, size: nat)
    requires size > 0
  {
    var t := |r.received|;
    && |r.slots| == size && Place(base, t, size) < size
    && match r.reader
       case Waiting => r.head == Place(base, t, size)
       case Copying(words) =>
         && t < |r.posted| && r.head == Place(base, t, size) && |words| <= WORDS && words == r.slots[r.head][..|words|]
       case Taken(buf) => t < |r.posted| && r.head == Place(base, t + 1, size) && Holds(buf, r.posted[t])
  }

  /** Everything received so far is what was posted, in the same order. */
  ghost predicate Delivered(r: Ring) {
    |r.received| <= |r.posted| && forall i :: 0 <= i < |r.received| ==> Holds(r.received[i], r.posted[i])
  }

  ghost predicate Inv(r: Ring, base: nat, size: nat) {
    && size > 1 && IsPower(size) && Delivered(r)
    && |r.posted| - |r.received| <= size - 1
    && r.tailReg == Place(base, |r.posted|, size) && r.headReg == Place(base, |r.received|, size)
    && WriterOK(r, base, size) && ReaderOK(r, base, size)
    && (forall i {:trigger InSlot(r, base, size, i)} :: |r.received| <= i < |r.posted| ==> InSlot(r, base, size, i))
  }

  lemma NextPlace(base: nat, i: nat, size: nat)
    requires size > 1 && IsPower(size)
    ensures Place(base, i, size) < size && Next(Place(base, i, size), size) == Place(base, i + 1, size)
  {
    NextIsCyclic(size);
    hide Next, IsPower;
    ModAddLeft(base + i, 1, size);
  }

  /** Requests fewer than a ring apart are in different slots. */
  lemma PlacesDistinct(base: nat, i: nat, j: nat, size: nat)
    requires size > 0 && i < j < i + size
    ensures Place(base, i, size) != Place(base, j, size)
  {
    if Place(base, i, size) == Place(base, j, size) {
      var q, p := (base + i) / size, (base + j) / size;
      assert base + i == q * size + (base + i) % size && base + j == p * size + (base + j) % size;
      assert j - i == (p - q) * size;
      if p - q >= 1 { MulLess(1, p - q, size); } else { MulLess(p - q, 0, size); }
    }
  }

  /** The slot being written holds no request that is still to be received: nothing unread is overwritten. */
  lemma SlotFree(r: Ring, base: nat, size: nat, i: nat)
    requires Inv(r, base, size) && r.writer.Writing? && |r.received| <= i < |r.posted|
    ensures Place(base, i, size) != r.tail
  {
    PlacesDistinct(base, i, |r.posted|, size);
  }

  lemma StoreKeeps(r: Ring, base: nat, size: nat)
    requires Inv(r, base, size) && Enabled(r, size, Store)
    ensures Inv(Do(r, size, Store), base, size)
  {
    var r' := Do(r, size, Store);
    hide IsPower, Next;
    forall i {:trigger InSlot(r', base, size, i)} | |r'.received| <= i < |r'.posted|
      ensures InSlot(r', base, size, i)
    {
      assert InSlot(r, base, size, i);
      SlotFree(r, base, size, i);
    }
    if r.reader.Copying? { SlotFree(r, base, size, |r.received|); }
    var req, k := r.writer.req, r.writer.k;
    assert r'.slots[r.tail][..k + 1] == r'.slots[r.tail][..k] + [req[k]];
    assert req[..k + 1] == req[..k] + [req[k]];
  }

  lemma WriterKeeps(r: Ring, base: nat, size: nat, a: Step)
    requires Inv(r, base, size) && Enabled(r, size, a) && (a.Start? || a.Advance? || a.Show?)
    ensures Inv(Do(r, size, a), base, size)
  {
    var r', p, t := Do(r, size, a), |r.posted|, |r.received|;
    NextPlace(base, p, size);
    NextPlace(base, p + 1, size);
    hide IsPower, Next;
    if a.Start? && p + 1 - t > size - 1 {
      SamePlace(base, t, p + 1, size);
    }
    if a.Advance? { assert r.writer.req[..|r.writer.req|] == r.writer.req; }
    forall i {:trigger InSlot(r', base, size, i)} | |r'.received| <= i < |r'.posted|
      ensures InSlot(r', base, size, i)
    {
      assert i < p ==> InSlot(r, base, size, i);
    }
  }

  lemma SamePlace(base: nat, i: nat, j: nat, size: nat)
    requires size > 0 && j == i + size
    ensures Place(base, i, size) == Place(base, j, size)
  {
    ModAddMultiple(base + i, 1, size);
  }

  lemma ReaderKeeps(r: Ring, base: nat, size: nat, a: Step)
    requires Inv(r, base, size) && Enabled(r, size, a) && (a.Notice? || a.Load? || a.Pass? || a.Release?)
    ensures Inv(Do(r, size, a), base, size)
  {
    var r', t := Do(r, size, a), |r.received|;
    NextPlace(base, t, size);
    NextPlace(base, t + 1, size);
    hide IsPower, Next;
    if a.Load? {
      var w := r.reader.words;
      assert r.slots[r.head][..|w| + 1] == r.slots[r.head][..|w|] + [r.slots[r.head][|w|]];
    }
    if a.Pass? {
      assert InSlot(r, base, size, t);
      assert r.slots[r.head][..WORDS] == r.slots[r.head];
    }
    forall i {:trigger InSlot(r', base, size, i)} | |r'.received| <= i < |r'.posted|
      ensures InSlot(r', base, size, i)
    {
      assert InSlot(r, base, size, i);
    }
  }

  lemma StepKeeps(r: Ring, base: nat, size: nat, a: Step)
    requires Inv(r, base, size) && Enabled(r, size, a)
    ensures Inv(Do(r, size, a), base, size)
  {
    match a
    case Start(_) => WriterKeeps(r, base, size, a);
    case Store => StoreKeeps(r, base, size);
    case Advance => WriterKeeps(r, base, size, a);
    case Show => WriterKeeps(r, base, size, a);
    case Notice => ReaderKeeps(r, base, size, a);
    case Load => ReaderKeeps(r, base, size, a);
    case Pass => ReaderKeeps(r, base, size, a);
    case Release => ReaderKeeps(r, base, size, a);
  }

  // ---------- the system and its runs ----------

  /** The call that a processor is in: ipc_vpost, ipc_receive, ipc_flush, or none of them. */
  datatype Cpu = Free | Posting(req: Request) | Receiving | Flushing

  /** The ring from the PowerPC to the ARM, the one back, and the two processors. */
  datatype System = System(toArm: Ring, toPpc: Ring, ppc: Cpu, arm: Cpu)

  /** What a processor does: it makes a call, takes a step of its post or of its reception, or returns from a flush. */
  datatype Act = Call(c: Cpu) | Out(a: Step) | In(a: Step) | Flushed

  datatype Move = Ppc(act: Act) | Arm(act: Act)

  predicate WriterStep(a: Step) { a.Start? || a.Store? || a.Advance? || a.Show? }

  /** A processor is in one call at a time: it does not receive while it spins in a post. */
  predicate CanAct(out: Ring, inn: Ring, m: nat, n: nat, cpu: Cpu, act: Act)
    requires m > 0 && n > 0
  {
    match act
    case Call(c) => cpu.Free? && !c.Free?
    case Out(a) => cpu.Posting? && WriterStep(a) && Enabled(out, m, a) && (a.Start? ==> a.req == cpu.req)
    case In(a) => cpu.Receiving? && !WriterStep(a) && Enabled(inn, n, a)
    case Flushed => cpu.Flushing? && out.headReg == out.tail
  }

  /** The call that it is in then: showing the tail ends a post, and showing the head ends a reception. */
  function AfterAct(cpu: Cpu, act: Act): Cpu {
    match act
    case Call(c) => c
    case Out(a) => if a.Show? then Free else cpu
    case In(a) => if a.Release? then Free else cpu
    case Flushed => Free
  }

  predicate CanMove(s: System, m: nat, n: nat, v: Move)
    requires m > 0 && n > 0
  {
    match v
    case Ppc(act) => CanAct(s.toArm, s.toPpc, m, n, s.ppc, act)
    case Arm(act) => CanAct(s.toPpc, s.toArm, n, m, s.arm, act)
  }

  function Moved(s: System, m: nat, n: nat, v: Move): System
    requires m > 0 && n > 0 && CanMove(s, m, n, v)
  {
    match v
    case Ppc(act) =>
      var cpu := AfterAct(s.ppc, act);
      if act.Out? then s.(toArm := Do(s.toArm, m, act.a), ppc := cpu)
      else if act.In? then s.(toPpc := Do(s.toPpc, n, act.a), ppc := cpu)
      else s.(ppc := cpu)
    case Arm(act) =>
      var cpu := AfterAct(s.arm, act);
      if act.Out? then s.(toPpc := Do(s.toPpc, n, act.a), arm := cpu)
      else if act.In? then s.(toArm := Do(s.toArm, m, act.a), arm := cpu)
      else s.(arm := cpu)
  }

  /** A run: states joined by moves of either processor, in any order. */
  ghost predicate IsRun(run: seq<System>, moves: seq<Move>, m: nat, n: nat) {
    && m > 0 && n > 0 && |run| == |moves| + 1
    && forall i :: 0 <= i < |moves| ==> CanMove(run[i], m, n, moves[i]) && run[i + 1] == Moved(run[i], m, n, moves[i])
  }

  /** A write is under way only in a post, a copy only in a reception. */
  predicate CpuOK(out: Ring, inn: Ring, cpu: Cpu) {
    && (!out.writer.Resting? ==> cpu.Posting?)
    && (!inn.reader.Waiting? ==> cpu.Receiving?)
  }

  ghost predicate SystemInv(s: System, b: nat, m: nat, c: nat, n: nat) {
    Inv(s.toArm, b, m) && Inv(s.toPpc, c, n) && CpuOK(s.toArm, s.toPpc, s.ppc) && CpuOK(s.toPpc, s.toArm, s.arm)
  }

  /** Two empty rings wherever their registers stand. */
  ghost predicate Initial(r: Ring, size: nat) {
    && size > 1 && IsPower(size) && |r.slots| == size && r.tail < size && r.posted == [] && r.received == []
    && r.tail == r.head == r.tailReg == r.headReg && r.writer.Resting? && r.reader.Waiting?
  }

  lemma InitialInv(r: Ring, size: nat)
    requires Initial(r, size)
    ensures Inv(r, r.tail, size) && r.writer.Resting? && r.reader.Waiting?
  {
    hide IsPower;
    SmallMod(r.tail, size);
  }

  /** A step of the writer leaves the reader alone, and the other way round; the last step of each ends its call. */
  lemma StepSides(r: Ring, size: nat, a: Step)
    requires size > 0 && Enabled(r, size, a)
    ensures var r' := Do(r, size, a);
      if WriterStep(a) then r'.reader == r.reader && r'.received == r.received && r.posted <= r'.posted
        && (r'.writer.Resting? <==> a.Show?)
      else r'.writer == r.writer && r'.posted == r.posted && (r'.reader.Waiting? <==> a.Release?)
  {
  }

  lemma MoveKeeps(s: System, b: nat, m: nat, c: nat, n: nat, v: Move)
    requires SystemInv(s, b, m, c, n) && CanMove(s, m, n, v)
    ensures SystemInv(Moved(s, m, n, v), b, m, c, n) && s.toArm.posted <= Moved(s, m, n, v).toArm.posted
  {
    hide Inv, Enabled, Do;
    var act := v.act;
    if act.Out? || act.In? {
      var r, size := if v.Ppc? == act.Out? then s.toArm else s.toPpc, if v.Ppc? == act.Out? then m else n;
      StepKeeps(r, if v.Ppc? == act.Out? then b else c, size, act.a);
      StepSides(r, size, act.a);
    }
  }

  /** The invariant holds in every state of every run. */
  lemma {:induction false} RunKeeps(run: seq<System>, moves: seq<Move>, m: nat, n: nat, b: nat, c: nat, i: nat)
    requires IsRun(run, moves, m, n) && SystemInv(run[0], b, m, c, n) && i < |run|
    ensures SystemInv(run[i], b, m, c, n)
  {
    hide SystemInv, CanMove, Moved;
    if i > 0 {
      RunKeeps(run, moves, m, n, b, c, i - 1);
      MoveKeeps(run[i - 1], b, m, c, n, moves[i - 1]);
    }
  }

  /** Two empty rings, and no processor in a call. */
  ghost predicate InitialSystem(s: System, m: nat, n: nat) {
    Initial(s.toArm, m) && Initial(s.toPpc, n) && s.ppc.Free? && s.arm.Free?
  }

  /** A state that a run leads to. */
  lemma Reached(run: seq<System>, moves: seq<Move>, m: nat, n: nat, i: nat)
    requires IsRun(run, moves, m, n) && InitialSystem(run[0], m, n) && i < |run|
    ensures SystemInv(run[i], run[0].toArm.tail, m, run[0].toPpc.tail, n)
  {
    InitialInv(run[0].toArm, m);
    InitialInv(run[0].toPpc, n);
    hide Initial, IsRun, Inv;
    RunKeeps(run, moves, m, n, run[0].toArm.tail, run[0].toPpc.tail, i);
  }

  /** In every interleaving each queue delivers what was posted in order, once and unmodified, and at most
      size - 1 requests are outstanding. */
  lemma QueuesDeliver(run: seq<System>, moves: seq<Move>, m: nat, n: nat, i: nat)
    requires IsRun(run, moves, m, n) && InitialSystem(run[0], m, n) && i < |run|
    ensures Delivered(run[i].toArm) && |run[i].toArm.posted| - |run[i].toArm.received| <= m - 1
    ensures Delivered(run[i].toPpc) && |run[i].toPpc.posted| - |run[i].toPpc.received| <= n - 1
  {
    hide InitialSystem, IsRun;
    Reached(run, moves, m, n, i);
  }

  /** What has been posted stays posted. */
  lemma {:induction false} PostedGrows(run: seq<System>, moves: seq<Move>, m: nat, n: nat, b: nat, c: nat, i: nat,
      j: nat)
    requires IsRun(run, moves, m, n) && SystemInv(run[0], b, m, c, n) && i <= j < |run|
    ensures run[i].toArm.posted <= run[j].toArm.posted
    decreases j
  {
    hide SystemInv, CanMove, Moved;
    if i < j {
      PostedGrows(run, moves, m, n, b, c, i, j - 1);
      RunKeeps(run, moves, m, n, b, c, j - 1);
      MoveKeeps(run[j - 1], b, m, c, n, moves[j - 1]);
    }
  }

  /** The writer finds the head equal to its tail exactly if every request posted has been received. */
  lemma DrainedMeansReceived(r: Ring, base: nat, size: nat)
    requires Inv(r, base, size) && r.writer.Resting?
    ensures r.headReg == r.tail <==> |r.received| == |r.posted|
  {
    hide IsPower;
    if |r.received| < |r.posted| {
      PlacesDistinct(base, |r.received|, |r.posted|, size);
    }
  }

  /** When ipc_flush returns, every request posted before has been received. */
  lemma FlushReturns(run: seq<System>, moves: seq<Move>, m: nat, n: nat, i: nat, j: nat)
    requires IsRun(run, moves, m, n) && InitialSystem(run[0], m, n) && i <= j < |run|
    requires CanMove(run[j], m, n, Ppc(Flushed))
    ensures |run[j].toArm.received| == |run[j].toArm.posted| >= |run[i].toArm.posted|
    ensures forall k :: 0 <= k < |run[i].toArm.posted| ==> Holds(run[j].toArm.received[k], run[i].toArm.posted[k])
  {
    var b, c := run[0].toArm.tail, run[0].toPpc.tail;
    Reached(run, moves, m, n, 0);
    Reached(run, moves, m, n, j);
    PostedGrows(run, moves, m, n, b, c, i, j);
    DrainedMeansReceived(run[j].toArm, b, m);
    assert Delivered(run[j].toArm);
  }

  /** A writer that finds the ring full waits for a reader that has something to do. */
  lemma FullMeansBusy(r: Ring, base: nat, size: nat)
    requires Inv(r, base, size) && r.writer.Resting? && r.headReg == Next(r.tail, size)
    ensures |r.posted| - |r.received| == size - 1
    ensures exists a {:trigger Enabled(r, size, a)} :: !WriterStep(a) && Enabled(r, size, a)
  {
    var p, t := |r.posted|, |r.received|;
    NextPlace(base, p, size);
    hide IsPower, Next;
    if p + 1 - t < size {
      PlacesDistinct(base, t, p + 1, size);
    }
    ReaderGoesOn(r, base, size);
  }

  /** A reader can go on exactly if something posted has not been received. */
  lemma ReaderGoesOn(r: Ring, base: nat, size: nat)
    requires Inv(r, base, size)
    ensures |r.received| < |r.posted| <==>
              exists a {:trigger Enabled(r, size, a)} :: !WriterStep(a) && Enabled(r, size, a)
  {
    hide IsPower, Next;
    if |r.received| < |r.posted| {
      PlacesDistinct(base, |r.received|, |r.posted|, size);
      match r.reader
      case Waiting => assert Enabled(r, size, Notice);
      case Copying(words) => assert if |words| < WORDS then Enabled(r, size, Load) else Enabled(r, size, Pass);
      case Taken(_) => assert Enabled(r, size, Release);
    }
  }

  /** The writer of a request can go on exactly if fewer than size - 1 requests are outstanding. */
  lemma WriterGoesOn(r: Ring, base: nat, size: nat, req: Request)
    requires Inv(r, base, size)
    ensures |r.posted| - |r.received| < size - 1 <==>
              exists a {:trigger Enabled(r, size, a)} ::
                WriterStep(a) && Enabled(r, size, a) && (a.Start? ==> a.req == req)
  {
    var p, t := |r.posted|, |r.received|;
    NextPlace(base, p, size);
    hide IsPower, Next;
    if p - t < size - 1 {
      PlacesDistinct(base, t, p + 1, size);
      match r.writer
      case Resting => assert Enabled(r, size, Start(req));
      case Writing(req, k) => assert if k < |req| then Enabled(r, size, Store) else Enabled(r, size, Advance);
      case Advanced(_) => assert Enabled(r, size, Show);
    } else if r.writer.Resting? {
      SamePlace(base, t, p + 1, size);
    }
  }

  /** A reader that finds the ring empty has received everything that was posted. */
  lemma EmptyMeansDone(r: Ring, base: nat, size: nat)
    requires Inv(r, base, size) && r.reader.Waiting? && r.tailReg == r.head
    ensures |r.received| == |r.posted|
  {
    hide IsPower;
    if |r.received| < |r.posted| {
      PlacesDistinct(base, |r.received|, |r.posted|, size);
    }
  }

  // ---------- when nobody moves ----------

  /** Both processors are in a call, and neither can take a step. */
  ghost predicate Stuck(s: System, m: nat, n: nat)
    requires m > 0 && n > 0
  {
    !s.ppc.Free? && !s.arm.Free? && forall v: Move :: !CanMove(s, m, n, v)
  }

  /** The call waits for the other side to take something out of the ring. */
  predicate WaitsForReader(out: Ring, m: nat, cpu: Cpu) {
    || (cpu.Posting? && |out.posted| - |out.received| == m - 1)
    || (cpu.Flushing? && |out.received| < |out.posted|)
  }

  /** The call waits for the other side to put something into the ring. */
  predicate WaitsForWriter(inn: Ring, cpu: Cpu) {
    cpu.Receiving? && |inn.received| == |inn.posted|
  }

  /** A processor in a call can go on unless it waits for the other one. */
  lemma CpuGoesOn(out: Ring, inn: Ring, b: nat, m: nat, c: nat, n: nat, cpu: Cpu)
    requires Inv(out, b, m) && Inv(inn, c, n) && CpuOK(out, inn, cpu) && !cpu.Free?
    ensures (forall act: Act :: !CanAct(out, inn, m, n, cpu, act)) <==>
              WaitsForReader(out, m, cpu) || WaitsForWriter(inn, cpu)
  {
    match cpu
    case Posting(req) =>
      WriterGoesOn(out, b, m, req);
      hide Inv, Enabled;
      assert forall a :: CanAct(out, inn, m, n, cpu, Out(a)) <==>
          WriterStep(a) && Enabled(out, m, a) && (a.Start? ==> a.req == req);
    case Receiving =>
      ReaderGoesOn(inn, c, n);
      hide Inv, Enabled;
      assert forall a :: CanAct(out, inn, m, n, cpu, In(a)) <==> !WriterStep(a) && Enabled(inn, n, a);
    case Flushing =>
      DrainedMeansReceived(out, b, m);
      assert CanAct(out, inn, m, n, cpu, Flushed) <==> out.headReg == out.tail;
  }

  /** No run gets stuck except with both processors waiting for the other to empty a ring, each spinning in a post on a
      full ring or in a flush of one that is not empty, or with both waiting to receive and nothing in either ring. */
  lemma StuckExactly(run: seq<System>, moves: seq<Move>, m: nat, n: nat, i: nat)
    requires IsRun(run, moves, m, n) && InitialSystem(run[0], m, n) && i < |run|
    ensures var s := run[i];
      Stuck(s, m, n) <==>
        || (WaitsForReader(s.toArm, m, s.ppc) && WaitsForReader(s.toPpc, n, s.arm))
        || (WaitsForWriter(s.toPpc, s.ppc) && WaitsForWriter(s.toArm, s.arm))
  {
    var b, c, s := run[0].toArm.tail, run[0].toPpc.tail, run[i];
    Reached(run, moves, m, n, i);
    assert m > 1 && n > 1;
    hide Inv, CanAct, InitialSystem, IsRun;
    if !s.ppc.Free? && !s.arm.Free? {
      CpuGoesOn(s.toArm, s.toPpc, b, m, c, n, s.ppc);
      CpuGoesOn(s.toPpc, s.toArm, c, n, b, m, s.arm);
      assert forall act :: CanMove(s, m, n, Ppc(act)) <==> CanAct(s.toArm, s.toPpc, m, n, s.ppc, act);
      assert forall act :: CanMove(s, m, n, Arm(act)) <==> CanAct(s.toPpc, s.toArm, n, m, s.arm, act);
      assert forall v: Move :: v == Ppc(v.act) || v == Arm(v.act);
    }
  }

  // ---------- a run that gets stuck ----------

  function Side(arm: bool, act: Act): Move { if arm then Arm(act) else Ppc(act) }

  function OutRing(s: System, arm: bool): Ring { if arm then s.toPpc else s.toArm }

  function CpuOf(s: System, arm: bool): Cpu { if arm then s.arm else s.ppc }

  /** The other side: its ring and what it is doing. */
  predicate OtherSame(s: System, t: System, arm: bool) {
    OutRing(s, !arm) == OutRing(t, !arm) && CpuOf(s, !arm) == CpuOf(t, !arm)
  }

  function Last(run: seq<System>): System
    requires run != []
  {
    run[|run| - 1]
  }

  lemma Longer(run: seq<System>, moves: seq<Move>, m: nat, n: nat, v: Move) returns (run': seq<System>,
      moves': seq<Move>)
    requires IsRun(run, moves, m, n) && CanMove(Last(run), m, n, v)
    ensures IsRun(run', moves', m, n) && run <= run' && Last(run') == Moved(Last(run), m, n, v)
  {
    run', moves' := run + [Moved(Last(run), m, n, v)], moves + [v];
  }

  /** The five steps of posting a request of code and tag alone. */
  lemma PostSteps(r: Ring, base: nat, size: nat, req: Request) returns (a: seq<Step>, rs: seq<Ring>)
    requires Inv(r, base, size) && r.writer.Resting? && |r.posted| - |r.received| < size - 1 && |req| == 2
    ensures a == [Start(req), Store, Store, Advance, Show] && |rs| == 6 && rs[0] == r
    ensures forall k :: 0 <= k < 5 ==> Enabled(rs[k], size, a[k]) && rs[k + 1] == Do(rs[k], size, a[k])
    ensures rs[5].writer.Resting? && |rs[5].posted| == |r.posted| + 1 && rs[5].received == r.received
  {
    WriterGoesOn(r, base, size, req);
    assert Enabled(r, size, Start(req));
    hide Next, IsPower;
    var r1 := Do(r, size, Start(req));
    var r2 := Do(r1, size, Store);
    var r3 := Do(r2, size, Store);
    var r4 := Do(r3, size, Advance);
    a, rs := [Start(req), Store, Store, Advance, Show], [r, r1, r2, r3, r4, Do(r4, size, Show)];
  }

  /** One step of the post that a processor is in. */
  lemma Outward(run: seq<System>, moves: seq<Move>, m: nat, n: nat, arm: bool, a: Step) returns (run': seq<System>,
      moves': seq<Move>)
    requires IsRun(run, moves, m, n) && WriterStep(a) && Enabled(OutRing(Last(run), arm), if arm then n else m, a)
    requires var cpu := CpuOf(Last(run), arm); cpu.Posting? && (a.Start? ==> a.req == cpu.req)
    ensures IsRun(run', moves', m, n) && run <= run' && OtherSame(Last(run), Last(run'), arm)
    ensures OutRing(Last(run'), arm) == Do(OutRing(Last(run), arm), if arm then n else m, a)
    ensures CpuOf(Last(run'), arm) == if a.Show? then Free else CpuOf(Last(run), arm)
  {
    hide Enabled, Do, IsRun;
    run', moves' := Longer(run, moves, m, n, Side(arm, Out(a)));
  }

  /** A processor that is in no call posts a request into a ring that is not full; the other one does nothing. */
  lemma PostsOne(run: seq<System>, moves: seq<Move>, m: nat, n: nat, b: nat, c: nat, arm: bool)
    returns (run': seq<System>, moves': seq<Move>)
    requires IsRun(run, moves, m, n) && SystemInv(run[0], b, m, c, n) && CpuOf(Last(run), arm).Free?
    requires var r := OutRing(Last(run), arm); |r.posted| - |r.received| < (if arm then n else m) - 1
    ensures IsRun(run', moves', m, n) && run <= run'
    ensures var s, t := Last(run), Last(run');
      && CpuOf(t, arm).Free? && OtherSame(s, t, arm) && OutRing(t, arm).received == OutRing(s, arm).received
      && |OutRing(t, arm).posted| == |OutRing(s, arm).posted| + 1
  {
    var s := Last(run);
    RunKeeps(run, moves, m, n, b, c, |run| - 1);
    var req: Request := [0, 0];
    var r, size := OutRing(s, arm), if arm then n else m;
    var a, rs := PostSteps(r, if arm then c else b, size, req);
    hide Inv, Enabled, Do, IsRun;
    run', moves' := Longer(run, moves, m, n, Side(arm, Call(Posting(req))));
    for k := 0 to 5
      invariant IsRun(run', moves', m, n) && run <= run' && OutRing(Last(run'), arm) == rs[k]
      invariant OtherSame(s, Last(run'), arm)
      invariant CpuOf(Last(run'), arm) == if k < 5 then Posting(req) else Free
    {
      assert Enabled(rs[k], size, a[k]);
      run', moves' := Outward(run', moves', m, n, arm, a[k]);
    }
  }

  /** It posts until its ring is full. */
  lemma Fills(run: seq<System>, moves: seq<Move>, m: nat, n: nat, b: nat, c: nat, arm: bool)
    returns (run': seq<System>, moves': seq<Move>)
    requires IsRun(run, moves, m, n) && SystemInv(run[0], b, m, c, n) && CpuOf(Last(run), arm).Free?
    ensures IsRun(run', moves', m, n) && run <= run' && OtherSame(Last(run), Last(run'), arm)
    ensures var r := OutRing(Last(run'), arm);
      CpuOf(Last(run'), arm).Free? && |r.posted| - |r.received| == (if arm then n else m) - 1
    decreases (if arm then n else m) - |OutRing(Last(run), arm).posted| + |OutRing(Last(run), arm).received|
  {
    RunKeeps(run, moves, m, n, b, c, |run| - 1);
    hide IsRun, CanMove;
    var r := OutRing(Last(run), arm);
    if |r.posted| - |r.received| == (if arm then n else m) - 1 {
      run', moves' := run, moves;
    } else {
      var more, extra := PostsOne(run, moves, m, n, b, c, arm);
      run', moves' := Fills(more, extra, m, n, b, c, arm);
    }
  }

  /** From any two empty rings: both processors fill their rings, post once more, and spin for ever. */
  lemma BothSpin(s: System, m: nat, n: nat) returns (run: seq<System>, moves: seq<Move>)
    requires InitialSystem(s, m, n)
    ensures IsRun(run, moves, m, n) && run[0] == s
    ensures Stuck(Last(run), m, n) && Last(run).ppc.Posting? && Last(run).arm.Posting?
  {
    var req: Request := [0, 0];
    run, moves := [s], [];
    Reached(run, moves, m, n, 0);
    run, moves := Fills(run, moves, m, n, s.toArm.tail, s.toPpc.tail, false);
    run, moves := Fills(run, moves, m, n, s.toArm.tail, s.toPpc.tail, true);
    run, moves := Longer(run, moves, m, n, Ppc(Call(Posting(req))));
    run, moves := Longer(run, moves, m, n, Arm(Call(Posting(req))));
    StuckExactly(run, moves, m, n, |run| - 1);
  }

  // ---------- ipc_receive_tagged and ipc_exchange ----------

  predicate Matches(s: Slot, code: nat, tag: nat) {
    s[0] == code && s[1] == tag
  }

  /** Number i is the first message from number `from` on that matches. */
  predicate FirstMatch(received: seq<Slot>, from: nat, code: nat, tag: nat, i: nat) {
    && from <= i < |received| && Matches(received[i], code, tag)
    && forall k :: from <= k < i ==> !Matches(received[k], code, tag)
  }

  /** ipc_receive_tagged after number `from` on has been received: it has returned the first message that matches, or
      is still waiting for one. */
  method ReceiveTagged(received: seq<Slot>, from: nat, code: nat, tag: nat) returns (i: nat)
    requires from <= |received|
    ensures i < |received| ==> FirstMatch(received, from, code, tag, i)
    ensures i >= |received| ==> i == |received| && forall k :: from <= k < |received| ==>
      !Matches(received[k], code, tag)
  {
    i := from;
    while i < |received| && (received[i][0] != code || received[i][1] != tag)
      invariant from <= i <= |received| && forall k :: from <= k < i ==> !Matches(received[k], code, tag)
    {
      i := i + 1;
    }
  }

  /** cur_tag at exchange number e. */
  function TagOf(e: nat): nat { (1 + e) % 0x1_0000_0000 }

  lemma TagsDiffer(e: nat, f: nat)
    requires f <= e < f + 0x1_0000_0000 && TagOf(f) == TagOf(e)
    ensures f == e
  {
    if f < e {
      PlacesDistinct(1, f, e, 0x1_0000_0000);
    }
  }

  /** Message number k of the other side answers request number a[k], which it has received: it has its code and tag. */
  ghost predicate Answers(s: System, a: seq<nat>) {
    && |a| == |s.toPpc.posted|
    && forall k :: 0 <= k < |a| ==>
         (a[k] < |s.toArm.received| && s.toPpc.posted[k][..2] == s.toArm.received[a[k]][..2])
  }

  /** The requests posted so far are those of the exchanges number 0 to e. */
  predicate Exchanging(s: System, e: nat) {
    |s.toArm.posted| == e + 1 && forall f :: 0 <= f <= e ==> s.toArm.posted[f][1] == TagOf(f)
  }

  /** If the messages from number `from` on answer none but the last 2^32 exchanges, what ipc_exchange returns is the
      first answer to its own request, as it was posted. */
  lemma ExchangeGetsItsReply(run: seq<System>, moves: seq<Move>, m: nat, n: nat, i: nat, e: nat, a: seq<nat>, from: nat,
      x: nat)
    requires IsRun(run, moves, m, n) && InitialSystem(run[0], m, n) && i < |run|
    requires Exchanging(run[i], e) && Answers(run[i], a)
    requires forall k :: from <= k < |a| ==> e < a[k] + 0x1_0000_0000
    requires FirstMatch(run[i].toPpc.received, from, run[i].toArm.posted[e][0], TagOf(e), x)
    ensures x < |a| && a[x] == e && (forall k :: from <= k < x ==> a[k] != e)
    ensures Holds(run[i].toPpc.received[x], run[i].toPpc.posted[x])
  {
    var s := run[i];
    QueuesDeliver(run, moves, m, n, i);
    hide IsRun, InitialSystem, TagOf;
    forall k | from <= k <= x
      ensures a[k] <= e && Matches(s.toPpc.received[k], s.toArm.posted[a[k]][0], TagOf(a[k]))
    {
      SameHead(s.toPpc.received[k], s.toPpc.posted[k]);
      SameHead(s.toArm.received[a[k]], s.toArm.posted[a[k]]);
      var y, z := s.toPpc.posted[k], s.toArm.received[a[k]];
      assert y[0] == y[..2][0] == z[..2][0] == z[0] && y[1] == y[..2][1] == z[..2][1] == z[1];
    }
    TagsDiffer(e, a[x]);
  }

  lemma SameHead(s: Slot, req: Request)
    requires Holds(s, req)
    ensures s[0] == req[0] && s[1] == req[1]
  {
    assert s[0] == s[..|req|][0] && s[1] == s[..|req|][1];
  }
}
