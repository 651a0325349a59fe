/** Files written with f_write and read back with f_read: wiinandfuse/geckonand/ff.c. */
module FatRoundTrip {
  import opened FatTable
  import opened FatChains
  import opened FatVolume
  import opened FatFs
  import opened FatData
  import opened FatFile

  /** The bytes that the calls took: of each piece, as many as *bw said. */
  function Taken(datas: seq<seq<byte>>, counts: seq<nat>): seq<byte>
    requires |counts| == |datas| && forall i :: 0 <= i < |datas| ==> counts[i] <= |datas[i]|
  {
    if datas == [] then []
    else
      var n := |datas| - 1;
      Taken(datas[..n], counts[..n]) + datas[n][..counts[n]]
  }

  /** With piece i the file would be 4 GB long or longer. */
  predicate TooLong(datas: seq<seq<byte>>, counts: seq<nat>, i: nat)
    requires |counts| == |datas| && (forall k :: 0 <= k < |datas| ==> counts[k] <= |datas[k]|) && i < |datas|
  {
    |Taken(datas[..i], counts[..i])| + |datas[i]| >= 0x1_0000_0000
  }

  /** Fewer bytes than given were taken of a piece only because the disk is full, or none of one that was too long. */
  predicate Excused(datas: seq<seq<byte>>, counts: seq<nat>, full: bool)
    requires |counts| == |datas| && forall i :: 0 <= i < |datas| ==> counts[i] <= |datas[i]|
  {
    forall i: nat {:trigger TooLong(datas, counts, i)} :: i < |datas| && counts[i] < |datas[i]| ==>
      full || (counts[i] == 0 && TooLong(datas, counts, i))
  }

  /** The pieces so far, and one more. */
  lemma ExcusedNext(datas: seq<seq<byte>>, counts: seq<nat>, full: bool, more: seq<seq<byte>>, taken: seq<nat>,
      now: bool)
    requires |more| == |taken| == |datas| + 1 && |counts| == |datas| && more[..|datas|] == datas
    requires taken[..|datas|] == counts && (forall i :: 0 <= i < |more| ==> taken[i] <= |more[i]|)
    requires forall i :: 0 <= i < |datas| ==> counts[i] <= |datas[i]|
    requires Excused(datas, counts, full) && (full ==> now)
    requires taken[|datas|] == |more[|datas|]| || now || (taken[|datas|] == 0 &&
               |Taken(datas, counts)| + |more[|datas|]| >= 0x1_0000_0000)
    ensures Excused(more, taken, now)
  {
    hide Taken;
    forall i: nat {:trigger TooLong(more, taken, i)} | i < |more| && taken[i] < |more[i]|
      ensures now || (taken[i] == 0 && TooLong(more, taken, i))
    {
      if i < |datas| {
        assert more[i] == more[..|datas|][i] == datas[i] && taken[i] == taken[..|datas|][i] == counts[i];
        assert more[..i] == datas[..i] && taken[..i] == counts[..i];
        assert TooLong(datas, counts, i) == TooLong(more, taken, i);
      }
    }
  }

  function Concat(outs: seq<seq<byte>>): seq<byte> {
    if outs == [] then [] else Concat(outs[..|outs| - 1]) + outs[|outs| - 1]
  }

  function Sum(sizes: seq<nat>): nat {
    if sizes == [] then 0 else Sum(sizes[..|sizes| - 1]) + sizes[|sizes| - 1]
  }

  function Least(a: nat, b: nat): nat { if a < b then a else b }

  method ToArray(d: seq<byte>) returns (a: array<byte>)
    ensures fresh(a) && a[..] == d
  {
    a := new byte[|d|](i requires 0 <= i < |d| => d[i]);
  }

  lemma TakenNone()
    ensures Taken([], []) == [] && Excused([], [], false) && Excused([], [], true)
  {
  }

  lemma TakenNext(datas: seq<seq<byte>>, counts: seq<nat>)
    requires |counts| == |datas| > 0 && forall i :: 0 <= i < |datas| ==> counts[i] <= |datas[i]|
    ensures var n := |datas| - 1;
      Taken(datas, counts) == Taken(datas[..n], counts[..n]) + datas[n][..counts[n]]
  {
  }

  lemma FullStays(F: seq<nat>, chain: seq<nat>, F': seq<nat>, chain': seq<nat>)
    requires Within(F, chain, F', chain')
    ensures Full(F) ==> Full(F')
  {
  }

  /** One f_write call. */
  method WriteIn(f: File, data: seq<byte>, ghost w: seq<byte>) returns (bw: nat)
    requires f.Writer(w) && f.can_write && !f.error && |data| < 0x1_0000_0000 && f.fs.Valid()
    modifies f`csect, f`fptr, f`fsize, f`dirty, f`dsect, f`org_clust, f`curr_clust, f`written, f`chain, f.buf
    modifies f.fs`disk, f.fs`winsect, f.fs`wflag, f.fs.win, f.fs`free_clust, f.fs`fsi_flag, f.fs`last_clust
    ensures bw <= |data| && f.Writer(w + data[..bw]) && (old(f.written) ==> f.written) && f.fs.Valid()
    ensures old(Full(f.fs.Fat())) ==> Full(f.fs.Fat())
    ensures bw < |data| ==> Full(f.fs.Fat()) || (bw == 0 && |w| + |data| >= 0x1_0000_0000)
  {
    hide File.Appending, File.Buffered, File.Writer, Full, Within, Spared, Sane, FatOf, CopiesOK;
    ghost var F, c := f.fs.Fat(), f.chain;
    var a := ToArray(data);
    var res;
    res, bw := f.Write(a, a.Length, w);
    assert a[..bw] == data[..bw];
    FullStays(F, c, f.fs.Fat(), f.chain);
  }

  /** A sequence of f_write calls. */
  method WriteAll(f: File, datas: seq<seq<byte>>) returns (counts: seq<nat>)
    requires f.Writer([]) && f.can_write && !f.error && forall i :: 0 <= i < |datas| ==> |datas[i]| < 0x1_0000_0000
    modifies f`csect, f`fptr, f`fsize, f`dirty, f`dsect, f`org_clust, f`curr_clust, f`written, f`chain, f.buf
    modifies f.fs`disk, f.fs`winsect, f.fs`wflag, f.fs.win, f.fs`free_clust, f.fs`fsi_flag, f.fs`last_clust
    ensures |counts| == |datas| && forall i :: 0 <= i < |datas| ==> counts[i] <= |datas[i]|
    ensures f.Writer(Taken(datas, counts)) && (old(f.written) ==> f.written)
    ensures f.fs.Valid() && Excused(datas, counts, Full(f.fs.Fat()))
  {
    hide File.Appending, File.Buffered, File.Writer, Full, Within, Spared, Taken, Excused, Sane, FatOf,
      CopiesOK, Concat;
    TakenNone();
    f.WriterStarts([]);
    counts := [];
    for i := 0 to |datas|
      invariant |counts| == i && (forall j :: 0 <= j < i ==> counts[j] <= |datas[j]|)
      invariant f.Writer(Taken(datas[..i], counts)) && !f.error && (old(f.written) ==> f.written)
      invariant f.fs.Valid() && Excused(datas[..i], counts, Full(f.fs.Fat()))
    {
      ghost var w, full := Taken(datas[..i], counts), Full(f.fs.Fat());
      var bw := WriteIn(f, datas[i], w);
      var more := counts + [bw];
      assert datas[..i + 1][..i] == datas[..i] && more[..i] == counts;
      TakenNext(datas[..i + 1], more);
      ExcusedNext(datas[..i], counts, full, datas[..i + 1], more, Full(f.fs.Fat()));
      counts := more;
    }
    assert datas[..|datas|] == datas;
  }

  /** A sequence of f_read calls. */
  method ReadAll(r: File, sizes: seq<nat>, ghost w: seq<byte>) returns (outs: seq<seq<byte>>)
    requires r.Reader(w) && r.can_read && !r.error && r.fptr == 0 && r.fs.Valid()
    modifies r.buf, r`fptr, r`csect, r`curr_clust, r`dsect, r.fs`disk, r.fs`winsect, r.fs`wflag, r.fs.win
    ensures |outs| == |sizes| && r.Reader(w) && r.fptr == Least(Sum(sizes), |w|) && Concat(outs) == w[..r.fptr]
    ensures r.fs.Valid() && r.fs.Fat() == old(r.fs.Fat())
  {
    hide File.Readable, File.Reader;
    outs := [];
    for i := 0 to |sizes|
      invariant |outs| == i && r.Reader(w) && r.fptr == Least(Sum(sizes[..i]), |w|) && Concat(outs) == w[..r.fptr]
      invariant r.fs.Valid() && r.fs.Fat() == old(r.fs.Fat())
    {
      ghost var p := r.fptr;
      var out := ReadOut(r, sizes[i], w);
      var more := outs + [out];
      assert more[..i] == outs && sizes[..i + 1][..i] == sizes[..i];
      assert w[..p] + w[p..r.fptr] == w[..r.fptr];
      outs := more;
    }
    assert sizes[..|sizes|] == sizes;
  }

  /** One f_read call. */
  method ReadOut(r: File, size: nat, ghost w: seq<byte>) returns (out: seq<byte>)
    requires r.Reader(w) && r.can_read && !r.error && r.fptr <= |w| && r.fs.Valid()
    modifies r.buf, r`fptr, r`csect, r`curr_clust, r`dsect, r.fs`disk, r.fs`winsect, r.fs`wflag, r.fs.win
    ensures r.Reader(w) && old(r.fptr) <= r.fptr == Least(old(r.fptr) + size, |w|) && out == w[old(r.fptr)..r.fptr]
    ensures r.fs.Valid() && r.fs.Fat() == old(r.fs.Fat())
  {
    hide File.Readable, File.Reader, Sane, FatOf, CopiesOK;
    var a := new byte[size](_ => 0);
    var res, br := r.Read(a, size, w);
    out := a[..br];
  }

  /** Whatever the calls of f_write took of the pieces given to them, on a file newly created and then synchronized,
      the calls of f_read on the file opened again return from its beginning, up to the sizes asked for. */
  method WriteThenRead(v: Volume, dir_ptr: nat, datas: seq<seq<byte>>, sizes: seq<nat>, tim: nat)
    returns (counts: seq<nat>, outs: seq<seq<byte>>)
    requires v.Valid() && v.Counted() && Forest(v.Fat()) && v.winsect != 0
      && DirPlace(v.g, v.sectors, v.winsect, dir_ptr)
    requires DirApart(v.g, v.Fat(), [], v.winsect)
    requires EntryCluster(v.win[..], dir_ptr) == 0 && EntrySize(v.win[..], dir_ptr) == 0
    requires forall i :: 0 <= i < |datas| ==> |datas[i]| < 0x1_0000_0000
    modifies v`disk, v`winsect, v`wflag, v.win, v`free_clust, v`fsi_flag, v`last_clust
    ensures |counts| == |datas| && forall i :: 0 <= i < |datas| ==> counts[i] <= |datas[i]|
    ensures var w := Taken(datas, counts); |outs| == |sizes| && Concat(outs) == w[..Least(Sum(sizes), |w|)]
    ensures v.Valid() && Excused(datas, counts, Full(v.Fat()))
  {
    hide Full, Excused, Sane, FatOf, CopiesOK, Allocated, Forest, DirPlace, DirApart, EntryCluster, EntrySize, InFat,
      File.Reader;
    DataRoom(v.g, v.sectors);
    DirFacts(v.g, v.sectors, v.winsect, dir_ptr);
    var f := new File(v, true, true, true, dir_ptr, []);
    counts := WriteAll(f, datas);
    ghost var w := Taken(datas, counts);
    f.SyncFile(tim, w);
    var r := File.Reopen(f, w);
    outs := ReadAll(r, sizes, w);
  }
}
