/** Pages and clusters of the NAND image: nand_read_sector to nand_write_cluster_encrypted in
    wiinandfuse/source/main.c. */
module Nand {
  import opened Octets
  import opened Ecc
  import Cbc
  import Rijndael

  // ---------- the image file ----------

  function Max(a: nat, b: nat): nat { if a >= b then a else b }

  /** The file after `data` is written at pos; a gap behind its end is filled with zeros. */
  function Overwrite(f: seq<byte>, pos: nat, data: seq<byte>): (g: seq<byte>)
    requires |data| > 0
    ensures |g| == Max(|f|, pos + |data|)
    ensures g[pos..pos + |data|] == data
    ensures forall i :: 0 <= i < |f| && (i < pos || pos + |data| <= i) ==> g[i] == f[i]
    ensures forall i :: |f| <= i < pos ==> g[i] == 0
  {
    (if pos <= |f| then f[..pos] else f + Zeros(pos - |f|)) + data
    + if pos + |data| <= |f| then f[pos + |data|..] else []
  }

  /** Two writes, one right behind the other, are one write. */
  lemma WriteOn(f: seq<byte>, pos: nat, a: seq<byte>, b: seq<byte>)
    requires |a| > 0 && |b| > 0
    ensures Overwrite(Overwrite(f, pos, a), pos + |a|, b) == Overwrite(f, pos, a + b)
  {
    var g := Overwrite(f, pos, a);
    var h, k := Overwrite(g, pos + |a|, b), Overwrite(f, pos, a + b);
    forall i | 0 <= i < |h|
      ensures h[i] == k[i]
    {
      if pos <= i < pos + |a| {
        assert g[i] == g[pos..pos + |a|][i - pos] && k[i] == k[pos..pos + |a| + |b|][i - pos];
      } else if pos + |a| <= i < pos + |a| + |b| {
        assert h[i] == h[pos + |a|..pos + |a| + |b|][i - pos - |a|];
        assert k[i] == k[pos..pos + |a| + |b|][i - pos];
      }
    }
  }

  /** The bytes that a read of n at pos delivers. */
  function Available(f: seq<byte>, pos: nat, n: nat): (x: seq<byte>)
    ensures |x| <= n && (pos + n <= |f| ==> x == f[pos..pos + n]) && (pos >= |f| ==> x == [])
  {
    if pos + n <= |f| then f[pos..pos + n] else if pos <= |f| then f[pos..] else []
  }

  /** What a read at pos makes of a buffer: bytes that the file does not have stay as they were. */
  function Fetched(f: seq<byte>, pos: nat, was: seq<byte>): (r: seq<byte>)
    ensures |r| == |was|
  {
    Available(f, pos, |was|) + was[|Available(f, pos, |was|)|..]
  }

  /** Nothing is read from behind the end of the file, wherever that is. */
  lemma FetchedBehind(f: seq<byte>, p: nat, q: nat, was: seq<byte>)
    requires p == q || (p >= |f| && q >= |f|)
    ensures Fetched(f, p, was) == Fetched(f, q, was)
  {
    hide Available;
  }

  lemma FetchedParts(b: seq<byte>, off: nat, n: nat, x: seq<byte>)
    requires off + n <= |b| && |x| <= n
    ensures b[..off] + (x + b[off..off + n][|x|..]) + b[off + n..] == b[..off] + x + b[off + |x|..]
  {
    assert b[off + |x|..] == b[off..off + n][|x|..] + b[off + n..];
  }

  // ---------- pages ----------

  const SPARE := 0x40
  const RAW := 0x840

  /** Where page s is in an image with or without spare areas. */
  function At(hasEcc: bool, s: nat): nat {
    if hasEcc then RAW * s else PAGE * s
  }

  /** The spare area that is written with a page: its last 16 bytes are the codes. */
  function SpareOut(page: seq<byte>, e: seq<byte>): (s: seq<byte>)
    requires |page| == PAGE && |e| == SPARE
    ensures |s| == SPARE
  {
    e[..0x30] + PageCode(page)
  }

  function Page(data: seq<byte>, k: nat): (p: seq<byte>)
    requires PAGE * k + PAGE <= |data|
    ensures |p| == PAGE
  {
    data[PAGE * k..PAGE * k + PAGE]
  }

  function Spare(ecc: seq<byte>, k: nat): (p: seq<byte>)
    requires SPARE * k + SPARE <= |ecc|
    ensures |p| == SPARE
  {
    ecc[SPARE * k..SPARE * k + SPARE]
  }

  /** The k-th page as it is written: in an image with spare areas the given one follows, with the codes
      put in, or zeros if none is given. */
  function Raw(hasEcc: bool, coded: bool, data: seq<byte>, ecc: seq<byte>, k: nat): (r: seq<byte>)
    requires PAGE * k + PAGE <= |data| && (coded ==> SPARE * k + SPARE <= |ecc|)
    ensures |r| == At(hasEcc, 1)
  {
    Page(data, k)
    + if !hasEcc then [] else if coded then SpareOut(Page(data, k), Spare(ecc, k)) else Zeros(SPARE)
  }

  /** The first n pages as they are written, one behind the other. */
  function Pages(hasEcc: bool, coded: bool, data: seq<byte>, ecc: seq<byte>, n: nat): (r: seq<byte>)
    requires PAGE * n <= |data| && (coded ==> SPARE * n <= |ecc|)
    ensures |r| == At(hasEcc, n)
  {
    if n == 0 then [] else Pages(hasEcc, coded, data, ecc, n - 1) + Raw(hasEcc, coded, data, ecc, n - 1)
  }

  lemma {:induction false} PagesAt(hasEcc: bool, coded: bool, data: seq<byte>, ecc: seq<byte>, n: nat, k: nat)
    requires PAGE * n <= |data| && (coded ==> SPARE * n <= |ecc|) && k < n
    ensures Pages(hasEcc, coded, data, ecc, n)[At(hasEcc, k)..At(hasEcc, k + 1)] == Raw(hasEcc, coded, data, ecc, k)
  {
    hide Raw;
    if k < n - 1 {
      PagesAt(hasEcc, coded, data, ecc, n - 1, k);
    }
  }

  /** The file with the first n pages written from page s on. */
  function Written(f: seq<byte>, hasEcc: bool, coded: bool, data: seq<byte>, ecc: seq<byte>, s: nat, n: nat): seq<byte>
    requires PAGE * n <= |data| && (coded ==> SPARE * n <= |ecc|)
  {
    if n == 0 then f else Overwrite(f, At(hasEcc, s), Pages(hasEcc, coded, data, ecc, n))
  }

  /** One page more. */
  lemma WrittenNext(f: seq<byte>, hasEcc: bool, coded: bool, data: seq<byte>, ecc: seq<byte>, s: nat, n: nat)
    requires PAGE * n + PAGE <= |data| && (coded ==> SPARE * n + SPARE <= |ecc|)
    ensures Overwrite(Written(f, hasEcc, coded, data, ecc, s, n), At(hasEcc, s + n), Raw(hasEcc, coded, data, ecc, n))
         == Written(f, hasEcc, coded, data, ecc, s, n + 1)
  {
    hide Raw, Overwrite;
    var p, r := Pages(hasEcc, coded, data, ecc, n), Raw(hasEcc, coded, data, ecc, n);
    if n == 0 {
      assert Pages(hasEcc, coded, data, ecc, 1) == r;
    } else {
      WriteOn(f, At(hasEcc, s), p, r);
    }
  }

  lemma Slice(f: seq<byte>, a: nat, b: nat, lo: nat, hi: nat)
    requires a <= b <= |f| && lo <= hi <= b - a
    ensures f[a..b][lo..hi] == f[a + lo..a + hi]
  {
    var x, y := f[a..b][lo..hi], f[a + lo..a + hi];
    assert |x| == |y| && forall i :: 0 <= i < hi - lo ==> x[i] == f[a..b][lo + i] == f[a + lo + i] == y[i];
  }

  /** Buffers that agree from `at` on agree on the next n bytes and on what is behind them. */
  lemma Tails(now: seq<byte>, was: seq<byte>, at: nat, n: nat)
    requires at + n <= |now| == |was| && now[at..] == was[at..]
    ensures now[at..at + n] == was[at..at + n] && now[at + n..] == was[at + n..]
  {
    assert now[at..at + n] == now[at..][..n] && was[at..at + n] == was[at..][..n];
    assert now[at + n..] == now[at..][n..] && was[at + n..] == was[at..][n..];
  }

  /** Replacing x bytes at b leaves every part that does not meet them. */
  lemma Aside(before: seq<byte>, after: seq<byte>, b: nat, x: seq<byte>, lo: nat, hi: nat)
    requires b + |x| <= |before| && after == before[..b] + x + before[b + |x|..]
    requires lo <= hi <= |before| && (hi <= b || b + |x| <= lo)
    ensures |after| == |before| && after[lo..hi] == before[lo..hi] && after[b..b + |x|] == x
  {
  }

  // ---------- what is written is what is read ----------

  /** Page s of the file with its spare area. */
  function Stored(hasEcc: bool, f: seq<byte>, s: nat): (p: seq<byte>)
    requires At(hasEcc, s + 1) <= |f|
    ensures |p| == At(hasEcc, 1)
  {
    f[At(hasEcc, s)..At(hasEcc, s + 1)]
  }

  lemma WrittenStored(f: seq<byte>, hasEcc: bool, coded: bool, data: seq<byte>, ecc: seq<byte>, s: nat, n: nat, k: nat)
    requires PAGE * n <= |data| && (coded ==> SPARE * n <= |ecc|) && k < n
    ensures var g := Written(f, hasEcc, coded, data, ecc, s, n);
      && |g| == Max(|f|, At(hasEcc, s + n)) && Stored(hasEcc, g, s + k) == Raw(hasEcc, coded, data, ecc, k)
  {
    hide Raw, Overwrite, Pages;
    PagesAt(hasEcc, coded, data, ecc, n, k);
    var a := At(hasEcc, s);
    Slice(Written(f, hasEcc, coded, data, ecc, s, n), a, a + At(hasEcc, n), At(hasEcc, k), At(hasEcc, k + 1));
  }

  /** Where the bytes of page s + k and of its spare area are in the file. */
  lemma BytePlaces(f: seq<byte>, hasEcc: bool, coded: bool, data: seq<byte>, ecc: seq<byte>, s: nat, n: nat, k: nat)
    requires PAGE * n <= |data| && (coded ==> SPARE * n <= |ecc|) && k < n
    ensures var g := Written(f, hasEcc, coded, data, ecc, s, n);
      var p := (if hasEcc then 2112 else 2048) * (s + k);
      && p + (if hasEcc then 2112 else 2048) <= |g|
      && g[p..p + 2048] == data[2048 * k..2048 * k + 2048]
      && (hasEcc && coded ==>
            && g[p + 2048..p + 2096] == ecc[64 * k..64 * k + 48]
            && g[p + 2096..p + 2112] == PageCode(data[2048 * k..2048 * k + 2048]))
      && (hasEcc && !coded ==> g[p + 2048..p + 2112] == Zeros(64))
  {
    hide Written, PageCode, Raw;
    WrittenStored(f, hasEcc, coded, data, ecc, s, n, k);
    var g := Written(f, hasEcc, coded, data, ecc, s, n);
    var p := At(hasEcc, s + k);
    RawParts(hasEcc, coded, data, ecc, k);
    Slice(g, p, p + At(hasEcc, 1), 0, 2048);
    if hasEcc {
      Slice(g, p, p + 2112, 2048, 2096);
      Slice(g, p, p + 2112, 2096, 2112);
      Slice(g, p, p + 2112, 2048, 2112);
    }
  }

  lemma RawParts(hasEcc: bool, coded: bool, data: seq<byte>, ecc: seq<byte>, k: nat)
    requires PAGE * k + PAGE <= |data| && (coded ==> SPARE * k + SPARE <= |ecc|)
    ensures var r := Raw(hasEcc, coded, data, ecc, k);
      && r[0..2048] == data[2048 * k..2048 * k + 2048]
      && (hasEcc && coded ==>
            && r[2048..2096] == ecc[64 * k..64 * k + 48]
            && r[2096..2112] == PageCode(data[2048 * k..2048 * k + 2048]))
      && (hasEcc && !coded ==> r[2048..2112] == Zeros(64))
  {
    hide PageCode;
    if hasEcc && coded {
      Slice(ecc, 64 * k, 64 * k + 64, 0, 0x30);
      var e := Spare(ecc, k);
      assert Raw(hasEcc, coded, data, ecc, k) == Page(data, k) + e[0..0x30] + PageCode(Page(data, k));
    }
  }

  /** Bytes before and behind the pages stay. */
  lemma WrittenElsewhere(f: seq<byte>, hasEcc: bool, coded: bool, data: seq<byte>, ecc: seq<byte>, s: nat, n: nat,
      i: nat)
    requires PAGE * n <= |data| && (coded ==> SPARE * n <= |ecc|)
    requires i < |f| && (i < At(hasEcc, s) || At(hasEcc, s + n) <= i)
    ensures var g := Written(f, hasEcc, coded, data, ecc, s, n); i < |g| && g[i] == f[i]
  {
    hide Overwrite;
  }

  lemma FetchedStored(hasEcc: bool, f: seq<byte>, s: nat, was: seq<byte>, spare: seq<byte>)
    requires At(hasEcc, s + 1) <= |f| && |was| == PAGE && |spare| == SPARE
    ensures Fetched(f, At(hasEcc, s), was) == Stored(hasEcc, f, s)[..PAGE]
    ensures hasEcc ==> Fetched(f, At(true, s) + PAGE, spare) == Stored(true, f, s)[PAGE..]
  {
    var a, b := At(hasEcc, s), At(hasEcc, s + 1);
    Slice(f, a, b, 0, PAGE);
    Slice(f, a, b, PAGE, b - a);
    assert Fetched(f, a, was) == Available(f, a, PAGE);
    assert hasEcc ==> Fetched(f, a + PAGE, spare) == Available(f, a + PAGE, SPARE);
  }

  /** A page that was written with codes passes the check. */
  lemma RawPasses(data: seq<byte>, ecc: seq<byte>, k: nat)
    requires PAGE * k + PAGE <= |data| && SPARE * k + SPARE <= |ecc|
    ensures CheckResult(Raw(true, true, data, ecc, k)) == 0
  {
    hide PageCode;
    var p, page := Raw(true, true, data, ecc, k), Page(data, k);
    PageCodePrefix(p);
    assert p[..PAGE] == page && p[CODES..CODES + 16] == PageCode(page);
    StoredPagePasses(p);
  }

  // ---------- clusters ----------

  const CLUSTER := 0x4000

  /** The spare areas of a cluster: the authentication code in that of page 6 from byte 1 on, its first
      12 bytes once more behind it, and its last 8 bytes in that of page 7. */
  function ClusterSpares(h: seq<byte>): (e: seq<byte>)
    requires h == [] || |h| == 20
    ensures |e| == SPARE * 8
  {
    if h == [] then Zeros(0x200)
    else Zeros(0x181) + h + h[..12] + Zeros(0x20) + h[12..] + Zeros(0x37)
  }

  lemma SparesHold(h: seq<byte>)
    requires |h| == 20
    ensures var e := ClusterSpares(h);
      && Spare(e, 6)[1..21] == h && Spare(e, 6)[21..33] == h[..12] && Spare(e, 7)[1..9] == h[12..]
  {
    var e := ClusterSpares(h);
    assert e[0x181..0x195] == h && e[0x195..0x1A1] == h[..12] && e[0x1C1..0x1C9] == h[12..];
    assert Spare(e, 6)[1..21] == e[0x181..0x195] && Spare(e, 6)[21..33] == e[0x195..0x1A1];
    assert Spare(e, 7)[1..9] == e[0x1C1..0x1C9];
  }

  /** memcpy */
  method Put(dst: array<byte>, at: nat, src: array<byte>, from: nat, n: nat)
    requires at + n <= dst.Length && from + n <= src.Length && dst != src
    modifies dst
    ensures dst[..] == old(dst[..at]) + src[from..from + n] + old(dst[at + n..])
  {
    for i := 0 to n
      invariant dst[..at] == old(dst[..at]) && dst[at + i..] == old(dst[at + i..])
      invariant dst[at..at + i] == src[from..from + i]
    {
      dst[at + i] := src[from + i];
    }
    assert dst[..] == dst[..at] + dst[at..at + n] + dst[at + n..];
  }

  /** The three copies of nand_write_cluster. */
  method PlaceHmac(hmac: array<byte>) returns (eccbuf: array<byte>)
    requires hmac.Length == 20
    ensures fresh(eccbuf) && eccbuf[..] == ClusterSpares(hmac[..])
  {
    eccbuf := new byte[0x200](_ => 0);
    hide Zeros, ClusterSpares;
    ghost var h, e0 := hmac[..], eccbuf[..];
    Put(eccbuf, 0x181, hmac, 0, 20);
    ghost var e1 := eccbuf[..];
    Put(eccbuf, 0x195, hmac, 0, 12);
    ghost var e2 := eccbuf[..];
    Put(eccbuf, 0x1C1, hmac, 12, 8);
    SparesBuilt(h, e0, e1, e2, eccbuf[..]);
  }

  method NoHmac() returns (eccbuf: array<byte>)
    ensures fresh(eccbuf) && eccbuf[..] == ClusterSpares([])
  {
    eccbuf := new byte[0x200](_ => 0);
  }

  lemma SparesBuilt(h: seq<byte>, e0: seq<byte>, e1: seq<byte>, e2: seq<byte>, e3: seq<byte>)
    requires |h| == 20 && |e0| == 0x200 && forall i :: 0 <= i < 0x200 ==> e0[i] == 0
    requires e1 == e0[..0x181] + h[0..20] + e0[0x181 + 20..]
    requires e2 == e1[..0x195] + h[0..12] + e1[0x195 + 12..]
    requires e3 == e2[..0x1C1] + h[12..20] + e2[0x1C1 + 8..]
    ensures e3 == ClusterSpares(h)
  {
    assert e1 == Zeros(0x181) + h + Zeros(0x6B);
    assert e2 == Zeros(0x181) + h + h[..12] + Zeros(0x5F);
  }

  /** What a spare area is after its page has been written. */
  function Stamped(hasEcc: bool, d: seq<byte>, e: seq<byte>, k: nat): (s: seq<byte>)
    requires PAGE * k + PAGE <= |d| && SPARE * k + SPARE <= |e|
    ensures |s| == SPARE
  {
    if hasEcc then SpareOut(Page(d, k), Spare(e, k)) else Spare(e, k)
  }

  /** The first n spare areas are those of written pages, the others as they were. */
  ghost predicate AllStamped(hasEcc: bool, d: seq<byte>, was: seq<byte>, now: seq<byte>, n: nat) {
    && |now| == |was| && SPARE * n <= |was| && PAGE * n <= |d| && now[SPARE * n..] == was[SPARE * n..]
    && forall j: nat {:trigger Spare(now, j)} :: j < n ==> Spare(now, j) == Stamped(hasEcc, d, was, j)
  }

  lemma StampedNext(hasEcc: bool, d: seq<byte>, was: seq<byte>, now: seq<byte>, n: nat, next: seq<byte>)
    requires AllStamped(hasEcc, d, was, now, n) && PAGE * n + PAGE <= |d| && SPARE * n + SPARE <= |was|
    requires next == now[..SPARE * n] + Stamped(hasEcc, d, was, n) + now[SPARE * n + SPARE..]
    ensures AllStamped(hasEcc, d, was, next, n + 1)
  {
    hide Stamped;
    Tails(now, was, SPARE * n, SPARE);
    var x := Stamped(hasEcc, d, was, n);
    Aside(now, next, SPARE * n, x, SPARE * n + SPARE, |now|);
    forall j: nat | j < n + 1
      ensures Spare(next, j) == Stamped(hasEcc, d, was, j)
    {
      if j < n {
        Aside(now, next, SPARE * n, x, SPARE * j, SPARE * j + SPARE);
        assert Spare(next, j) == Spare(now, j);
      }
    }
  }

  /** The first n pages of a buffer have been read from page s of the file on. */
  ghost predicate PagesFetched(hasEcc: bool, f: seq<byte>, s: nat, was: seq<byte>, now: seq<byte>, n: nat) {
    && |now| == |was| && PAGE * n <= |was| && now[PAGE * n..] == was[PAGE * n..]
    && forall j: nat {:trigger Page(now, j)} :: j < n ==> Page(now, j) == Fetched(f, At(hasEcc, s + j), Page(was, j))
  }

  /** And the first n spare areas. */
  ghost predicate SparesFetched(f: seq<byte>, s: nat, was: seq<byte>, now: seq<byte>, n: nat) {
    && |now| == |was| && SPARE * n <= |was| && now[SPARE * n..] == was[SPARE * n..]
    && forall j: nat {:trigger Spare(now, j)} :: j < n ==>
        Spare(now, j) == Fetched(f, At(true, s + j) + PAGE, Spare(was, j))
  }

  lemma PagesFetchedNext(hasEcc: bool, f: seq<byte>, s: nat, was: seq<byte>, now: seq<byte>, n: nat, next: seq<byte>)
    requires PagesFetched(hasEcc, f, s, was, now, n) && PAGE * n + PAGE <= |was|
    requires var x := Fetched(f, At(hasEcc, s + n), Page(now, n));
      next == now[..PAGE * n] + x + now[PAGE * n + PAGE..]
    ensures PagesFetched(hasEcc, f, s, was, next, n + 1)
  {
    hide Fetched;
    Tails(now, was, PAGE * n, PAGE);
    var x := Fetched(f, At(hasEcc, s + n), Page(now, n));
    Aside(now, next, PAGE * n, x, PAGE * n + PAGE, |now|);
    forall j: nat | j < n + 1
      ensures Page(next, j) == Fetched(f, At(hasEcc, s + j), Page(was, j))
    {
      if j < n {
        Aside(now, next, PAGE * n, x, PAGE * j, PAGE * j + PAGE);
        assert Page(next, j) == Page(now, j);
      }
    }
  }

  lemma SparesFetchedNext(f: seq<byte>, s: nat, was: seq<byte>, now: seq<byte>, n: nat, next: seq<byte>)
    requires SparesFetched(f, s, was, now, n) && SPARE * n + SPARE <= |was|
    requires var x := Fetched(f, At(true, s + n) + PAGE, Spare(now, n));
      next == now[..SPARE * n] + x + now[SPARE * n + SPARE..]
    ensures SparesFetched(f, s, was, next, n + 1)
  {
    hide Fetched;
    Tails(now, was, SPARE * n, SPARE);
    var x := Fetched(f, At(true, s + n) + PAGE, Spare(now, n));
    Aside(now, next, SPARE * n, x, SPARE * n + SPARE, |now|);
    forall j: nat | j < n + 1
      ensures Spare(next, j) == Fetched(f, At(true, s + j) + PAGE, Spare(was, j))
    {
      if j < n {
        Aside(now, next, SPARE * n, x, SPARE * j, SPARE * j + SPARE);
        assert Spare(next, j) == Spare(now, j);
      }
    }
  }

  /** What is checked last is the last page of a file that holds all the pages asked for. */
  lemma LastStored(f: seq<byte>, s: nat, n: nat, d: seq<byte>, data: seq<byte>, e: seq<byte>, spares: seq<byte>)
    requires n > 0 && At(true, s + n) <= |f|
    requires PagesFetched(true, f, s, d, data, n) && SparesFetched(f, s, e, spares, n)
    ensures Page(data, n - 1) + Spare(spares, n - 1) == Stored(true, f, s + n - 1)
  {
    hide Fetched, Stored;
    assert Page(data, n - 1) == Fetched(f, At(true, s + n - 1), Page(d, n - 1));
    assert Spare(spares, n - 1) == Fetched(f, At(true, s + n - 1) + PAGE, Spare(e, n - 1));
    FetchedStored(true, f, s + n - 1, Page(d, n - 1), Spare(e, n - 1));
  }

  lemma LastSpares(f: seq<byte>, s: nat, d: seq<byte>, data: seq<byte>, e: seq<byte>, spares: seq<byte>)
    requires At(true, s + 8) <= |f| && |data| == |d| >= CLUSTER && |spares| == |e| == SPARE * 8
    requires PagesFetched(true, f, s, d, data, 8) && SparesFetched(f, s, e, spares, 8)
    ensures spares[0x180..0x1C0] == Stored(true, f, s + 6)[PAGE..]
      && spares[0x1C0..0x200] == Stored(true, f, s + 7)[PAGE..]
    ensures Page(data, 7) + Spare(spares, 7) == Stored(true, f, s + 7)
  {
    hide Fetched, Stored;
    assert Spare(spares, 6) == Fetched(f, At(true, s + 6) + PAGE, Spare(e, 6));
    assert Spare(spares, 7) == Fetched(f, At(true, s + 7) + PAGE, Spare(e, 7));
    assert Page(data, 7) == Fetched(f, At(true, s + 7), Page(d, 7));
    FetchedStored(true, f, s + 6, Page(d, 6), Spare(e, 6));
    FetchedStored(true, f, s + 7, Page(d, 7), Spare(e, 7));
  }

  /** Pages that were written are the pages that are read. */
  lemma WrittenFetched(f: seq<byte>, hasEcc: bool, data: seq<byte>, ecc: seq<byte>, s: nat, was: seq<byte>,
      now: seq<byte>)
    requires |data| == |now| == |was| == CLUSTER && |ecc| == SPARE * 8
    requires PagesFetched(hasEcc, Written(f, hasEcc, true, data, ecc, s, 8), s, was, now, 8)
    ensures now == data
  {
    hide Written, Fetched, Stored;
    var g := Written(f, hasEcc, true, data, ecc, s, 8);
    forall j: nat | j < 8
      ensures Page(now, j) == Page(data, j)
    {
      WrittenStored(f, hasEcc, true, data, ecc, s, 8, j);
      FetchedStored(hasEcc, g, s + j, Page(was, j), Zeros(SPARE));
      hide SpareOut;
      assert Raw(hasEcc, true, data, ecc, j)[..PAGE] == Page(data, j);
    }
    SamePages(now, data);
  }

  lemma SamePages(a: seq<byte>, b: seq<byte>)
    requires |a| == |b| == CLUSTER && forall j: nat :: j < 8 ==> Page(a, j) == Page(b, j)
    ensures a == b
  {
    forall i | 0 <= i < CLUSTER
      ensures a[i] == b[i]
    {
      var j := i / PAGE;
      assert Page(a, j)[i - PAGE * j] == a[i] && Page(b, j)[i - PAGE * j] == b[i];
    }
  }

  predicate Passes(f: seq<byte>, s: nat, j: nat)
    requires At(true, s + j + 1) <= |f|
  {
    CheckResult(Stored(true, f, s + j)) == 0
  }

  /** Each of n pages from page s on passes the check. */
  ghost predicate AllPass(f: seq<byte>, s: nat, n: nat) {
    At(true, s + n) <= |f| && forall j: nat {:trigger Passes(f, s, j)} :: j < n ==> Passes(f, s, j)
  }

  lemma WrittenPasses(f: seq<byte>, data: seq<byte>, ecc: seq<byte>, s: nat)
    requires |data| >= CLUSTER && |ecc| == SPARE * 8
    ensures AllPass(Written(f, true, true, data, ecc, s, 8), s, 8)
  {
    hide Written, CheckResult, Raw, Stored;
    var g := Written(f, true, true, data, ecc, s, 8);
    WrittenStored(f, true, true, data, ecc, s, 8, 0);
    forall j: nat | j < 8
      ensures Passes(g, s, j)
    {
      WrittenStored(f, true, true, data, ecc, s, 8, j);
      RawPasses(data, ecc, j);
    }
  }

  lemma PassesAt(f: seq<byte>, s: nat, j: nat)
    requires AllPass(f, s, 8) && j < 8
    ensures At(true, s + j + 1) <= |f| && CheckResult(Stored(true, f, s + j)) == 0
  {
    hide CheckResult, Stored;
    assert Passes(f, s, j);
  }

  // ---------- only the check of the last page is reported ----------

  /** What nand_read_sector returns for n pages of a file that holds them all. */
  function Reported(f: seq<byte>, s: nat, n: nat): int
    requires n > 0 && At(true, s + n) <= |f|
  {
    CheckResult(Stored(true, f, s + n - 1))
  }

  /** A result 0 for n pages means that each of them passes the check, whatever the file holds. */
  ghost predicate ZeroMeansAll(n: nat)
    requires n > 0
  {
    forall f: seq<byte>, s: nat {:trigger Reported(f, s, n)} ::
      At(true, s + n) <= |f| && Reported(f, s, n) == 0 ==> AllPass(f, s, n)
  }

  /** A page of zeros with an impossible code: the second byte of a code has a clear high half. */
  function Damaged(): (p: seq<byte>)
    ensures |p| == RAW
  {
    Zeros(CODES + 1) + [0xff] + Zeros(14)
  }

  lemma DamagedFails()
    ensures CheckResult(Damaged()) == -1
  {
    var p := Damaged();
    CodeNotBlank(p[..512]);
    hide Code, Zeros;
    assert p[CODES] == 0 && p[CODES + 1] == 0xff;
    assert p[CODES..CODES + 16][1] == 0xff;
  }

  /** The damaged page in front of n good ones: all pages are asked for, the first fails and the result is 0. */
  lemma EarlyPageFails(n: nat) returns (f: seq<byte>)
    requires n > 0
    ensures At(true, n + 1) <= |f| && Reported(f, 0, n + 1) == 0 && !Passes(f, 0, 0)
  {
    hide CheckResult, Raw, Overwrite, Damaged, Zeros;
    var d, e := Zeros(PAGE * n), Zeros(SPARE * n);
    f := Written(Damaged(), true, true, d, e, 1, n);
    WrittenStored(Damaged(), true, true, d, e, 1, n, n - 1);
    RawPasses(d, e, n - 1);
    DamagedFails();
    assert Stored(true, f, 0) == Damaged();
  }

  /** The result speaks for all pages exactly if one page is read. */
  lemma ResultCoversAll(n: nat)
    requires n > 0
    ensures ZeroMeansAll(n) <==> n == 1
  {
    hide CheckResult, Stored;
    if n > 1 {
      var f := EarlyPageFails(n - 1);
      assert Reported(f, 0, n) == 0 && !Passes(f, 0, 0);
    } else {
      forall f: seq<byte>, s: nat | At(true, s + n) <= |f| && Reported(f, s, n) == 0
        ensures AllPass(f, s, n)
      {
        assert Passes(f, s, 0);
      }
    }
  }

  /** The authentication code as nand_read_cluster delivers it: whole in the first spare area, and its
      first 12 and last 8 bytes again. */
  predicate HmacIn(ecc: seq<byte>, h: seq<byte>)
    requires |ecc| == 0x80 && |h| == 20
  {
    ecc[1..21] == h && ecc[0x15..0x21] == h[..12] && ecc[0x41..0x49] == h[12..]
  }

  lemma HmacKept(f: seq<byte>, data: seq<byte>, h: seq<byte>, s: nat, ecc: seq<byte>)
    requires |data| >= CLUSTER && |h| == 20 && |ecc| == 0x80
    requires var g := Written(f, true, true, data, ClusterSpares(h), s, 8);
      At(true, s + 8) <= |g| && ecc == Stored(true, g, s + 6)[PAGE..] + Stored(true, g, s + 7)[PAGE..]
    ensures HmacIn(ecc, h)
  {
    var e := ClusterSpares(h);
    SparesHold(h);
    WrittenStored(f, true, true, data, e, s, 8, 6);
    WrittenStored(f, true, true, data, e, s, 8, 7);
    hide Written, ClusterSpares, Stored, PageCode;
    var x, y := SpareOut(Page(data, 6), Spare(e, 6)), SpareOut(Page(data, 7), Spare(e, 7));
    assert Raw(true, true, data, e, 6)[PAGE..] == x && Raw(true, true, data, e, 7)[PAGE..] == y;
    assert x[..0x30] == Spare(e, 6)[..0x30] && y[..0x30] == Spare(e, 7)[..0x30];
    HmacSlices(ecc, x, y, Spare(e, 6), Spare(e, 7));
  }

  lemma HmacSlices(ecc: seq<byte>, x: seq<byte>, y: seq<byte>, e6: seq<byte>, e7: seq<byte>)
    requires ecc == x + y && |x| == |y| == |e6| == |e7| == SPARE && x[..0x30] == e6[..0x30] && y[..0x30] == e7[..0x30]
    ensures ecc[1..21] == e6[1..21] && ecc[0x15..0x21] == e6[21..33] && ecc[0x41..0x49] == e7[1..9]
  {
    assert ecc[1..21] == x[..0x30][1..21] && e6[1..21] == e6[..0x30][1..21];
    assert ecc[0x15..0x21] == x[..0x30][21..33] && e6[21..33] == e6[..0x30][21..33];
    assert ecc[0x41..0x49] == y[..0x30][1..9] && e7[1..9] == e7[..0x30][1..9];
  }

  /** What nand_read_cluster delivers from a file that nand_write_cluster has written to. */
  lemma ClusterBack(f: seq<byte>, hasEcc: bool, data: seq<byte>, h: seq<byte>, s: nat, was: seq<byte>, now: seq<byte>,
                    ecc: seq<byte>, r: int)
    requires |data| == |now| == |was| == CLUSTER && |h| == 20 && |ecc| == 0x80 && (!hasEcc ==> r == 0)
    requires var g := Written(f, hasEcc, true, data, ClusterSpares(h), s, 8);
      && PagesFetched(hasEcc, g, s, was, now, 8)
      && (hasEcc && At(true, s + 8) <= |g| ==>
            && r == CheckResult(Stored(true, g, s + 7))
            && ecc == Stored(true, g, s + 6)[PAGE..] + Stored(true, g, s + 7)[PAGE..])
    ensures now == data && r == 0
    ensures hasEcc ==> AllPass(Written(f, true, true, data, ClusterSpares(h), s, 8), s, 8) && HmacIn(ecc, h)
  {
    hide Written, ClusterSpares, PagesFetched, CheckResult, Stored, AllPass, HmacIn;
    var e := ClusterSpares(h);
    WrittenFetched(f, hasEcc, data, e, s, was, now);
    if hasEcc {
      WrittenStored(f, true, true, data, e, s, 8, 7);
      WrittenPasses(f, data, e, s);
      PassesAt(Written(f, true, true, data, e, s, 8), s, 7);
      HmacKept(f, data, h, s, ecc);
    }
  }

  /** What nand_read_cluster makes of a file that may end before page s + 8: the spare areas are those of the file as
      far as it goes and what the stack held behind that, the last two are copied out and the last is checked. */
  ghost predicate ClusterRead(f: seq<byte>, s: nat, data: seq<byte>, ecc: seq<byte>, r: int) {
    exists e: seq<byte>, spares: seq<byte> {:trigger SparesFetched(f, s, e, spares, 8)} ::
      && |e| == 0x200 && SparesFetched(f, s, e, spares, 8) && (ecc != [] ==> ecc == spares[0x180..])
      && |data| >= CLUSTER && r == CheckResult(Page(data, 7) + Spare(spares, 7))
  }

  class Image {
    const hasEcc: bool
    var file: seq<byte>
    var pos: nat

    constructor (hasEcc: bool, file: seq<byte>)
      ensures this.hasEcc == hasEcc && this.file == file
    {
      this.hasEcc, this.file, this.pos := hasEcc, file, 0;
    }

    method Seek(p: nat)
      modifies this`pos
      ensures pos == p
    {
      pos := p;
    }

    /** read: as many of n bytes as the file has. */
    method Read(buf: array<byte>, off: nat, n: nat)
      requires off + n <= buf.Length
      modifies this`pos, buf
      ensures buf[..] == old(buf[..off]) + Fetched(file, old(pos), old(buf[off..off + n])) + old(buf[off + n..])
      ensures pos == if old(pos) + n <= |file| then old(pos) + n else Max(old(pos), |file|)
    {
      ghost var x := Available(file, pos, n);
      FetchedParts(buf[..], off, n, x);
      var m := if pos + n <= |file| then n else if pos <= |file| then |file| - pos else 0;
      hide Available;
      CopyOut(buf, off, m, x);
      pos := pos + m;
    }

    /** m bytes from the file position on. */
    method CopyOut(buf: array<byte>, off: nat, m: nat, ghost x: seq<byte>)
      requires off + m <= buf.Length && |x| == m && (m > 0 ==> pos + m <= |file| && x == file[pos..pos + m])
      modifies buf
      ensures buf[..] == old(buf[..off]) + x + old(buf[off + m..])
    {
      ghost var b := buf[..];
      for i := 0 to m
        invariant buf[..off] == b[..off] && buf[off + i..] == b[off + i..]
        invariant buf[off..off + i] == x[..i]
      {
        buf[off + i] := file[pos + i];
      }
      assert buf[..] == buf[..off] + buf[off..off + m] + buf[off + m..];
    }

    /** write */
    method Write(buf: array<byte>, off: nat, n: nat)
      requires 0 < n && off + n <= buf.Length
      modifies this`pos, this`file
      ensures file == Overwrite(old(file), old(pos), buf[off..off + n]) && pos == old(pos) + n
    {
      file := Overwrite(file, pos, buf[off..off + n]);
      pos := pos + n;
    }

    /** The file position is that of page s, or it and page s are both behind the end of the file. */
    predicate OnPage(s: nat)
      reads this
    {
      pos == At(hasEcc, s) || (pos >= |file| && At(hasEcc, s) >= |file|)
    }

    /** One turn of the loop of nand_read_sector: page s of the file, and its spare area if it is asked for. */
    method ReadPage(s: nat, buffer: array<byte>, k: nat, ecc: array?<byte>) returns (r: int)
      requires PAGE * k + PAGE <= buffer.Length && ecc != buffer && (ecc != null ==> SPARE * k + SPARE <= ecc.Length)
      requires OnPage(s)
      modifies this`pos, buffer, ecc
      ensures OnPage(s + 1)
      ensures var x := Fetched(file, At(hasEcc, s), old(Page(buffer[..], k)));
        buffer[..] == old(buffer[..PAGE * k]) + x + old(buffer[PAGE * k + PAGE..])
      ensures ecc != null && !hasEcc ==> ecc[..] == old(ecc[..])
      ensures ecc != null && hasEcc ==>
        var x := Fetched(file, At(true, s) + PAGE, old(Spare(ecc[..], k)));
        && ecc[..] == old(ecc[..SPARE * k]) + x + old(ecc[SPARE * k + SPARE..])
        && r == CheckResult(Page(buffer[..], k) + Spare(ecc[..], k))
      ensures ecc == null || !hasEcc ==> r == 0
    {
      hide CheckResult, Fetched;
      FetchedBehind(file, pos, At(hasEcc, s), Page(buffer[..], k));
      r := 0;
      Read(buffer, PAGE * k, PAGE);
      if hasEcc {
        if ecc != null {
          FetchedBehind(file, pos, At(true, s) + PAGE, Spare(ecc[..], k));
          Read(ecc, SPARE * k, SPARE);
          r := CheckPage(buffer, PAGE * k, ecc, SPARE * k);
        } else {
          Seek(pos + SPARE);
        }
      }
    }

    /** check_ecc on a page and its spare area. */
    static method CheckPage(buffer: array<byte>, b: nat, ecc: array<byte>, e: nat) returns (r: int)
      requires b + PAGE <= buffer.Length && e + SPARE <= ecc.Length
      ensures r == CheckResult(buffer[b..b + PAGE] + ecc[e..e + SPARE])
    {
      hide CheckResult;
      var buf := new byte[0x840](i requires 0 <= i < 0x840 reads buffer, ecc =>
        if i < PAGE then buffer[b + i] else ecc[e + i - PAGE]);
      assert buf[..] == buffer[b..b + PAGE] + ecc[e..e + SPARE];
      r := Check(buf);
    }

    /** nand_read_sector: the result is that of the last page. */
    method ReadSectors(sector: int, num: int, buffer: array<byte>, ecc: array?<byte>) returns (r: int)
      requires PAGE * num <= buffer.Length && ecc != buffer && (ecc != null ==> SPARE * num <= ecc.Length)
      modifies this`pos, buffer, ecc
      ensures sector < 0 || num <= 0 ==>
        r == 0 && buffer[..] == old(buffer[..]) && (ecc != null ==> ecc[..] == old(ecc[..]))
      ensures sector >= 0 && num > 0 ==> PagesFetched(hasEcc, file, sector, old(buffer[..]), buffer[..], num)
      ensures ecc != null && !hasEcc ==> ecc[..] == old(ecc[..])
      ensures sector >= 0 && num > 0 && ecc != null && hasEcc ==>
        && SparesFetched(file, sector, old(ecc[..]), ecc[..], num)
        && r == CheckResult(Page(buffer[..], num - 1) + Spare(ecc[..], num - 1))
        && (At(true, sector + num) <= |file| ==> r == Reported(file, sector, num))
      ensures ecc == null || !hasEcc ==> r == 0
    {
      hide CheckResult, Stored;
      r := 0;
      if sector < 0 || num <= 0 {
        return;
      }
      ghost var d, e := buffer[..], if ecc == null then [] else ecc[..];
      Seek(if hasEcc then sector * RAW else sector * PAGE);
      for k := 0 to num
        invariant OnPage(sector + k)
        invariant PagesFetched(hasEcc, file, sector, d, buffer[..], k)
        invariant ecc != null && hasEcc ==> SparesFetched(file, sector, e, ecc[..], k)
        invariant ecc != null && !hasEcc ==> ecc[..] == e
        invariant k > 0 && ecc != null && hasEcc ==> r == CheckResult(Page(buffer[..], k - 1) + Spare(ecc[..], k - 1))
        invariant ecc == null || !hasEcc ==> r == 0
      {
        r := ReadNext(sector, buffer, ecc, k, d, e);
      }
      if ecc != null && hasEcc && At(true, sector + num) <= |file| {
        LastStored(file, sector, num, d, buffer[..], e, ecc[..]);
      }
    }

    method ReadNext(sector: nat, buffer: array<byte>, ecc: array?<byte>, k: nat, ghost d: seq<byte>, ghost e: seq<byte>)
      returns (r: int)
      requires PAGE * k + PAGE <= buffer.Length && ecc != buffer && (ecc != null ==> SPARE * k + SPARE <= ecc.Length)
      requires |d| == buffer.Length && (ecc != null ==> |e| == ecc.Length)
      requires OnPage(sector + k) && PagesFetched(hasEcc, file, sector, d, buffer[..], k)
      requires ecc != null && hasEcc ==> SparesFetched(file, sector, e, ecc[..], k)
      modifies this`pos, buffer, ecc
      ensures OnPage(sector + k + 1) && PagesFetched(hasEcc, file, sector, d, buffer[..], k + 1)
      ensures ecc != null && !hasEcc ==> ecc[..] == old(ecc[..])
      ensures ecc != null && hasEcc ==>
        && SparesFetched(file, sector, e, ecc[..], k + 1)
        && r == CheckResult(Page(buffer[..], k) + Spare(ecc[..], k))
      ensures ecc == null || !hasEcc ==> r == 0
    {
      hide CheckResult, Fetched, PagesFetched, SparesFetched, OnPage, Page, Spare;
      ghost var now := buffer[..];
      if ecc != null && hasEcc {
        ghost var spares := ecc[..];
        r := ReadPage(sector + k, buffer, k, ecc);
        SparesFetchedNext(file, sector, e, spares, k, ecc[..]);
      } else {
        r := ReadPage(sector + k, buffer, k, ecc);
      }
      PagesFetchedNext(hasEcc, file, sector, d, now, k, buffer[..]);
    }

    /** One turn of the loop of nand_write_sector: page k and the spare area k. */
    method WritePage(data: array<byte>, k: nat, ecc: array?<byte>)
      requires PAGE * k + PAGE <= data.Length && ecc != data && (ecc != null ==> SPARE * k + SPARE <= ecc.Length)
      modifies this`file, this`pos, ecc
      ensures pos == old(pos) + At(hasEcc, 1)
      ensures ecc == null ==> file == Overwrite(old(file), old(pos), Raw(hasEcc, false, data[..], [], k))
      ensures ecc != null ==>
        && file == Overwrite(old(file), old(pos), Raw(hasEcc, true, data[..], old(ecc[..]), k))
        && ecc[..] == old(ecc[..SPARE * k]) + Stamped(hasEcc, data[..], old(ecc[..]), k) + old(ecc[SPARE * k + SPARE..])
    {
      hide Overwrite, SpareOut;
      if !hasEcc {
        Write(data, PAGE * k, PAGE);
      } else if ecc != null {
        WriteSpare(data, k, ecc);
      } else {
        ghost var f, p := file, pos;
        Write(data, PAGE * k, PAGE);
        var blank := new byte[0x40](_ => 0);
        assert blank[0..SPARE] == Zeros(SPARE);
        Write(blank, 0, SPARE);
        WriteOn(f, p, Page(data[..], k), Zeros(SPARE));
      }
    }

    /** A page, and its spare area with the codes. */
    method WriteSpare(data: array<byte>, k: nat, ecc: array<byte>)
      requires PAGE * k + PAGE <= data.Length && ecc != data && SPARE * k + SPARE <= ecc.Length
      modifies this`file, this`pos, ecc
      ensures var page, s := Page(data[..], k), SpareOut(Page(data[..], k), old(Spare(ecc[..], k)));
        && ecc[..] == old(ecc[..SPARE * k]) + s + old(ecc[SPARE * k + SPARE..])
        && file == Overwrite(old(file), old(pos), page + s) && pos == old(pos) + PAGE + SPARE
    {
      hide Overwrite, SpareOut, PageCode;
      ghost var f, p := file, pos;
      Write(data, PAGE * k, PAGE);
      CodePage(data, PAGE * k, ecc, SPARE * k);
      Write(ecc, SPARE * k, SPARE);
      WriteOn(f, p, Page(data[..], k), ecc[SPARE * k..SPARE * k + SPARE]);
    }

    /** nand_write_sector */
    method WriteSectors(sector: int, num: int, data: array<byte>, ecc: array?<byte>)
      requires PAGE * num <= data.Length && ecc != data && (ecc != null ==> SPARE * num <= ecc.Length)
      modifies this`file, this`pos, ecc
      ensures sector < 0 || num <= 0 ==> file == old(file) && (ecc != null ==> ecc[..] == old(ecc[..]))
      ensures sector >= 0 && num > 0 && ecc == null ==>
        file == Written(old(file), hasEcc, false, data[..], [], sector, num)
      ensures sector >= 0 && num > 0 && ecc != null ==>
        && file == Written(old(file), hasEcc, true, data[..], old(ecc[..]), sector, num)
        && AllStamped(hasEcc, data[..], old(ecc[..]), ecc[..], num)
    {
      if sector < 0 || num <= 0 {
        return;
      }
      hide Written;
      ghost var f, d, e := file, data[..], if ecc == null then [] else ecc[..];
      Seek(if hasEcc then sector * RAW else sector * PAGE);
      WrittenNone(f, hasEcc, ecc != null, d, e, sector);
      for k := 0 to num
        invariant pos == At(hasEcc, sector + k)
        invariant file == Written(f, hasEcc, ecc != null, d, e, sector, k)
        invariant ecc != null ==> AllStamped(hasEcc, d, e, ecc[..], k)
      {
        WriteNext(sector, data, ecc, k, f, e);
      }
    }

    method WriteNext(sector: nat, data: array<byte>, ecc: array?<byte>, k: nat, ghost f: seq<byte>, ghost e: seq<byte>)
      requires PAGE * k + PAGE <= data.Length && ecc != data && (ecc != null ==> SPARE * k + SPARE <= ecc.Length)
      requires pos == At(hasEcc, sector + k)
      requires ecc != null ==> AllStamped(hasEcc, data[..], e, ecc[..], k)
      requires file == Written(f, hasEcc, ecc != null, data[..], e, sector, k)
      modifies this`file, this`pos, ecc
      ensures pos == At(hasEcc, sector + k + 1)
      ensures file == Written(f, hasEcc, ecc != null, data[..], e, sector, k + 1)
      ensures ecc != null ==> AllStamped(hasEcc, data[..], e, ecc[..], k + 1)
    {
      hide Written, Overwrite, Raw, AllStamped, Stamped;
      ghost var d := data[..];
      if ecc != null {
        ghost var now := ecc[..];
        StampedHere(hasEcc, d, e, now, k);
        WritePage(data, k, ecc);
        StampedNext(hasEcc, d, e, now, k, ecc[..]);
      } else {
        RawUncoded(hasEcc, d, e, k);
        WritePage(data, k, ecc);
      }
      WrittenNext(f, hasEcc, ecc != null, d, e, sector, k);
    }

    // ---------- clusters ----------

    /** nand_write_cluster */
    method WriteCluster(cluster: int, data: array<byte>, hmac: array?<byte>)
      requires data.Length >= CLUSTER && (hmac != null ==> hmac.Length == 20)
      modifies this`file, this`pos
      ensures cluster < 0 ==> file == old(file)
      ensures cluster >= 0 ==>
        var e := ClusterSpares(if hmac == null then [] else hmac[..]);
        file == Written(old(file), hasEcc, true, data[..], e, 8 * cluster, 8)
    {
      hide Written, ClusterSpares;
      var eccbuf;
      if hmac != null {
        eccbuf := PlaceHmac(hmac);
      } else {
        eccbuf := NoHmac();
      }
      WriteSectors(cluster * 8, 8, data, eccbuf);
    }

    /** nand_read_cluster: the spare areas of the last two pages, and the check of the last page. */
    method ReadCluster(cluster: int, data: array<byte>, ecc: array?<byte>) returns (r: int)
      requires data.Length >= CLUSTER && ecc != data && (ecc != null ==> ecc.Length == 2 * SPARE)
      modifies this`pos, data, ecc
      ensures cluster < 0 ==> r == 0 && data[..] == old(data[..])
      ensures cluster >= 0 ==> PagesFetched(hasEcc, file, 8 * cluster, old(data[..]), data[..], 8)
      ensures !hasEcc ==> r == 0
      ensures hasEcc && cluster >= 0 ==>
        ClusterRead(file, 8 * cluster, data[..], if ecc == null then [] else ecc[..], r)
      ensures hasEcc && cluster >= 0 && At(true, 8 * cluster + 8) <= |file| ==>
        && r == CheckResult(Stored(true, file, 8 * cluster + 7))
        && (ecc != null ==>
            ecc[..] == Stored(true, file, 8 * cluster + 6)[PAGE..] + Stored(true, file, 8 * cluster + 7)[PAGE..])
    {
      hide CheckResult, PagesFetched, SparesFetched, Stored, Fetched;
      var eccbuf := new byte[0x200];
      ghost var d, e := data[..], eccbuf[..];
      r := ReadSectors(cluster * 8, 8, data, eccbuf);
      if hasEcc && cluster >= 0 && At(true, 8 * cluster + 8) <= |file| {
        LastSpares(file, 8 * cluster, d, data[..], e, eccbuf[..]);
      }
      if ecc != null {
        Put(ecc, 0, eccbuf, 0x180, SPARE);
        Put(ecc, SPARE, eccbuf, 0x1C0, SPARE);
        assert ecc[..] == eccbuf[0x180..0x1C0] + eccbuf[0x1C0..0x200];
        assert eccbuf[0x180..] == eccbuf[0x180..0x1C0] + eccbuf[0x1C0..0x200];
      }
      assert hasEcc && cluster >= 0 ==> SparesFetched(file, 8 * cluster, e, eccbuf[..], 8);
    }

    /** A cluster that is written is what is read from there afterwards, whatever the image held before; every
        page passes the check, and the authentication code comes back. */
    method WriteThenRead(cluster: int, data: array<byte>, hmac: array<byte>, out: array<byte>, ecc: array<byte>)
      returns (r: int)
      requires cluster >= 0 && data.Length == out.Length == CLUSTER && hmac.Length == 20 && ecc.Length == 2 * SPARE
      requires out != data && out != ecc && out != hmac && ecc != data && ecc != hmac
      modifies this`file, this`pos, out, ecc
      ensures out[..] == data[..]
      ensures r == 0
      ensures hasEcc ==> AllPass(file, 8 * cluster, 8) && HmacIn(ecc[..], hmac[..])
      ensures |file| == Max(|old(file)|, At(hasEcc, 8 * cluster + 8))
      ensures forall i: nat :: i < |old(file)| && (i < At(hasEcc, 8 * cluster) || At(hasEcc, 8 * cluster + 8) <= i) ==>
        file[i] == old(file)[i]
    {
      hide Written, ClusterSpares, PagesFetched, CheckResult, Stored, AllPass, HmacIn;
      ghost var f, s, e := file, 8 * cluster, ClusterSpares(hmac[..]);
      WriteCluster(cluster, data, hmac);
      ghost var was := out[..];
      r := ReadCluster(cluster, out, ecc);
      ClusterBack(f, hasEcc, data[..], hmac[..], s, was, out[..], ecc[..], r);
      WrittenStored(f, hasEcc, true, data[..], e, s, 8, 7);
      forall i: nat | i < |f| && (i < At(hasEcc, s) || At(hasEcc, s + 8) <= i)
        ensures file[i] == f[i]
      {
        WrittenElsewhere(f, hasEcc, true, data[..], e, s, 8, i);
      }
    }

    // ---------- encrypted clusters ----------

    /** nand_write_cluster_encrypted; crypt is nand_cryptbuf */
    method WriteClusterEncrypted(ctx: Rijndael.Context, crypt: array<byte>, cluster: int, data: array<byte>,
        hmac: array?<byte>)
      requires Cbc.KeySet(ctx) && crypt.Length == CLUSTER && data.Length == CLUSTER && ctx.Foreign(crypt)
      requires hmac != null ==> hmac.Length == 20 && hmac != crypt
      modifies this`file, this`pos, crypt
      ensures Cbc.KeySet(ctx) && Cbc.EncryptionKey(ctx) == old(Cbc.EncryptionKey(ctx))
      ensures Cbc.DecryptionKey(ctx) == old(Cbc.DecryptionKey(ctx))
      ensures crypt[..] == Cbc.EncryptChain(Cbc.EncryptionKey(ctx), Zeros(16), old(data[..]))
      ensures cluster < 0 ==> file == old(file)
      ensures cluster >= 0 ==>
        var e := ClusterSpares(if hmac == null then [] else hmac[..]);
        file == Written(old(file), hasEcc, true, crypt[..], e, 8 * cluster, 8)
    {
      hide Written, ClusterSpares, Cbc.KeySet, Cbc.EncryptionKey, Cbc.DecryptionKey, Cbc.EncryptChain;
      Encrypt(ctx, crypt, data);
      WriteCluster(cluster, crypt, hmac);
    }

    /** The cluster under a chaining value of zeros. */
    static method Encrypt(ctx: Rijndael.Context, crypt: array<byte>, data: array<byte>)
      requires Cbc.KeySet(ctx) && crypt.Length == CLUSTER && data.Length == CLUSTER && ctx.Foreign(crypt)
      modifies crypt
      ensures Cbc.KeySet(ctx) && Cbc.EncryptionKey(ctx) == old(Cbc.EncryptionKey(ctx))
      ensures Cbc.DecryptionKey(ctx) == old(Cbc.DecryptionKey(ctx))
      ensures crypt[..] == Cbc.EncryptChain(Cbc.EncryptionKey(ctx), Zeros(16), old(data[..]))
    {
      hide Cbc.KeySet, Cbc.EncryptionKey, Cbc.DecryptionKey, Cbc.EncryptChain;
      ghost var w, v, plain, before := Cbc.EncryptionKey(ctx), Cbc.DecryptionKey(ctx), data[..], crypt[..];
      var iv := Cbc.Blank(ctx, 16);
      assert iv[..] == Zeros(16) && data[..CLUSTER] == plain;
      Cbc.AesEncrypt(ctx, iv, data, crypt, CLUSTER);
      Cbc.DecryptEncryptChain(w, v, Zeros(16), plain);
    }

    /** nand_read_cluster_decrypted */
    method ReadClusterDecrypted(ctx: Rijndael.Context, crypt: array<byte>, cluster: int, data: array<byte>,
        ecc: array?<byte>)
      returns (r: int)
      requires Cbc.KeySet(ctx) && crypt.Length == CLUSTER && data.Length == CLUSTER && ctx.Foreign(crypt)
        && ctx.Foreign(data)
      requires crypt != data && (ecc != null ==>
        ecc.Length == 2 * SPARE && ecc != crypt && ecc != data && ctx.Foreign(ecc))
      modifies this`pos, crypt, data, ecc
      ensures Cbc.KeySet(ctx) && Cbc.DecryptionKey(ctx) == old(Cbc.DecryptionKey(ctx))
      ensures data[..] == Cbc.DecryptChain(Cbc.DecryptionKey(ctx), Zeros(16), crypt[..])
      ensures cluster < 0 ==> r == 0 && crypt[..] == old(crypt[..])
      ensures cluster >= 0 ==> PagesFetched(hasEcc, file, 8 * cluster, old(crypt[..]), crypt[..], 8)
      ensures !hasEcc ==> r == 0
      ensures hasEcc && cluster >= 0 ==>
        ClusterRead(file, 8 * cluster, crypt[..], if ecc == null then [] else ecc[..], r)
      ensures hasEcc && cluster >= 0 && At(true, 8 * cluster + 8) <= |file| ==>
        && r == CheckResult(Stored(true, file, 8 * cluster + 7))
        && (ecc != null ==>
            ecc[..] == Stored(true, file, 8 * cluster + 6)[PAGE..] + Stored(true, file, 8 * cluster + 7)[PAGE..])
    {
      hide CheckResult, PagesFetched, ClusterRead, Stored, Cbc.KeySet, Cbc.DecryptionKey, Cbc.DecryptChain;
      r := ReadCluster(cluster, crypt, ecc);
      Decrypt(ctx, crypt, data);
    }

    static method Decrypt(ctx: Rijndael.Context, crypt: array<byte>, data: array<byte>)
      requires Cbc.KeySet(ctx) && crypt.Length == CLUSTER && data.Length == CLUSTER && ctx.Foreign(data)
        && crypt != data
      modifies data
      ensures Cbc.KeySet(ctx) && Cbc.DecryptionKey(ctx) == old(Cbc.DecryptionKey(ctx))
      ensures data[..] == Cbc.DecryptChain(Cbc.DecryptionKey(ctx), Zeros(16), crypt[..])
    {
      hide Cbc.KeySet, Cbc.EncryptionKey, Cbc.DecryptionKey, Cbc.DecryptChain;
      ghost var before := data[..];
      var iv := Cbc.Blank(ctx, 16);
      assert iv[..] == Zeros(16) && crypt[..CLUSTER] == crypt[..];
      Cbc.AesDecrypt(ctx, iv, crypt, data, CLUSTER);
      assert before[CLUSTER..] == [];
    }

    /** A cluster that is written encrypted is what is read and decrypted from there afterwards, for every key. */
    method WriteThenReadEncrypted(ctx: Rijndael.Context, crypt: array<byte>, cluster: int, data: array<byte>,
                                  hmac: array<byte>, out: array<byte>, ecc: array<byte>)
      returns (r: int)
      requires Cbc.KeySet(ctx) && ctx.Foreign(crypt) && ctx.Foreign(out) && ctx.Foreign(ecc)
      requires crypt.Length == data.Length == out.Length == CLUSTER && hmac.Length == 20 && ecc.Length == 2 * SPARE
      requires cluster >= 0 && crypt != data && crypt != hmac && crypt != out && crypt != ecc
      requires out != data && out != ecc && out != hmac && ecc != data && ecc != hmac
      modifies this`file, this`pos, crypt, out, ecc
      ensures out[..] == data[..] && r == 0
      ensures hasEcc ==> AllPass(file, 8 * cluster, 8) && HmacIn(ecc[..], hmac[..])
    {
      hide Written, ClusterSpares, PagesFetched, CheckResult, Stored, AllPass, HmacIn;
      hide Cbc.KeySet, Cbc.EncryptionKey, Cbc.DecryptionKey, Cbc.EncryptChain, Cbc.DecryptChain;
      ghost var w, v, f := Cbc.EncryptionKey(ctx), Cbc.DecryptionKey(ctx), file;
      WriteClusterEncrypted(ctx, crypt, cluster, data, hmac);
      ghost var secret := crypt[..];
      r := ReadClusterDecrypted(ctx, crypt, cluster, out, ecc);
      ClusterBack(f, hasEcc, secret, hmac[..], 8 * cluster, secret, crypt[..], ecc[..], r);
      Cbc.DecryptEncryptChain(w, v, Zeros(16), data[..]);
    }

    /** The codes of a page go into its spare area. */
    static method CodePage(data: array<byte>, b: nat, ecc: array<byte>, e: nat)
      requires b + PAGE <= data.Length && ecc != data && e + SPARE <= ecc.Length
      modifies ecc
      ensures var s := SpareOut(data[b..b + PAGE], old(ecc[e..e + SPARE]));
        ecc[..] == old(ecc[..e]) + s + old(ecc[e + SPARE..]) && ecc[e..e + SPARE] == s
    {
      ghost var before, s := ecc[..], SpareOut(data[b..b + PAGE], ecc[e..e + SPARE]);
      CodesAtEnd(before, e, PageCode(data[b..b + PAGE]));
      hide PageCode;
      CalcPage(data, b, ecc, e + 0x30);
      assert ecc[e..e + SPARE] == s;
    }
  }

  lemma WrittenNone(f: seq<byte>, hasEcc: bool, coded: bool, data: seq<byte>, ecc: seq<byte>, s: nat)
    ensures Written(f, hasEcc, coded, data, ecc, s, 0) == f
  {
  }

  lemma StampedHere(hasEcc: bool, d: seq<byte>, was: seq<byte>, now: seq<byte>, n: nat)
    requires AllStamped(hasEcc, d, was, now, n) && SPARE * n + SPARE <= |now| && PAGE * n + PAGE <= |d|
    ensures |was| == |now| && Stamped(hasEcc, d, now, n) == Stamped(hasEcc, d, was, n)
    ensures Raw(hasEcc, true, d, now, n) == Raw(hasEcc, true, d, was, n)
  {
    Tails(now, was, SPARE * n, SPARE);
    SameSpare(hasEcc, d, now, was, n);
    hide AllStamped, Raw, Stamped;
  }

  lemma SameSpare(hasEcc: bool, d: seq<byte>, a: seq<byte>, b: seq<byte>, n: nat)
    requires PAGE * n + PAGE <= |d| && SPARE * n + SPARE <= |a| == |b| && Spare(a, n) == Spare(b, n)
    ensures Stamped(hasEcc, d, a, n) == Stamped(hasEcc, d, b, n)
    ensures Raw(hasEcc, true, d, a, n) == Raw(hasEcc, true, d, b, n)
  {
    hide SpareOut, Spare, Page;
  }

  lemma RawUncoded(hasEcc: bool, d: seq<byte>, e: seq<byte>, k: nat)
    requires PAGE * k + PAGE <= |d|
    ensures Raw(hasEcc, false, d, e, k) == Raw(hasEcc, false, d, [], k)
  {
  }

  lemma CodesAtEnd(before: seq<byte>, e: nat, c: seq<byte>)
    requires e + SPARE <= |before| && |c| == 16
    ensures before[..e + 0x30] + c + before[e + 0x30 + 16..]
         == before[..e] + (before[e..e + SPARE][..0x30] + c) + before[e + SPARE..]
  {
  }
}
