/** SHA-1 (FIPS 180-1) as a stream: wiinandfuse/source/sha1.c. */
module Sha1 {
  import opened Arith
  import opened Octets

  // ---------- the function, sections 4 to 7 of FIPS 180-1 ----------

  datatype State = State(a: word, b: word, c: word, d: word, e: word)

  /** S^n(X), section 3. */
  function Rotl(n: bv6, x: word): word
    requires n <= 32
  {
    (x << n) | (x >> (32 - n))
  }

  function Pack4(b0: byte, b1: byte, b2: byte, b3: byte): word {
    ((b0 as word) << 24) | ((b1 as word) << 16) | ((b2 as word) << 8) | (b3 as word)
  }

  function Mix(w: word, x: word, y: word, z: word): word {
    Rotl(1, w ^ x ^ y ^ z)
  }

  /** The first n words of the schedule of a block, section 7 (a) and (b). */
  function Words(block: seq<byte>, n: nat): (w: seq<word>)
    requires |block| == 64 && n <= 80
    ensures |w| == n
  {
    if n == 0 then []
    else
      var t := n - 1;
      var w := Words(block, t);
      w + [if t < 16 then Pack4(block[4 * t], block[4 * t + 1], block[4 * t + 2], block[4 * t + 3])
           else Mix(w[t - 3], w[t - 8], w[t - 14], w[t - 16])]
  }

  function Choose(b: word, c: word, d: word): word { (b & c) | (!b & d) }

  function Parity3(b: word, c: word, d: word): word { b ^ c ^ d }

  function Majority(b: word, c: word, d: word): word { (b & c) | (b & d) | (c & d) }

  /** f(t;B,C,D), section 5. */
  function Choice(t: nat, b: word, c: word, d: word): word {
    if t < 20 then Choose(b, c, d) else if t < 40 then Parity3(b, c, d) else if t < 60 then Majority(b, c, d)
        else Parity3(b, c, d)
  }

  /** Addition modulo 2^32. */
  function Add(x: word, y: word): word { x + y }

  function Add5(v: word, w: word, x: word, y: word, z: word): word { v + w + x + y + z }

  /** K(t), section 6. */
  function Constant(t: nat): word {
    if t < 20 then 0x5A827999 else if t < 40 then 0x6ED9EBA1 else if t < 60 then 0x8F1BBCDC else 0xCA62C1D6
  }

  /** One step of section 7 (d). */
  function Turn(s: State, t: nat, w: word): State {
    State(Add5(Rotl(5, s.a), Choice(t, s.b, s.c, s.d), s.e, w, Constant(t)), s.a, Rotl(30, s.b), s.c, s.d)
  }

  /** The state after t steps. */
  function Turns(s: State, w: seq<word>, t: nat): State
    requires t <= |w|
  {
    if t == 0 then s else Turn(Turns(s, w, t - 1), t - 1, w[t - 1])
  }

  function Plus(s: State, r: State): State {
    State(Add(s.a, r.a), Add(s.b, r.b), Add(s.c, r.c), Add(s.d, r.d), Add(s.e, r.e))
  }

  function Compress(s: State, block: seq<byte>): State
    requires |block| == 64
  {
    Plus(s, Turns(s, Words(block, 80), 80))
  }

  function Start(): State { State(0x67452301, 0xEFCDAB89, 0x98BADCFE, 0x10325476, 0xC3D2E1F0) }

  /** The state after the first n blocks. */
  function Absorb(m: seq<byte>, n: nat): State
    requires 64 * n <= |m|
  {
    if n == 0 then Start() else Compress(Absorb(m, n - 1), m[64 * (n - 1)..64 * n])
  }

  /** The eight bytes of a 64-bit length, most significant first. */
  function Length8(n: nat): (s: seq<byte>)
    ensures |s| == 8
  {
    Length4(n / 0x1_0000_0000) + Length4(n % 0x1_0000_0000)
  }

  function Length4(n: nat): (s: seq<byte>)
    ensures |s| == 4
  {
    [Octet(n / 0x100_0000 % 0x100), Octet(n / 0x1_0000 % 0x100), Octet(n / 0x100 % 0x100), Octet(n % 0x100)]
  }

  /** The number of zero bytes of the padding: the least that makes whole blocks. */
  function Gap(n: nat): nat {
    (119 - n % 64) % 64
  }

  /** The padded message, section 4. */
  function Pad(m: seq<byte>): (p: seq<byte>)
    ensures |p| % 64 == 0 && |p| == |m| + 9 + Gap(|m|)
  {
    GapFits(|m|);
    m + [0x80] + Zeros(Gap(|m|)) + Length8(8 * |m|)
  }

  lemma GapFits(n: nat)
    ensures (n + 9 + Gap(n)) % 64 == 0 && Gap(n) < 64
    ensures n % 64 <= 55 ==> Gap(n) == 55 - n % 64
    ensures n % 64 > 55 ==> Gap(n) == 119 - n % 64
  {
    var q, r := n / 64, n % 64;
    assert n == 64 * q + r;
    if r <= 55 {
      DivModUnique(119 - r, 1, 64, 55 - r);
      DivModUnique(n + 9 + (55 - r), q + 1, 64, 0);
    } else {
      DivModUnique(119 - r, 0, 64, 119 - r);
      DivModUnique(n + 9 + (119 - r), q + 2, 64, 0);
    }
  }

  /** The digest of a message. */
  function Hash(m: seq<byte>): State {
    Absorb(Pad(m), |Pad(m)| / 64)
  }

  lemma {:induction false} AbsorbPrefix(m: seq<byte>, x: seq<byte>, n: nat)
    requires 64 * n <= |m|
    ensures Absorb(m + x, n) == Absorb(m, n)
    decreases n
  {
    hide Compress;
    if n > 0 {
      AbsorbPrefix(m, x, n - 1);
      assert (m + x)[64 * (n - 1)..64 * n] == m[64 * (n - 1)..64 * n];
    }
  }

  /** One more whole block. */
  lemma AbsorbBlock(m: seq<byte>, b: seq<byte>, n: nat)
    requires 64 * n == |m| && |b| == 64
    ensures Absorb(m + b, n + 1) == Compress(Absorb(m, n), b)
  {
    hide Compress;
    AbsorbPrefix(m, b, n);
    assert (m + b)[64 * n..64 * (n + 1)] == b;
  }

  /** The rest of a message behind its whole blocks. */
  function Rest(m: seq<byte>): (r: seq<byte>)
    ensures |r| == |m| % 64
  {
    m[|m| - |m| % 64..]
  }

  lemma WholeBlocks(m: seq<byte>)
    ensures 64 * (|m| / 64) == |m| - |m| % 64 <= |m|
  {
  }

  /** The padding of a message whose last block has room for it. */
  lemma PadInOne(m: seq<byte>)
    requires |m| % 64 <= 55
    ensures var b := Rest(m) + [0x80] + Zeros(55 - |m| % 64) + Length8(8 * |m|);
            |b| == 64 && Hash(m) == Compress(Absorb(m, |m| / 64), b)
  {
    hide Compress, Length8;
    var q, tail := |m| / 64, Rest(m);
    var head := m[..64 * q];
    WholeBlocks(m);
    GapFits(|m|);
    assert m == head + tail;
    var b := tail + [0x80] + Zeros(55 - |m| % 64) + Length8(8 * |m|);
    assert Pad(m) == head + b;
    AbsorbPrefix(head, tail, q);
    AbsorbBlock(head, b, q);
  }

  /** The padding of a message whose last block has none: a second block. */
  lemma PadInTwo(m: seq<byte>)
    requires |m| % 64 > 55
    ensures var b, c := Rest(m) + [0x80] + Zeros(63 - |m| % 64), Zeros(56) + Length8(8 * |m|);
            |b| == |c| == 64 && Hash(m) == Compress(Compress(Absorb(m, |m| / 64), b), c)
  {
    hide Compress, Length8;
    var q, tail := |m| / 64, Rest(m);
    var head := m[..64 * q];
    WholeBlocks(m);
    GapFits(|m|);
    assert m == head + tail;
    var b, c := tail + [0x80] + Zeros(63 - |m| % 64), Zeros(56) + Length8(8 * |m|);
    assert Pad(m) == head + b + c;
    AbsorbPrefix(head, tail, q);
    AbsorbBlock(head, b, q);
    AbsorbBlock(head + b, c, q + 1);
  }

  /** One more byte, within a block. */
  lemma OneMore(m: seq<byte>, x: byte)
    requires |m| % 64 < 63
    ensures Absorb(m + [x], |m + [x]| / 64) == Absorb(m, |m| / 64) && Rest(m + [x]) == Rest(m) + [x]
  {
    var q := |m| / 64;
    WholeBlocks(m);
    DivModUnique(|m| + 1, q, 64, |m| % 64 + 1);
    AbsorbPrefix(m, [x], q);
  }

  /** The byte that completes a block. */
  lemma LastOfBlock(m: seq<byte>, x: byte)
    requires |m| % 64 == 63
    ensures Absorb(m + [x], |m + [x]| / 64) == Compress(Absorb(m, |m| / 64), Rest(m) + [x]) && Rest(m + [x]) == []
  {
    hide Compress;
    var q, head := |m| / 64, m[..64 * (|m| / 64)];
    WholeBlocks(m);
    DivModUnique(|m| + 1, q + 1, 64, 0);
    assert m == head + Rest(m) && m + [x] == head + (Rest(m) + [x]);
    AbsorbPrefix(head, Rest(m), q);
    AbsorbBlock(head, Rest(m) + [x], q);
  }

  // ---------- the stream ----------

  const TWO32 := 0x1_0000_0000

  class Context {
    const digest: array<word>
    var length_low: nat
    var length_high: nat
    const block: array<byte>
    var index: nat
    var computed: bool
    var corrupted: bool

    predicate Valid()
      reads this
    {
      digest.Length == 5 && block.Length == 64 && index < 64
    }

    function Value(): State
      requires digest.Length == 5
      reads digest
    {
      State(digest[0], digest[1], digest[2], digest[3], digest[4])
    }

    /** The message m, of less than 2^64 bits, has been taken in. */
    ghost predicate Absorbed(m: seq<byte>)
      reads this, digest, block
    {
      && Valid() && !computed && !corrupted && Taken(m) && 8 * |m| < TWO32 * TWO32
      && index == |m| % 64 && block[..index] == Rest(m)
    }

    /** The state after the whole blocks of m, and its length. */
    ghost predicate Taken(m: seq<byte>)
      reads this`length_low, this`length_high, digest
    {
      && digest.Length == 5 && 8 * |m| < TWO32 * TWO32
      && Value() == Absorb(m, |m| / 64) && length_low == 8 * |m| % TWO32 && length_high == 8 * |m| / TWO32
    }

    constructor ()
      ensures Valid() && fresh(digest) && fresh(block)
    {
      digest, block := new word[5](_ => 0), new byte[64](_ => 0);
      length_low, length_high, index, computed, corrupted := 0, 0, 0, false, false;
    }

    /** SHA1Reset */
    method Reset()
      requires Valid()
      modifies this, digest
      ensures Absorbed([])
    {
      length_low, length_high, index := 0, 0, 0;
      digest[0], digest[1], digest[2], digest[3], digest[4] := 0x67452301, 0xEFCDAB89, 0x98BADCFE, 0x10325476,
          0xC3D2E1F0;
      computed, corrupted := false, false;
      assert Absorb([], 0) == Start();
    }

    /** The first sixteen words of the schedule are those of the block. */
    method LoadWords(w: array<word>)
      requires block.Length == 64 && w.Length == 80
      modifies w
      ensures w[..16] == Words(block[..], 16)
    {
      hide Pack4, Mix;
      for t := 0 to 16
        invariant w[..t] == Words(block[..], t)
      {
        w[t] := Pack4(block[t * 4], block[t * 4 + 1], block[t * 4 + 2], block[t * 4 + 3]);
        assert w[..t + 1] == w[..t] + [w[t]];
      }
    }

    method ExtendWords(w: array<word>)
      requires block.Length == 64 && w.Length == 80 && w[..16] == Words(block[..], 16)
      modifies w
      ensures w[..] == Words(block[..], 80)
    {
      hide Pack4, Mix;
      for t := 16 to 80
        invariant w[..t] == Words(block[..], t)
      {
        ghost var u := w[..t];
        w[t] := Mix(w[t - 3], w[t - 8], w[t - 14], w[t - 16]);
        assert w[..t] == u && w[..t + 1] == u + [Mix(u[t - 3], u[t - 8], u[t - 14], u[t - 16])];
      }
      assert w[..80] == w[..];
    }

    /** Steps 0 to 19. */
    static method Phase1(w: array<word>, s0: State, ghost start: State) returns (s: State)
      requires w.Length == 80 && s0 == Turns(start, w[..], 0)
      ensures s == Turns(start, w[..], 20)
    {
      hide Rotl, Choose, Parity3, Majority, Add5;
      var a, b, c, d, e := s0.a, s0.b, s0.c, s0.d, s0.e;
      for t := 0 to 20
        invariant State(a, b, c, d, e) == Turns(start, w[..], t)
      {
        var temp := Add5(Rotl(5, a), Choose(b, c, d), e, w[t], 0x5A827999);
        e := d;
        d := c;
        c := Rotl(30, b);
        b := a;
        a := temp;
      }
      s := State(a, b, c, d, e);
    }

    /** Steps 20 to 39. */
    static method Phase2(w: array<word>, s0: State, ghost start: State) returns (s: State)
      requires w.Length == 80 && s0 == Turns(start, w[..], 20)
      ensures s == Turns(start, w[..], 40)
    {
      hide Rotl, Choose, Parity3, Majority, Add5;
      var a, b, c, d, e := s0.a, s0.b, s0.c, s0.d, s0.e;
      for t := 20 to 40
        invariant State(a, b, c, d, e) == Turns(start, w[..], t)
      {
        var temp := Add5(Rotl(5, a), Parity3(b, c, d), e, w[t], 0x6ED9EBA1);
        e := d;
        d := c;
        c := Rotl(30, b);
        b := a;
        a := temp;
      }
      s := State(a, b, c, d, e);
    }

    /** Steps 40 to 59. */
    static method Phase3(w: array<word>, s0: State, ghost start: State) returns (s: State)
      requires w.Length == 80 && s0 == Turns(start, w[..], 40)
      ensures s == Turns(start, w[..], 60)
    {
      hide Rotl, Choose, Parity3, Majority, Add5;
      var a, b, c, d, e := s0.a, s0.b, s0.c, s0.d, s0.e;
      for t := 40 to 60
        invariant State(a, b, c, d, e) == Turns(start, w[..], t)
      {
        var temp := Add5(Rotl(5, a), Majority(b, c, d), e, w[t], 0x8F1BBCDC);
        e := d;
        d := c;
        c := Rotl(30, b);
        b := a;
        a := temp;
      }
      s := State(a, b, c, d, e);
    }

    /** Steps 60 to 79. */
    static method Phase4(w: array<word>, s0: State, ghost start: State) returns (s: State)
      requires w.Length == 80 && s0 == Turns(start, w[..], 60)
      ensures s == Turns(start, w[..], 80)
    {
      hide Rotl, Choose, Parity3, Majority, Add5;
      var a, b, c, d, e := s0.a, s0.b, s0.c, s0.d, s0.e;
      for t := 60 to 80
        invariant State(a, b, c, d, e) == Turns(start, w[..], t)
      {
        var temp := Add5(Rotl(5, a), Parity3(b, c, d), e, w[t], 0xCA62C1D6);
        e := d;
        d := c;
        c := Rotl(30, b);
        b := a;
        a := temp;
      }
      s := State(a, b, c, d, e);
    }

    /** SHA1ProcessMessageBlock */
    method ProcessBlock()
      requires digest.Length == 5 && block.Length == 64
      modifies this`index, digest
      ensures Value() == Compress(old(Value()), block[..]) && index == 0
    {
      hide Words, Turns, Add;
      var w := new word[80](_ => 0);
      LoadWords(w);
      ExtendWords(w);
      StartTurns(Value(), w[..]);
      var s := Phase1(w, Value(), Value());
      s := Phase2(w, s, Value());
      s := Phase3(w, s, Value());
      s := Phase4(w, s, Value());
      digest[0] := Add(digest[0], s.a);
      digest[1] := Add(digest[1], s.b);
      digest[2] := Add(digest[2], s.c);
      digest[3] := Add(digest[3], s.d);
      digest[4] := Add(digest[4], s.e);
      index := 0;
    }

    static lemma StartTurns(s: State, w: seq<word>)
      ensures Turns(s, w, 0) == s
    {
    }

    /** The 64-bit count of bits, kept in two words. */
    static lemma Counted(n: nat)
      requires n % 8 == 0
      ensures (n % TWO32 + 8) % TWO32 == (n + 8) % TWO32
      ensures (n + 8) / TWO32 == if (n + 8) % TWO32 == 0 then n / TWO32 + 1 else n / TWO32
    {
      var q, r := n / TWO32, n % TWO32;
      var e := n / 8 - q * 0x2000_0000;
      assert r == 8 * e;
      if r + 8 == TWO32 {
        DivModUnique(TWO32, 1, TWO32, 0);
        DivModUnique(n + 8, q + 1, TWO32, 0);
      } else {
        DivModUnique(n + 8, q, TWO32, r + 8);
        SmallMod(r + 8, TWO32);
      }
    }

    method CountByte(ghost n: nat)
      requires n % 8 == 0 && n < TWO32 * TWO32 && length_low == n % TWO32 && length_high == n / TWO32
      modifies this`length_low, this`length_high, this`corrupted
      ensures if n + 8 < TWO32 * TWO32 then corrupted == old(corrupted) && length_low == (n + 8) % TWO32
        && length_high == (n + 8) / TWO32
              else corrupted
    {
      Counted(n);
      TopLength(n);
      length_low := (length_low + 8) % TWO32;
      if length_low == 0 {
        length_high := (length_high + 1) % TWO32;
        if length_high == 0 {
          corrupted := true;
        }
      }
    }

    /** The block is full. */
    method CloseBlock(c: byte, ghost m: seq<byte>)
      requires digest.Length == 5 && block.Length == 64 && index == 64 && |m| % 64 == 63
        && block[..index] == Rest(m) + [c]
      requires Value() == Absorb(m, |m| / 64)
      modifies this`index, digest
      ensures Value() == Absorb(m + [c], |m + [c]| / 64) && index == 0 == |m + [c]| % 64 && Rest(m + [c]) == []
    {
      hide Compress, Absorb;
      LastOfBlock(m, c);
      assert block[..64] == block[..];
      ProcessBlock();
      hide Rest;
    }

    method PutByte(c: byte)
      requires block.Length == 64 && index < 64
      modifies this`index, block
      ensures index == old(index) + 1 && block[..index] == old(block[..index]) + [c]
    {
      block[index] := c;
      index := index + 1;
    }

    /** One turn of the loop of SHA1Input. */
    method InputByte(c: byte, ghost m: seq<byte>)
      requires Absorbed(m)
      modifies this, digest, block
      ensures if 8 * (|m| + 1) < TWO32 * TWO32 then Absorbed(m + [c]) else Valid() && corrupted
    {
      hide Compress, Absorb, Rest;
      PutByte(c);
      CountByte(8 * |m|);
      if index == 64 {
        CloseBlock(c, m);
      } else {
        OneMore(m, c);
      }
    }

    /** The count wraps exactly at 2^64 bits. */
    static lemma TopLength(n: nat)
      requires n % 8 == 0 && n < TWO32 * TWO32
      ensures n / TWO32 < TWO32
      ensures (n + 8) % TWO32 == 0 && (n / TWO32 + 1) % TWO32 == 0 <==> n + 8 == TWO32 * TWO32
      ensures n / TWO32 + 1 < TWO32 ==> (n / TWO32 + 1) % TWO32 == n / TWO32 + 1
    {
    }

    /** SHA1Input: the bytes are taken in, unless the message would reach 2^64 bits or has been finished. */
    method Input(data: seq<byte>, ghost m: seq<byte>)
      requires Valid() && (computed || corrupted || Absorbed(m))
      modifies this, digest, block
      ensures Valid() && (old(computed || corrupted) && data != [] ==> corrupted)
      ensures data == [] ==> Value() == old(Value()) && computed == old(computed) && corrupted == old(corrupted)
      ensures old(Absorbed(m)) ==> if 8 * (|m| + |data|) < TWO32 * TWO32 then Absorbed(m + data) else corrupted
    {
      hide Taken, Rest, Absorb, Compress;
      if |data| == 0 {
        assert m + data == m;
        return;
      }
      if computed || corrupted {
        corrupted := true;
        return;
      }
      var i := 0;
      assert m + data[..0] == m;
      while i < |data| && !corrupted
        invariant i <= |data| && Valid()
        invariant if 8 * (|m| + i) < TWO32 * TWO32 then Absorbed(m + data[..i]) else corrupted
      {
        assert m + data[..i] + [data[i]] == m + data[..i + 1];
        InputByte(data[i], m + data[..i]);
        i := i + 1;
      }
      assert data[..|data|] == data;
    }

    /** Zero bytes from index up to a place. */
    method FillZeros(to: nat)
      requires block.Length == 64 && index <= to <= 64
      modifies this`index, block
      ensures index == to && block[..to] == old(block[..index]) + Zeros(to - old(index))
        && block[to..] == old(block[to..])
    {
      ghost var from, b := index, block[..];
      while index < to
        invariant from <= index <= to && block[..index] == b[..from] + Zeros(index - from) && block[to..] == b[to..]
      {
        block[index] := 0;
        assert block[..index + 1] == block[..index] + [0];
        index := index + 1;
      }
    }

    method Store4(j: nat, v: nat)
      requires block.Length == 64 && j + 4 <= 64
      modifies block
      ensures block[..] == old(block[..j]) + Length4(v) + old(block[j + 4..])
    {
      hide Octet;
      block[j] := Octet(v / 0x100_0000 % 0x100);
      block[j + 1] := Octet(v / 0x1_0000 % 0x100);
      block[j + 2] := Octet(v / 0x100 % 0x100);
      block[j + 3] := Octet(v % 0x100);
    }

    method StoreLength()
      requires block.Length == 64
      modifies block
      ensures block[..] == old(block[..56]) + (Length4(length_high) + Length4(length_low))
    {
      hide Length4;
      Store4(56, length_high);
      Store4(60, length_low);
    }

    /** SHA1PadMessage */
    method PadMessage(ghost m: seq<byte>)
      requires Absorbed(m)
      modifies this`index, digest, block
      ensures Value() == Hash(m) && index == 0
    {
      hide Compress, Absorb, Rest, Hash, Length4, Zeros;
      ghost var n := |m| % 64;
      if index > 55 {
        PadInTwo(m);
        block[index] := 0x80;
        assert block[..index + 1] == Rest(m) + [0x80];
        index := index + 1;
        FillZeros(64);
        assert block[..64] == block[..];
        ProcessBlock();
        FillZeros(56);
        assert block[..56] == Zeros(56);
      } else {
        PadInOne(m);
        block[index] := 0x80;
        assert block[..index + 1] == Rest(m) + [0x80];
        index := index + 1;
        FillZeros(56);
      }
      StoreLength();
      ProcessBlock();
    }

    /** The digest of m has been computed. */
    ghost predicate Finished(m: seq<byte>)
      reads this, digest
    {
      Valid() && computed && !corrupted && Value() == Hash(m)
    }

    /** SHA1Result: false is 0, for a message that was too long or went on after its end. */
    method Result(ghost m: seq<byte>) returns (ok: bool)
      requires Valid() && (corrupted || Finished(m) || Absorbed(m))
      modifies this, digest, block
      ensures ok == !old(corrupted) && (ok ==> Finished(m)) && (!ok ==> corrupted)
    {
      hide Hash;
      if corrupted {
        return false;
      }
      if !computed {
        PadMessage(m);
        computed := true;
      }
      return true;
    }
  }

  function Concat(pieces: seq<seq<byte>>): seq<byte> {
    if pieces == [] then [] else Concat(pieces[..|pieces| - 1]) + pieces[|pieces| - 1]
  }

  /** However a message of less than 2^64 bits is cut into pieces, the digest is that of the whole. */
  method HashPieces(c: Context, pieces: seq<seq<byte>>) returns (ok: bool)
    requires c.Valid() && 8 * |Concat(pieces)| < TWO32 * TWO32
    modifies c, c.digest, c.block
    ensures ok && c.Value() == Hash(Concat(pieces))
  {
    c.Reset();
    for i := 0 to |pieces|
      invariant c.Absorbed(Concat(pieces[..i]))
    {
      assert pieces[..i + 1][..i] == pieces[..i];
      ConcatGrows(pieces, i + 1);
      c.Input(pieces[i], Concat(pieces[..i]));
    }
    assert pieces[..|pieces|] == pieces;
    ok := c.Result(Concat(pieces));
  }

  lemma {:induction false} ConcatGrows(pieces: seq<seq<byte>>, i: nat)
    requires i <= |pieces|
    ensures |Concat(pieces[..i])| <= |Concat(pieces)|
    decreases |pieces|
  {
    if i < |pieces| {
      var rest := pieces[..|pieces| - 1];
      ConcatGrows(rest, i);
      assert rest[..i] == pieces[..i];
    } else {
      assert pieces[..i] == pieces;
    }
  }
}
