/** Cipher block chaining: aes_set_key, aes_encrypt and aes_decrypt in wiinandfuse/source/rijndael.c. */
module Cbc {
  import opened Octets
  import opened Aes
  import opened Cipher
  import opened Rijndael

  // ---------- one block ----------

  const BLOCK := 16

  /** The bytes of a state, in memory order. */
  function Flatten(s: State): (b: seq<byte>)
    ensures |b| == 4 * |s|
  {
    if s == [] then [] else [B0(s[0]), B1(s[0]), B2(s[0]), B3(s[0])] + Flatten(s[1..])
  }

  lemma {:induction false} FlattenAt(s: State, i: nat)
    requires i < |s|
    ensures var b := Flatten(s);
      b[4 * i] == B0(s[i]) && b[4 * i + 1] == B1(s[i]) && b[4 * i + 2] == B2(s[i]) && b[4 * i + 3] == B3(s[i])
  {
    hide B0, B1, B2, B3;
    if i > 0 {
      FlattenAt(s[1..], i - 1);
    }
  }

  lemma ColumnsOfFlatten(s: State)
    ensures Columns(Flatten(s), |s|) == s
  {
    hide B0, B1, B2, B3, Pack, Columns, Flatten;
    forall i | 0 <= i < |s|
      ensures Columns(Flatten(s), |s|)[i] == s[i]
    {
      FlattenAt(s, i);
      ColumnAt(Flatten(s), |s|, i);
      PackOfBytes(s[i]);
    }
  }

  /** A buffer is determined by its columns. */
  lemma FlattenOfColumns(b: seq<byte>, n: nat)
    requires |b| == 4 * n
    ensures Flatten(Columns(b, n)) == b
  {
    hide B0, B1, B2, B3, Pack, Columns, Flatten;
    var s := Columns(b, n);
    forall t | 0 <= t < |b|
      ensures Flatten(s)[t] == b[t]
    {
      var i := t / 4;
      FlattenAt(s, i);
      ColumnAt(b, n, i);
      BytesOfPack(b[4 * i], b[4 * i + 1], b[4 * i + 2], b[4 * i + 3]);
    }
  }

  ghost function EncryptBlock(w: seq<word>, b: seq<byte>): (c: seq<byte>)
    requires Keys(w, 4, 10) && |b| == BLOCK
    ensures |c| == BLOCK
  {
    Flatten(Encrypt(Columns(b, 4), w, 10))
  }

  ghost function DecryptBlock(v: seq<word>, b: seq<byte>): (c: seq<byte>)
    requires Keys(v, 4, 10) && |b| == BLOCK
    ensures |c| == BLOCK
  {
    Flatten(Decrypt(Columns(b, 4), v, 10))
  }

  /** For every key and every 16-byte block, decrypt undoes encrypt. */
  lemma DecryptEncryptBlock(w: seq<word>, v: seq<word>, b: seq<byte>)
    requires Equivalent(w, v, 4, 10) && |b| == BLOCK
    ensures DecryptBlock(v, EncryptBlock(w, b)) == b
  {
    hide Encrypt, Decrypt, Flatten, Columns;
    ColumnsOfFlatten(Encrypt(Columns(b, 4), w, 10));
    DecryptEncrypt(Columns(b, 4), w, v, 10);
    FlattenOfColumns(b, 4);
  }

  // ---------- chaining ----------

  function XorBytes(a: seq<byte>, b: seq<byte>): (c: seq<byte>)
    requires |a| <= |b|
    ensures |c| == |a|
  {
    seq(|a|, i requires 0 <= i < |a| => Xb(a[i], b[i]))
  }

  function Padded(a: seq<byte>): (c: seq<byte>)
    requires |a| <= BLOCK
    ensures |c| == BLOCK
  {
    a + Zeros(BLOCK - |a|)
  }

  /** Chained encryption; a last fraction of a block is padded with zeros and becomes a whole block. */
  ghost function EncryptChain(w: seq<word>, iv: seq<byte>, data: seq<byte>): seq<byte>
    requires Keys(w, 4, 10) && |iv| == BLOCK
    decreases |data|
  {
    if data == [] then []
    else if |data| < BLOCK then EncryptBlock(w, Padded(XorBytes(data, iv)))
    else
      var c := EncryptBlock(w, XorBytes(data[..BLOCK], iv));
      c + EncryptChain(w, c, data[BLOCK..])
  }

  /** Block j of the ciphertext is the cipher on block j of the data combined with the block of ciphertext before it, or
      with iv. */
  lemma {:induction false} EncryptChainAt(w: seq<word>, iv: seq<byte>, data: seq<byte>, j: nat)
    requires Keys(w, 4, 10) && |iv| == BLOCK && 16 * j + 16 <= |data|
    ensures var c := EncryptChain(w, iv, data);
      && 16 * j + 16 <= |c|
      && c[16 * j..16 * j + 16]
         == EncryptBlock(w, XorBytes(data[16 * j..16 * j + 16], if j == 0 then iv else c[16 * j - 16..16 * j]))
    decreases j
  {
    hide EncryptBlock, XorBytes, Padded, EncryptChain;
    var a := EncryptBlock(w, XorBytes(data[..BLOCK], iv));
    var rest := EncryptChain(w, a, data[BLOCK..]);
    EncryptChainNext(w, iv, data);
    if j == 0 {
      BehindFirst(a, rest, 0);
      assert data[0..16] == data[..BLOCK];
    } else {
      EncryptChainAt(w, a, data[BLOCK..], j - 1);
      BehindFirst(a, rest, 16 * j - 16);
      PastFirst(data, 16 * j);
      if j > 1 { BehindFirst(a, rest, 16 * j - 32); }
    }
  }

  lemma EncryptChainNext(w: seq<word>, iv: seq<byte>, data: seq<byte>)
    requires Keys(w, 4, 10) && |iv| == BLOCK <= |data|
    ensures var a := EncryptBlock(w, XorBytes(data[..BLOCK], iv));
      EncryptChain(w, iv, data) == a + EncryptChain(w, a, data[BLOCK..])
  {
    hide EncryptBlock, XorBytes, Padded;
  }

  lemma PastFirst(data: seq<byte>, i: nat)
    requires 16 <= i && i + 16 <= |data|
    ensures data[i..i + 16] == data[16..][i - 16..i]
  {
    var x, y := data[i..i + 16], data[16..][i - 16..i];
    assert |x| == |y| && forall k :: 0 <= k < 16 ==> x[k] == data[i + k] == y[k];
  }

  lemma BehindFirst(a: seq<byte>, rest: seq<byte>, i: nat)
    requires |a| == 16
    ensures (a + rest)[0..16] == a && (i + 16 <= |rest| ==> (a + rest)[i + 16..i + 32] == rest[i..i + 16])
  {
  }

  /** A decrypted block, or the beginning of one, combined with the chaining value. */
  ghost function DecryptPart(v: seq<word>, part: seq<byte>, prev: seq<byte>): (c: seq<byte>)
    requires Keys(v, 4, 10) && |part| <= BLOCK == |prev|
    ensures |c| == |part|
  {
    XorBytes(DecryptBlock(v, Padded(part))[..|part|], prev)
  }

  /** Decryption of a run of blocks, each combined with prev: with the ciphertext before it, or, if the output
      overwrites the input, with what has become of it. Of a last fraction only that fraction is produced. */
  ghost function ChainFrom(v: seq<word>, inPlace: bool, prev: seq<byte>, data: seq<byte>): seq<byte>
    requires Keys(v, 4, 10) && |prev| == BLOCK
    decreases |data|
  {
    if data == [] then []
    else if |data| < BLOCK then DecryptPart(v, data, prev)
    else
      var p := XorBytes(DecryptBlock(v, data[..BLOCK]), prev);
      p + ChainFrom(v, inPlace, if inPlace then p else data[..BLOCK], data[BLOCK..])
  }

  /** Chained decryption. */
  ghost function DecryptChain(v: seq<word>, iv: seq<byte>, data: seq<byte>): seq<byte>
    requires Keys(v, 4, 10) && |iv| == BLOCK
  {
    ChainFrom(v, false, iv, data)
  }

  /** What aes_decrypt makes of a buffer that is both input and output. */
  ghost function InPlaceChain(v: seq<word>, iv: seq<byte>, data: seq<byte>): seq<byte>
    requires Keys(v, 4, 10) && |iv| == BLOCK
  {
    ChainFrom(v, true, iv, data)
  }

  lemma XorTwice(a: seq<byte>, b: seq<byte>)
    requires |a| <= |b|
    ensures XorBytes(XorBytes(a, b), b) == a
  {
    hide Xb;
    forall i | 0 <= i < |a|
      ensures Xb(Xb(a[i], b[i]), b[i]) == a[i]
    {
      XbSelf(a[i], b[i]);
    }
  }

  /** Over any number of whole blocks, chained decryption undoes chained encryption. */
  lemma {:induction false} DecryptEncryptChain(w: seq<word>, v: seq<word>, iv: seq<byte>, data: seq<byte>)
    requires Equivalent(w, v, 4, 10) && |iv| == BLOCK && |data| % BLOCK == 0
    ensures |EncryptChain(w, iv, data)| == |data|
    ensures DecryptChain(v, iv, EncryptChain(w, iv, data)) == data
    decreases |data|
  {
    hide EncryptBlock, DecryptBlock, XorBytes, Equivalent;
    EquivalentKeys(w, v, 4, 10);
    if data != [] {
      var x := XorBytes(data[..BLOCK], iv);
      var c := EncryptBlock(w, x);
      DecryptEncryptChain(w, v, c, data[BLOCK..]);
      DecryptEncryptBlock(w, v, x);
      XorTwice(data[..BLOCK], iv);
      var e := EncryptChain(w, iv, data);
      assert e[..BLOCK] == c && e[BLOCK..] == EncryptChain(w, c, data[BLOCK..]);
    }
  }

  lemma EncryptChainStep(w: seq<word>, iv: seq<byte>, data: seq<byte>, at: nat)
    requires Keys(w, 4, 10) && |iv| == BLOCK && at + BLOCK <= |data|
    ensures var c := EncryptBlock(w, Padded(XorBytes(data[at..at + BLOCK], iv)));
      EncryptChain(w, iv, data[at..]) == c + EncryptChain(w, c, data[at + BLOCK..])
  {
    hide EncryptBlock, XorBytes;
    var rest, x := data[at..], XorBytes(data[at..at + BLOCK], iv);
    assert rest[..BLOCK] == data[at..at + BLOCK] && rest[BLOCK..] == data[at + BLOCK..];
    assert Padded(x) == x;
  }

  lemma ChainStep(v: seq<word>, inPlace: bool, prev: seq<byte>, data: seq<byte>, at: nat)
    requires Keys(v, 4, 10) && |prev| == BLOCK && at + BLOCK <= |data|
    ensures var b := data[at..at + BLOCK];
      var p := DecryptPart(v, b, prev);
      ChainFrom(v, inPlace, prev, data[at..]) == p + ChainFrom(v, inPlace, if inPlace then p else b, data[at + BLOCK..])
  {
    hide DecryptBlock, XorBytes;
    var rest, b := data[at..], data[at..at + BLOCK];
    assert rest[..BLOCK] == b && rest[BLOCK..] == data[at + BLOCK..];
    assert Padded(b) == b;
    assert DecryptBlock(v, b)[..BLOCK] == DecryptBlock(v, b);
  }

  /** Writing c at `at`, followed by r. */
  lemma Regrouped(before: seq<byte>, at: nat, c: seq<byte>, after: seq<byte>, r: seq<byte>)
    requires at + |c| <= |before| && after == before[..at] + c + before[at + |c|..]
    ensures |after| == |before| && before[..at] + (c + r) == after[..at + |c|] + r
    ensures after[at..at + |c|] == c && after[at + |c|..] == before[at + |c|..]
  {
    assert after[..at + |c|] == before[..at] + c;
    assert before[..at] + (c + r) == (before[..at] + c) + r;
  }

  /** One block written by the loop of aes_encrypt, the last one perhaps short. */
  lemma EncryptProgress(w: seq<word>, iv: seq<byte>, data: seq<byte>, at: nat, n: nat, before: seq<byte>,
      after: seq<byte>)
    requires Keys(w, 4, 10) && |iv| == BLOCK && 0 < n <= BLOCK && at + n <= |data|
    requires n < BLOCK ==> at + n == |data|
    requires at + BLOCK <= |before|
    requires var c := EncryptBlock(w, Padded(XorBytes(data[at..at + n], iv)));
      after == before[..at] + c + before[at + BLOCK..]
    ensures var c := EncryptBlock(w, Padded(XorBytes(data[at..at + n], iv)));
      before[..at] + EncryptChain(w, iv, data[at..]) == after[..at + BLOCK] + EncryptChain(w, c, data[at + n..])
    ensures after[at + BLOCK..] == before[at + BLOCK..]
  {
    hide EncryptBlock, XorBytes, Padded, EncryptChain;
    var c := EncryptBlock(w, Padded(XorBytes(data[at..at + n], iv)));
    Regrouped(before, at, c, after, EncryptChain(w, c, data[at + n..]));
    if n < BLOCK {
      EncryptChainEnd(w, iv, data[at..]);
      EncryptNothing(w, c);
      assert data[at..] == data[at..at + n] && data[at + n..] == [];
      assert c + [] == c;
    } else {
      EncryptChainStep(w, iv, data, at);
    }
  }

  lemma EncryptChainEnd(w: seq<word>, iv: seq<byte>, rest: seq<byte>)
    requires Keys(w, 4, 10) && |iv| == BLOCK && 0 < |rest| < BLOCK
    ensures EncryptChain(w, iv, rest) == EncryptBlock(w, Padded(XorBytes(rest, iv)))
  {
    hide EncryptBlock, XorBytes, Padded;
  }

  lemma ChainEnd(v: seq<word>, inPlace: bool, prev: seq<byte>, rest: seq<byte>)
    requires Keys(v, 4, 10) && |prev| == BLOCK && 0 < |rest| < BLOCK
    ensures ChainFrom(v, inPlace, prev, rest) == DecryptPart(v, rest, prev)
  {
    hide DecryptBlock, XorBytes, Padded, DecryptPart;
  }

  lemma DecryptProgress(v: seq<word>, inPlace: bool, prev: seq<byte>, data: seq<byte>, at: nat, n: nat,
                        before: seq<byte>, after: seq<byte>)
    requires Keys(v, 4, 10) && |prev| == BLOCK && 0 < n <= BLOCK && at + n <= |data|
    requires n < BLOCK ==> at + n == |data|
    requires at + n <= |before|
    requires after == before[..at] + DecryptPart(v, data[at..at + n], prev) + before[at + n..]
    ensures before[..at] + ChainFrom(v, inPlace, prev, data[at..])
         == after[..at + n]
            + (if n < BLOCK then []
               else ChainFrom(v, inPlace, (if inPlace then after else data)[at..at + n], data[at + n..]))
    ensures after[at + n..] == before[at + n..]
  {
    hide DecryptBlock, XorBytes, Padded, ChainFrom, DecryptPart;
    var c := DecryptPart(v, data[at..at + n], prev);
    if n < BLOCK {
      Regrouped(before, at, c, after, []);
      ChainEnd(v, inPlace, prev, data[at..]);
      assert data[at..] == data[at..at + n] && c + [] == c;
    } else {
      Regrouped(before, at, c, after, ChainFrom(v, inPlace, if inPlace then c else data[at..at + n], data[at + n..]));
      ChainStep(v, inPlace, prev, data, at);
    }
  }

  // ---------- the functions of the source ----------

  /** The cipher is set up for 16-byte blocks and keys. */
  ghost predicate KeySet(ctx: Context)
    reads ctx, ctx.Repr()
  {
    ctx.Allocated() && ctx.Ready() && ctx.Keyed() && ctx.Nb == 4 && ctx.Nr == 10
  }

  ghost function EncryptionKey(ctx: Context): (w: seq<word>)
    requires KeySet(ctx)
    reads ctx, ctx.Repr()
    ensures Keys(w, 4, 10)
  {
    Section(ctx.fkey[..], 4, 10)
  }

  ghost function DecryptionKey(ctx: Context): (v: seq<word>)
    requires KeySet(ctx)
    reads ctx, ctx.Repr()
    ensures Keys(v, 4, 10) && Equivalent(EncryptionKey(ctx), v, 4, 10)
  {
    Section(ctx.rkey[..], 4, 10)
  }

  method SetKey(ctx: Context, key: array<byte>)
    requires ctx.Allocated() && key.Length >= 16 && ctx.Foreign(key)
    modifies ctx, ctx.Repr()
    ensures KeySet(ctx)
    ensures forall i :: 0 <= i < 44 ==> EncryptionKey(ctx)[i] == ScheduleWord(key[..], 4, i)
  {
    hide PowerTable, LogTable, SubTables, RoundTables, Constants, Equivalent, Offsets, ScheduleWord;
    ctx.GenTables();
    ctx.GKey(4, 4, key);
  }

  /** A zero-padded copy of part of src. */
  method Gather(src: array<byte>, at: nat, n: nat) returns (block: array<byte>)
    requires n <= BLOCK && at + n <= src.Length
    ensures fresh(block) && block.Length == BLOCK && block[..] == Padded(src[at..at + n])
  {
    block := new byte[16](_ => 0);
    ghost var x := Padded(src[at..at + n]);
    for i := 0 to n
      invariant forall k :: 0 <= k < i ==> block[k] == x[k]
      invariant forall k :: i <= k < BLOCK ==> block[k] == 0
    {
      block[i] := src[at + i];
    }
    assert block[..] == x;
  }

  /** The input of a block, combined with the chaining value and padded with zeros. */
  method GatherXor(inbuf: array<byte>, at: nat, n: nat, iv: array<byte>) returns (block: array<byte>)
    requires n <= BLOCK && at + n <= inbuf.Length && iv.Length == BLOCK
    ensures fresh(block) && block.Length == BLOCK && block[..] == Padded(XorBytes(inbuf[at..at + n], iv[..]))
  {
    hide Xb;
    block := new byte[16](_ => 0);
    ghost var x := Padded(XorBytes(inbuf[at..at + n], iv[..]));
    for i := 0 to n
      invariant forall k :: 0 <= k < i ==> block[k] == x[k]
      invariant forall k :: i <= k < BLOCK ==> block[k] == 0
    {
      block[i] := Xb(inbuf[at + i], iv[i]);
    }
    assert block[..] == x;
  }

  /** Copies a block into a buffer that is not part of the cipher. */
  method Store(ctx: Context, block: array<byte>, dst: array<byte>, at: nat)
    requires block.Length == BLOCK && at + BLOCK <= dst.Length && block != dst && KeySet(ctx) && ctx.Foreign(dst)
    modifies dst
    ensures KeySet(ctx) && EncryptionKey(ctx) == old(EncryptionKey(ctx))
      && DecryptionKey(ctx) == old(DecryptionKey(ctx))
    ensures dst[..] == old(dst[..at]) + block[..] + old(dst[at + BLOCK..])
  {
    hide KeySet, EncryptionKey, DecryptionKey;
    for i := 0 to BLOCK
      invariant dst[..at] == old(dst[..at]) && dst[at..at + i] == block[..i]
      invariant dst[at + i..] == old(dst[at + i..])
    {
      dst[at + i] := block[i];
    }
  }

  /** Combines part of a block with the chaining value at src[from..] into the output. */
  method StoreXor(ctx: Context, src: array<byte>, from: nat, block: array<byte>, n: nat, dst: array<byte>, at: nat)
    requires block.Length == BLOCK && n <= BLOCK && at + n <= dst.Length && block != dst
    requires from + BLOCK <= src.Length && (src == dst ==> from + BLOCK <= at)
    requires KeySet(ctx) && ctx.Foreign(dst)
    modifies dst
    ensures KeySet(ctx) && DecryptionKey(ctx) == old(DecryptionKey(ctx))
    ensures dst[..] == old(dst[..at]) + XorBytes(block[..n], old(src[from..from + BLOCK])) + old(dst[at + n..])
  {
    hide KeySet, EncryptionKey, DecryptionKey, Xb;
    ghost var prev := src[from..from + BLOCK];
    ghost var y := XorBytes(block[..n], prev);
    for i := 0 to n
      invariant dst[..at] == old(dst[..at]) && dst[at..at + i] == y[..i]
      invariant dst[at + i..] == old(dst[at + i..])
      invariant forall k :: 0 <= k < BLOCK ==> src[from + k] == prev[k]
    {
      XbComm(prev[i], block[i]);
      dst[at + i] := Xb(src[from + i], block[i]);
    }
  }

  /** One turn of the loop of aes_encrypt: the block at `at`, of which `fraction` bytes come from the input. */
  method EncryptOne(ctx: Context, iv: array<byte>, inbuf: array<byte>, outbuf: array<byte>, at: nat, fraction: nat)
    requires KeySet(ctx) && iv.Length == BLOCK && 0 < fraction <= BLOCK
    requires at + fraction <= inbuf.Length && at + BLOCK <= outbuf.Length
    requires iv != inbuf && iv != outbuf && ctx.Foreign(iv) && ctx.Foreign(outbuf)
    modifies iv, outbuf
    ensures KeySet(ctx) && EncryptionKey(ctx) == old(EncryptionKey(ctx))
      && DecryptionKey(ctx) == old(DecryptionKey(ctx))
    ensures iv[..] == EncryptBlock(EncryptionKey(ctx), Padded(XorBytes(old(inbuf[at..at + fraction]), old(iv[..]))))
    ensures outbuf[..] == old(outbuf[..at]) + iv[..] + old(outbuf[at + BLOCK..])
  {
    hide KeySet, EncryptionKey, DecryptionKey, EncryptBlock, XorBytes, Padded;
    var block := GatherXor(inbuf, at, fraction, iv);
    EncryptInPlace(ctx, block);
    Store(ctx, block, iv, 0);
    assert iv[..] == block[..];
    Store(ctx, block, outbuf, at);
  }

  method EncryptInPlace(ctx: Context, block: array<byte>)
    requires KeySet(ctx) && block.Length == BLOCK && ctx.Foreign(block)
    modifies block
    ensures KeySet(ctx) && EncryptionKey(ctx) == old(EncryptionKey(ctx))
      && DecryptionKey(ctx) == old(DecryptionKey(ctx))
    ensures block[..] == EncryptBlock(EncryptionKey(ctx), old(block[..]))
  {
    hide Context.Repr, Context.Ready, Context.Keyed, Context.Foreign, Equivalent, Encrypt, Columns, Flatten;
    ctx.Encrypt(block);
    FlattenOfColumns(block[..], 4);
  }

  method DecryptInPlace(ctx: Context, block: array<byte>)
    requires KeySet(ctx) && block.Length == BLOCK && ctx.Foreign(block)
    modifies block
    ensures KeySet(ctx) && DecryptionKey(ctx) == old(DecryptionKey(ctx))
    ensures block[..] == DecryptBlock(DecryptionKey(ctx), old(block[..]))
  {
    hide Context.Repr, Context.Ready, Context.Keyed, Context.Foreign, Equivalent, Decrypt, Columns, Flatten;
    ctx.Decrypt(block);
    FlattenOfColumns(block[..], 4);
  }

  /** One turn of the loop of aes_decrypt, with the chaining value at src[from..]. */
  method DecryptOne(ctx: Context, src: array<byte>, from: nat, inbuf: array<byte>, outbuf: array<byte>, at: nat,
                    fraction: nat, ghost x: seq<byte>, ghost prev: seq<byte>)
    requires KeySet(ctx) && 0 < fraction <= BLOCK && from + BLOCK <= src.Length
      && (src == outbuf ==> from + BLOCK <= at)
    requires at + fraction <= inbuf.Length && at + fraction <= outbuf.Length && ctx.Foreign(outbuf)
    requires x == inbuf[..][at..at + fraction] && prev == src[..][from..from + BLOCK]
    modifies outbuf
    ensures KeySet(ctx) && DecryptionKey(ctx) == old(DecryptionKey(ctx)) && |prev| == BLOCK
    ensures outbuf[..] == old(outbuf[..])[..at] + DecryptPart(DecryptionKey(ctx), x, prev)
                          + old(outbuf[..])[at + fraction..]
  {
    hide KeySet, EncryptionKey, DecryptionKey, DecryptBlock, XorBytes, Padded;
    var block := Gather(inbuf, at, fraction);
    DecryptInPlace(ctx, block);
    StoreXor(ctx, src, from, block, fraction, outbuf, at);
  }

  // ---------- the loops ----------

  /** What the loop of aes_encrypt keeps: the output so far, then the rest of the chain. */
  ghost predicate Encrypting(w: seq<word>, first: seq<byte>, data: seq<byte>, before: seq<byte>,
                             done: nat, chain: seq<byte>, now: seq<byte>)
    requires Keys(w, 4, 10) && |first| == BLOCK
  {
    && |chain| == BLOCK && done <= |data| && done <= |now| == |before| && now[done..] == before[done..]
    && EncryptChain(w, first, data) == now[..done] + EncryptChain(w, chain, data[done..])
  }

  lemma EncryptingStarts(w: seq<word>, first: seq<byte>, data: seq<byte>, before: seq<byte>)
    requires Keys(w, 4, 10) && |first| == BLOCK
    ensures Encrypting(w, first, data, before, 0, first, before)
  {
    assert data[0..] == data && before[..0] == [];
  }

  lemma EncryptingStep(w: seq<word>, first: seq<byte>, data: seq<byte>, before: seq<byte>,
                       done: nat, chain: seq<byte>, now: seq<byte>, n: nat, next: seq<byte>)
    requires Keys(w, 4, 10) && |first| == BLOCK && Encrypting(w, first, data, before, done, chain, now)
    requires 0 < n <= BLOCK && done + n <= |data| && (n < BLOCK ==> done + n == |data|) && done + BLOCK <= |now|
    requires var c := EncryptBlock(w, Padded(XorBytes(data[done..done + n], chain)));
      next == now[..done] + c + now[done + BLOCK..]
    ensures var c := EncryptBlock(w, Padded(XorBytes(data[done..done + n], chain)));
      n == BLOCK ==> Encrypting(w, first, data, before, done + BLOCK, c, next)
    ensures done + n == |data| ==> Encrypted(w, first, data, before, next)
  {
    hide EncryptChain, EncryptBlock, XorBytes, Padded;
    var c := EncryptBlock(w, Padded(XorBytes(data[done..done + n], chain)));
    EncryptProgress(w, chain, data, done, n, now, next);
    Later(before, now, next, done, done + BLOCK);
    if done + n == |data| {
      EncryptNothing(w, c);
      assert data[done + n..] == [];
      var all := EncryptChain(w, first, data);
      assert all == next[..done + BLOCK];
      assert next == next[..done + BLOCK] + next[done + BLOCK..];
    }
  }

  ghost predicate Encrypted(w: seq<word>, first: seq<byte>, data: seq<byte>, before: seq<byte>, now: seq<byte>)
    requires Keys(w, 4, 10) && |first| == BLOCK
  {
    var c := EncryptChain(w, first, data);
    |c| <= |before| && now == c + before[|c|..]
  }

  lemma EncryptingEnds(w: seq<word>, first: seq<byte>, data: seq<byte>, before: seq<byte>, chain: seq<byte>,
      now: seq<byte>)
    requires Keys(w, 4, 10) && |first| == BLOCK && Encrypting(w, first, data, before, |data|, chain, now)
    ensures Encrypted(w, first, data, before, now)
  {
    hide EncryptChain;
    EncryptNothing(w, chain);
    assert data[|data|..] == [];
    assert now == now[..|data|] + now[|data|..];
  }

  /** What the loop of aes_decrypt keeps. */
  ghost predicate Decrypting(v: seq<word>, inPlace: bool, first: seq<byte>, data: seq<byte>, before: seq<byte>,
                             done: nat, prev: seq<byte>, now: seq<byte>)
    requires Keys(v, 4, 10) && |first| == BLOCK
  {
    && |prev| == BLOCK && done <= |data| && done <= |now| == |before| && now[done..] == before[done..]
    && ChainFrom(v, inPlace, first, data) == now[..done] + ChainFrom(v, inPlace, prev, data[done..])
    && (done == 0 ==> prev == first)
    && (done > 0 ==> done >= BLOCK && prev == (if inPlace then now else data)[done - BLOCK..done])
  }

  lemma DecryptingStarts(v: seq<word>, inPlace: bool, first: seq<byte>, data: seq<byte>, before: seq<byte>)
    requires Keys(v, 4, 10) && |first| == BLOCK
    ensures Decrypting(v, inPlace, first, data, before, 0, first, before)
  {
    assert data[0..] == data && before[..0] == [];
  }

  lemma DecryptingFacts(v: seq<word>, inPlace: bool, first: seq<byte>, data: seq<byte>, before: seq<byte>,
                        done: nat, prev: seq<byte>, now: seq<byte>)
    requires Keys(v, 4, 10) && |first| == BLOCK && Decrypting(v, inPlace, first, data, before, done, prev, now)
    ensures |prev| == BLOCK && done <= |data| && done <= |now| == |before| && now[done..] == before[done..]
    ensures ChainFrom(v, inPlace, first, data) == now[..done] + ChainFrom(v, inPlace, prev, data[done..])
    ensures done == 0 ==> prev == first
    ensures done > 0 ==> done >= BLOCK && prev == (if inPlace then now else data)[done - BLOCK..done]
  {
    hide ChainFrom;
  }

  /** One whole block more. */
  lemma DecryptingStep(v: seq<word>, inPlace: bool, first: seq<byte>, data: seq<byte>, before: seq<byte>,
                       done: nat, prev: seq<byte>, now: seq<byte>, next: seq<byte>)
    requires Keys(v, 4, 10) && |first| == BLOCK && Decrypting(v, inPlace, first, data, before, done, prev, now)
    requires done + BLOCK <= |data| && done + BLOCK <= |now|
    requires next == now[..done] + DecryptPart(v, data[done..done + BLOCK], prev) + now[done + BLOCK..]
    ensures |next| == |now|
    ensures Decrypting(v, inPlace, first, data, before, done + BLOCK,
                       (if inPlace then next else data)[done..done + BLOCK], next)
  {
    hide ChainFrom, DecryptPart;
    DecryptProgress(v, inPlace, prev, data, done, BLOCK, now, next);
    Later(before, now, next, done, done + BLOCK);
  }

  /** The last, short, block. */
  lemma DecryptingLast(v: seq<word>, inPlace: bool, first: seq<byte>, data: seq<byte>, before: seq<byte>,
                       done: nat, n: nat, prev: seq<byte>, now: seq<byte>, next: seq<byte>)
    requires Keys(v, 4, 10) && |first| == BLOCK && Decrypting(v, inPlace, first, data, before, done, prev, now)
    requires 0 < n < BLOCK && done + n == |data| <= |now|
    requires next == now[..done] + DecryptPart(v, data[done..done + n], prev) + now[done + n..]
    ensures next == ChainFrom(v, inPlace, first, data) + before[|data|..]
  {
    hide ChainFrom, DecryptPart, Decrypting;
    DecryptingFacts(v, inPlace, first, data, before, done, prev, now);
    DecryptProgress(v, inPlace, prev, data, done, n, now, next);
    Later(before, now, next, done, done + n);
    assert next == next[..|data|] + next[|data|..];
  }

  lemma DecryptingEnds(v: seq<word>, inPlace: bool, first: seq<byte>, data: seq<byte>, before: seq<byte>,
                       prev: seq<byte>, now: seq<byte>)
    requires Keys(v, 4, 10) && |first| == BLOCK && Decrypting(v, inPlace, first, data, before, |data|, prev, now)
    ensures now == ChainFrom(v, inPlace, first, data) + before[|data|..]
  {
    hide ChainFrom;
    DecryptNothing(v, inPlace, prev);
    assert data[|data|..] == [];
    assert now == now[..|data|] + now[|data|..];
  }

  lemma EncryptNothing(w: seq<word>, iv: seq<byte>)
    requires Keys(w, 4, 10) && |iv| == BLOCK
    ensures EncryptChain(w, iv, []) == []
  {
  }

  lemma DecryptNothing(v: seq<word>, inPlace: bool, prev: seq<byte>)
    requires Keys(v, 4, 10) && |prev| == BLOCK
    ensures ChainFrom(v, inPlace, prev, []) == []
  {
  }

  lemma Prefix(a: seq<byte>, n: nat, i: nat, j: nat)
    requires i <= j <= n <= |a|
    ensures a[..n][i..j] == a[i..j]
  {
  }

  lemma Unread(src: seq<byte>, data: seq<byte>, len: nat, at: nat, n: nat)
    requires at + n <= len == |data| && len <= |src| && src[at..len] == data[at..]
    ensures src[at..at + n] == data[at..at + n]
  {
    assert src[at..at + n] == src[at..len][..n] && data[at..at + n] == data[at..][..n];
  }

  /** Writing a block at `at`, or not writing to the input at all, leaves what comes after it. */
  lemma StillUnread(src: seq<byte>, data: seq<byte>, len: nat, at: nat, c: seq<byte>, now: seq<byte>)
    requires at + BLOCK <= len == |data| && len <= |src| && src[at..len] == data[at..] && |c| == BLOCK
    requires now == src || now == src[..at] + c + src[at + BLOCK..]
    ensures now[at + BLOCK..len] == data[at + BLOCK..]
  {
    assert src[at + BLOCK..len] == src[at..len][BLOCK..] && data[at + BLOCK..] == data[at..][BLOCK..];
  }

  lemma Later(a: seq<byte>, b: seq<byte>, c: seq<byte>, i: nat, j: nat)
    requires i <= j <= |a| == |b| == |c| && a[i..] == b[i..] && b[j..] == c[j..]
    ensures a[j..] == c[j..]
  {
    assert a[j..] == a[i..][j - i..] && b[j..] == b[i..][j - i..];
  }

  /** One turn of the loop of aes_encrypt: what is left of the input has not been overwritten. */
  method EncryptTurn(ctx: Context, iv: array<byte>, inbuf: array<byte>, outbuf: array<byte>, at: nat, fraction: nat,
                     ghost first: seq<byte>, ghost data: seq<byte>, ghost before: seq<byte>)
    requires KeySet(ctx) && iv.Length == BLOCK && |data| <= inbuf.Length && at + BLOCK <= outbuf.Length
      && |first| == BLOCK
    requires iv != inbuf && iv != outbuf && ctx.Foreign(iv) && ctx.Foreign(outbuf)
    requires 0 < fraction <= BLOCK && at + fraction <= |data| && (fraction < BLOCK ==> at + fraction == |data|)
    requires Encrypting(EncryptionKey(ctx), first, data, before, at, iv[..], outbuf[..])
    requires inbuf[at..|data|] == data[at..]
    modifies iv, outbuf
    ensures KeySet(ctx) && EncryptionKey(ctx) == old(EncryptionKey(ctx))
      && DecryptionKey(ctx) == old(DecryptionKey(ctx))
    ensures fraction == BLOCK ==>
      && Encrypting(EncryptionKey(ctx), first, data, before, at + BLOCK, iv[..], outbuf[..])
      && inbuf[at + BLOCK..|data|] == data[at + BLOCK..]
    ensures at + fraction == |data| ==> Encrypted(EncryptionKey(ctx), first, data, before, outbuf[..])
  {
    hide KeySet, EncryptionKey, DecryptionKey, EncryptBlock, EncryptChain, XorBytes, Padded, Encrypting, Encrypted;
    hide Context.Foreign;
    ghost var now, chain, src := outbuf[..], iv[..], inbuf[..];
    Unread(src, data, |data|, at, fraction);
    EncryptOne(ctx, iv, inbuf, outbuf, at, fraction);
    EncryptingStep(EncryptionKey(ctx), first, data, before, at, chain, now, fraction, outbuf[..]);
    if fraction == BLOCK {
      StillUnread(src, data, |data|, at, iv[..], inbuf[..]);
    }
  }

  /** aes_encrypt: every block is chained to the ciphertext of the one before, which iv carries. The
      output may overwrite the input: a block is read before it is written. */
  method AesEncrypt(ctx: Context, iv: array<byte>, inbuf: array<byte>, outbuf: array<byte>, len: nat)
    requires KeySet(ctx) && iv.Length == BLOCK && len <= inbuf.Length && (len + 15) / BLOCK * BLOCK <= outbuf.Length
    requires iv != inbuf && iv != outbuf && ctx.Foreign(iv) && ctx.Foreign(outbuf)
    modifies iv, outbuf
    ensures KeySet(ctx) && EncryptionKey(ctx) == old(EncryptionKey(ctx))
      && DecryptionKey(ctx) == old(DecryptionKey(ctx))
    ensures Encrypted(EncryptionKey(ctx), old(iv[..]), old(inbuf[..len]), old(outbuf[..]), outbuf[..])
  {
    hide KeySet, EncryptionKey, DecryptionKey, EncryptBlock, EncryptChain, XorBytes, Padded, Encrypting, Encrypted;
    hide Context.Foreign;
    var blockno := 0;
    ghost var w, data, first, before := EncryptionKey(ctx), inbuf[..len], iv[..], outbuf[..];
    EncryptingStarts(w, first, data, before);
    while blockno <= len / BLOCK
      invariant KeySet(ctx) && EncryptionKey(ctx) == w && DecryptionKey(ctx) == old(DecryptionKey(ctx))
      invariant 0 <= blockno <= len / BLOCK
      invariant inbuf[BLOCK * blockno..len] == data[BLOCK * blockno..]
      invariant Encrypting(w, first, data, before, BLOCK * blockno, iv[..], outbuf[..])
      decreases len / BLOCK - blockno
    {
      var fraction := BLOCK;
      if blockno == len / BLOCK {
        fraction := len % BLOCK;
        if fraction == 0 {
          break;
        }
      }
      EncryptTurn(ctx, iv, inbuf, outbuf, BLOCK * blockno, fraction, first, data, before);
      if fraction < BLOCK {
        return;
      }
      blockno := blockno + 1;
    }
    EncryptingEnds(w, first, data, before, iv[..], outbuf[..]);
  }

  /** One turn of the loop with its choice of the chaining value. */
  method DecryptTurn(ctx: Context, iv: array<byte>, inbuf: array<byte>, outbuf: array<byte>, blockno: nat,
      fraction: nat,
                     ghost first: seq<byte>, ghost data: seq<byte>, ghost before: seq<byte>, ghost prev: seq<byte>)
    requires KeySet(ctx) && iv.Length == BLOCK && iv != outbuf && ctx.Foreign(outbuf) && iv[..] == first
    requires Decrypting(DecryptionKey(ctx), inbuf == outbuf, first, data, before, BLOCK * blockno, prev, outbuf[..])
    requires 0 < fraction <= BLOCK && BLOCK * blockno + fraction <= |data| <= inbuf.Length && |data| <= outbuf.Length
    requires if inbuf == outbuf then data == before[..|data|] else data == inbuf[..|data|]
    modifies outbuf
    ensures KeySet(ctx) && DecryptionKey(ctx) == old(DecryptionKey(ctx)) && |prev| == BLOCK
    ensures var at := BLOCK * blockno;
      outbuf[..] == old(outbuf[..])[..at] + DecryptPart(DecryptionKey(ctx), data[at..at + fraction], prev)
                    + old(outbuf[..])[at + fraction..]
  {
    hide KeySet, EncryptionKey, DecryptionKey, DecryptBlock, ChainFrom, XorBytes, Padded, Decrypting, Context.Foreign,
      DecryptPart;
    ghost var now, at := outbuf[..], BLOCK * blockno;
    DecryptingFacts(DecryptionKey(ctx), inbuf == outbuf, first, data, before, at, prev, now);
    NextInput(inbuf[..], data, before, now, inbuf == outbuf, at, fraction);
    if blockno == 0 {
      assert iv[..][0..BLOCK] == prev;
      DecryptOne(ctx, iv, 0, inbuf, outbuf, BLOCK * blockno, fraction, data[at..at + fraction], prev);
    } else {
      DecryptOne(ctx, inbuf, BLOCK * (blockno - 1), inbuf, outbuf, BLOCK * blockno, fraction,
                 data[at..at + fraction], prev);
    }
  }

  /** aes_decrypt: every decrypted block is combined with what the input buffer holds where the block before it was,
      the first with iv. In a buffer of its own that is the ciphertext; if the output overwrites the input it is not. */
  method AesDecrypt(ctx: Context, iv: array<byte>, inbuf: array<byte>, outbuf: array<byte>, len: nat)
    requires KeySet(ctx) && iv.Length == BLOCK && len <= inbuf.Length && len <= outbuf.Length
    requires iv != outbuf && ctx.Foreign(outbuf)
    modifies outbuf
    ensures KeySet(ctx) && DecryptionKey(ctx) == old(DecryptionKey(ctx))
    ensures inbuf != outbuf ==>
      outbuf[..] == DecryptChain(DecryptionKey(ctx), iv[..], inbuf[..len]) + old(outbuf[..])[len..]
    ensures inbuf == outbuf ==>
      outbuf[..] == InPlaceChain(DecryptionKey(ctx), iv[..], old(inbuf[..len])) + old(outbuf[..])[len..]
  {
    hide KeySet, EncryptionKey, DecryptionKey, DecryptBlock, ChainFrom, XorBytes, Padded, Decrypting, Context.Foreign,
      DecryptPart;
    ghost var inPlace := inbuf == outbuf;
    ghost var v, data, first, before := DecryptionKey(ctx), inbuf[..len], iv[..], outbuf[..];
    var blockno := 0;
    DecryptingStarts(v, inPlace, first, data, before);
    ghost var prev := first;
    while blockno <= len / BLOCK
      invariant KeySet(ctx) && DecryptionKey(ctx) == v
      invariant 0 <= blockno <= len / BLOCK && |prev| == BLOCK
      invariant Decrypting(v, inPlace, first, data, before, BLOCK * blockno, prev, outbuf[..])
      decreases len / BLOCK - blockno
    {
      var fraction := BLOCK;
      if blockno == len / BLOCK {
        fraction := len % BLOCK;
        if fraction == 0 {
          break;
        }
      }
      ghost var now, at := outbuf[..], BLOCK * blockno;
      DecryptTurn(ctx, iv, inbuf, outbuf, blockno, fraction, first, data, before, prev);
      if fraction < BLOCK {
        DecryptingLast(v, inPlace, first, data, before, at, fraction, prev, now, outbuf[..]);
        return;
      }
      DecryptingStep(v, inPlace, first, data, before, at, prev, now, outbuf[..]);
      prev := (if inPlace then outbuf[..] else data)[at..at + BLOCK];
      blockno := blockno + 1;
    }
    DecryptingEnds(v, inPlace, first, data, before, prev, outbuf[..]);
  }

  /** What the input buffer holds, at the next block and at the block before it. */
  lemma NextInput(src: seq<byte>, data: seq<byte>, before: seq<byte>, now: seq<byte>, inPlace: bool, at: nat, n: nat)
    requires at + n <= |data| <= |before| == |now| && now[at..] == before[at..] && (at == 0 || at >= BLOCK)
    requires |data| <= |src| && if inPlace then src == now && data == before[..|data|] else data == src[..|data|]
    ensures src[at..at + n] == data[at..at + n]
    ensures at > 0 ==> src[at - BLOCK..at] == (if inPlace then now else data)[at - BLOCK..at]
  {
    if inPlace {
      assert now[at..at + n] == now[at..][..n] && before[at..at + n] == before[at..][..n];
    } else {
      Prefix(src, |data|, at, at + n);
      if at > 0 { Prefix(src, |data|, at - BLOCK, at); }
    }
  }

  method Blank(ctx: Context, len: nat) returns (dst: array<byte>)
    requires KeySet(ctx)
    ensures fresh(dst) && dst.Length == len && KeySet(ctx) && ctx.Foreign(dst)
    ensures forall i :: 0 <= i < len ==> dst[i] == 0
    ensures EncryptionKey(ctx) == old(EncryptionKey(ctx)) && DecryptionKey(ctx) == old(DecryptionKey(ctx))
  {
    hide KeySet, EncryptionKey, DecryptionKey;
    ghost var tables := ctx.Repr();
    dst := new byte[len](_ => 0);
    assert ctx.Repr() == tables;
  }

  // ---------- decryption over the input ----------

  lemma {:induction false} ChainLength(v: seq<word>, inPlace: bool, prev: seq<byte>, data: seq<byte>)
    requires Keys(v, 4, 10) && |prev| == BLOCK
    ensures |ChainFrom(v, inPlace, prev, data)| == |data|
    decreases |data|
  {
    hide DecryptBlock, DecryptPart;
    if |data| >= BLOCK {
      var p := XorBytes(DecryptBlock(v, data[..BLOCK]), prev);
      ChainLength(v, inPlace, if inPlace then p else data[..BLOCK], data[BLOCK..]);
    } else if data != [] {
      ChainEnd(v, inPlace, prev, data);
    }
  }

  /** Decryption leaves all but the last 16 bytes as they are. */
  predicate Fixed(data: seq<byte>, plain: seq<byte>)
    requires |plain| == |data|
  {
    forall i :: 0 <= i < |data| - BLOCK ==> plain[i] == data[i]
  }

  /** The first bytes of two chaining values, as many as a run of n bytes uses, are the same. */
  predicate SameStart(p: seq<byte>, q: seq<byte>, n: nat)
    requires |p| == |q| == BLOCK
  {
    forall i :: 0 <= i < BLOCK && i < n ==> p[i] == q[i]
  }

  lemma XorBytesSame(x: seq<byte>, p: seq<byte>, q: seq<byte>)
    requires |x| <= BLOCK == |p| == |q|
    ensures XorBytes(x, p) == XorBytes(x, q) <==> SameStart(p, q, |x|)
  {
    hide Xb;
    var a, b := XorBytes(x, p), XorBytes(x, q);
    forall i | 0 <= i < |x|
      ensures a[i] == b[i] <==> p[i] == q[i]
    {
      XbSame(x[i], p[i], q[i]);
    }
  }

  lemma XbSame(x: byte, p: byte, q: byte)
    ensures Xb(x, p) == Xb(x, q) <==> p == q
  {
  }

  /** A run decrypted in place from p and in a buffer of its own from c. */
  lemma {:induction false} RunsAgree(v: seq<word>, p: seq<byte>, c: seq<byte>, data: seq<byte>)
    requires Keys(v, 4, 10) && |p| == |c| == BLOCK
    ensures |ChainFrom(v, false, c, data)| == |data|
    ensures ChainFrom(v, true, p, data) == ChainFrom(v, false, c, data)
       <==> SameStart(p, c, |data|) && Fixed(data, ChainFrom(v, false, c, data))
    decreases |data|
  {
    hide DecryptBlock, XorBytes;
    ChainLength(v, true, p, data);
    ChainLength(v, false, c, data);
    if data == [] {
    } else if |data| < BLOCK {
      ChainEnd(v, true, p, data);
      ChainEnd(v, false, c, data);
      XorBytesSame(DecryptBlock(v, Padded(data))[..|data|], p, c);
    } else {
      var x, b, rest := DecryptBlock(v, data[..BLOCK]), data[..BLOCK], data[BLOCK..];
      RunsAgree(v, XorBytes(x, p), b, rest);
      XorBytesSame(x, p, c);
      hide ChainFrom, SameStart, Fixed;
      FirstBlock(v, true, p, data);
      FirstBlock(v, false, c, data);
      var t, f := ChainFrom(v, true, XorBytes(x, p), rest), ChainFrom(v, false, b, rest);
      Joined(XorBytes(x, p), t, XorBytes(x, c), f);
      if SameStart(p, c, |data|) {
        FixedJoined(data, XorBytes(x, c), f);
      }
    }
  }

  lemma FirstBlock(v: seq<word>, inPlace: bool, prev: seq<byte>, data: seq<byte>)
    requires Keys(v, 4, 10) && |prev| == BLOCK && |data| >= BLOCK
    ensures var p := XorBytes(DecryptBlock(v, data[..BLOCK]), prev);
      ChainFrom(v, inPlace, prev, data) == p + ChainFrom(v, inPlace, if inPlace then p
          else data[..BLOCK], data[BLOCK..])
  {
  }

  lemma Joined(a: seq<byte>, t: seq<byte>, b: seq<byte>, f: seq<byte>)
    requires |a| == |b|
    ensures a + t == b + f <==> a == b && t == f
  {
    if a + t == b + f {
      assert (a + t)[..|a|] == a && (b + f)[..|b|] == b && (a + t)[|a|..] == t && (b + f)[|b|..] == f;
    }
  }

  /** The first block and the rest of a run are fixed if and only if the run is. */
  lemma FixedJoined(data: seq<byte>, p: seq<byte>, f: seq<byte>)
    requires |data| >= BLOCK == |p| && |f| == |data| - BLOCK
    ensures Fixed(data, p + f) <==> SameStart(p, data[..BLOCK], |f|) && Fixed(data[BLOCK..], f)
  {
    var plain, rest := p + f, data[BLOCK..];
    if SameStart(p, data[..BLOCK], |f|) && Fixed(rest, f) {
      forall i | 0 <= i < |data| - BLOCK
        ensures plain[i] == data[i]
      {
        if i >= BLOCK { assert f[i - BLOCK] == rest[i - BLOCK]; }
      }
    }
    if Fixed(data, plain) {
      forall i | 0 <= i < |rest| - BLOCK
        ensures f[i] == rest[i]
      {
        assert plain[i + BLOCK] == data[i + BLOCK];
      }
      forall i | 0 <= i < BLOCK && i < |f|
        ensures p[i] == data[..BLOCK][i]
      {
        assert plain[i] == data[i];
      }
    }
  }

  /** Decryption over the input gives what decryption into a buffer of its own gives if and only if the plaintext is
      the ciphertext on all but the last 16 bytes; always, therefore, for at most 16 bytes. */
  lemma InPlaceAgrees(v: seq<word>, iv: seq<byte>, data: seq<byte>)
    requires Keys(v, 4, 10) && |iv| == BLOCK
    ensures |DecryptChain(v, iv, data)| == |data|
    ensures InPlaceChain(v, iv, data) == DecryptChain(v, iv, data) <==> Fixed(data, DecryptChain(v, iv, data))
    ensures |data| <= BLOCK ==> InPlaceChain(v, iv, data) == DecryptChain(v, iv, data)
  {
    hide ChainFrom;
    RunsAgree(v, iv, iv, data);
  }

  /** For every key there are two blocks that decryption over the input gets wrong: zeros, with the first chaining
      value that makes the first plaintext block 1, 0, 0, and so on. */
  lemma InPlaceFails(v: seq<word>)
    requires Keys(v, 4, 10)
    ensures var iv := XorBytes([1] + Zeros(15), DecryptBlock(v, Zeros(16)));
      InPlaceChain(v, iv, Zeros(32)) != DecryptChain(v, iv, Zeros(32))
  {
    hide DecryptBlock;
    var x, data := DecryptBlock(v, Zeros(16)), Zeros(32);
    var iv := XorBytes([1] + Zeros(15), x);
    assert data[..BLOCK] == Zeros(16);
    FirstBlock(v, false, iv, data);
    hide ChainFrom;
    InPlaceAgrees(v, iv, data);
    OneLeft(x[0]);
    assert DecryptChain(v, iv, data)[0] == XorBytes(x, iv)[0] == 1;
  }

  lemma OneLeft(x: byte)
    ensures Xb(x, Xb(1, x)) == 1
  {
  }

  /** A chaining value of its own, which encryption changes. */
  method CopyOf(ctx: Context, first: array<byte>) returns (iv: array<byte>)
    requires KeySet(ctx) && first.Length == BLOCK
    ensures fresh(iv) && iv[..] == first[..] && KeySet(ctx) && ctx.Foreign(iv)
    ensures EncryptionKey(ctx) == old(EncryptionKey(ctx)) && DecryptionKey(ctx) == old(DecryptionKey(ctx))
  {
    hide KeySet, EncryptionKey, DecryptionKey, Context.Foreign;
    iv := Blank(ctx, BLOCK);
    Store(ctx, first, iv, 0);
    assert iv[..] == first[..];
  }

  /** A run of whole blocks that is encrypted and then decrypted from the same first chaining value
      comes back, whatever the key. */
  method EncryptThenDecrypt(ctx: Context, key: array<byte>, data: array<byte>, first: array<byte>, len: nat)
    returns (back: array<byte>)
    requires ctx.Allocated() && key.Length >= 16 && ctx.Foreign(key)
    requires len % BLOCK == 0 && len <= data.Length && first.Length == BLOCK
    requires ctx.Foreign(data) && ctx.Foreign(first)
    modifies ctx, ctx.Repr()
    ensures fresh(back) && back[..] == data[..len]
  {
    hide KeySet, EncryptionKey, DecryptionKey, EncryptChain, DecryptChain;
    ghost var plain, start := data[..len], first[..];
    SetKey(ctx, key);
    ghost var w, v := EncryptionKey(ctx), DecryptionKey(ctx);
    var iv := CopyOf(ctx, first);
    var secret := Blank(ctx, len);
    AesEncrypt(ctx, iv, data, secret, len);
    DecryptEncryptChain(w, v, start, plain);
    assert secret[..len] == EncryptChain(w, start, plain);
    back := Blank(ctx, len);
    AesDecrypt(ctx, first, secret, back, len);
    assert back[..] == DecryptChain(v, start, secret[..len]);
  }
}
