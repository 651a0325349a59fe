/** HMAC-SHA1 (section 2 of RFC 2104) over file system blocks: wiinandfuse/source/fs_hmac.c. */
module Hmac {
  import opened Octets
  import opened Sha1

  const IPAD: byte := 0x36
  const OPAD: byte := 0x5c

  /** The bytes of a block, each with c added. */
  function XorAll(b: seq<byte>, c: byte): (r: seq<byte>)
    ensures |r| == |b| && forall i :: 0 <= i < |b| ==> r[i] == Xb(b[i], c)
  {
    seq(|b|, i requires 0 <= i < |b| => Xb(b[i], c))
  }

  /** The key, cut to 64 bytes or filled up to 64 with zeros. */
  function KeyBlock(key: seq<byte>): (b: seq<byte>)
    ensures |b| == 64
  {
    if |key| < 64 then key + Zeros(64 - |key|) else key[..64]
  }

  function WordBytes(w: word): (s: seq<byte>)
    ensures |s| == 4
  {
    [((w >> 24) & 0xff) as byte, ((w >> 16) & 0xff) as byte, ((w >> 8) & 0xff) as byte, (w & 0xff) as byte]
  }

  /** A digest as 20 bytes. */
  function DigestBytes(s: State): (b: seq<byte>)
    ensures |b| == 20
  {
    WordBytes(s.a) + WordBytes(s.b) + WordBytes(s.c) + WordBytes(s.d) + WordBytes(s.e)
  }

  /** The bytes of the first n words. */
  function FirstBytes(w: seq<word>, n: nat): seq<byte>
    requires n <= |w|
  {
    if n == 0 then [] else FirstBytes(w, n - 1) + WordBytes(w[n - 1])
  }

  lemma FiveWords(w: seq<word>)
    requires |w| == 5
    ensures FirstBytes(w, 5) == DigestBytes(State(w[0], w[1], w[2], w[3], w[4]))
  {
    hide WordBytes;
    assert FirstBytes(w, 1) == WordBytes(w[0]);
    assert FirstBytes(w, 3) == FirstBytes(w, 2) + WordBytes(w[2]);
  }

  /** H(K XOR opad, H(K XOR ipad, text)) */
  function Mac(block: seq<byte>, text: seq<byte>): (b: seq<byte>)
    ensures |b| == 20
  {
    DigestBytes(Hash(XorAll(block, OPAD) + DigestBytes(Hash(XorAll(block, IPAD) + text))))
  }

  /** The key block of section 2 of RFC 2104, where keys of more than a block are hashed first. */
  function RfcBlock(key: seq<byte>): (b: seq<byte>)
    ensures |b| == 64
  {
    KeyBlock(if |key| > 64 then DigestBytes(Hash(key)) else key)
  }

  /** HMAC of section 2 of RFC 2104. */
  function Rfc2104(key: seq<byte>, text: seq<byte>): seq<byte> {
    Mac(RfcBlock(key), text)
  }

  /** Cutting the key gives the block of the standard for every key of at most 64 bytes, and for a longer one if and
      only if the key begins with its own digest and has zeros from there to byte 63. */
  lemma BlocksAgree(key: seq<byte>)
    ensures KeyBlock(key) == RfcBlock(key)
       <==> |key| <= 64 || (key[..20] == DigestBytes(Hash(key)) && key[20..64] == Zeros(44))
  {
    hide Hash, DigestBytes;
    if |key| > 64 {
      var d := DigestBytes(Hash(key));
      assert RfcBlock(key) == d + Zeros(44);
      assert key[..64] == key[..20] + key[20..64];
      assert (d + Zeros(44))[..20] == d && (d + Zeros(44))[20..] == Zeros(44);
      assert key[..64][..20] == key[..20] && key[..64][20..] == key[20..64];
    }
  }

  /** A key of 65 bytes, zero but for byte 20, is cut to another block than the standard's. */
  lemma LongKeyDiffers()
    ensures var key := Zeros(20) + [1] + Zeros(44); |key| == 65 && KeyBlock(key) != RfcBlock(key)
  {
    hide Hash, DigestBytes;
    var key := Zeros(20) + [1] + Zeros(44);
    BlocksAgree(key);
    assert key[20..64][0] == 1 && Zeros(44)[0] == 0;
  }

  lemma PadChange(x: byte)
    ensures Xb(Xb(x, IPAD), Xb(IPAD, OPAD)) == Xb(x, OPAD)
  {
  }

  lemma PadsChange(b: seq<byte>)
    ensures XorAll(XorAll(b, IPAD), Xb(IPAD, OPAD)) == XorAll(b, OPAD)
  {
    forall i | 0 <= i < |b|
      ensures XorAll(XorAll(b, IPAD), Xb(IPAD, OPAD))[i] == XorAll(b, OPAD)[i]
    {
      PadChange(b[i]);
    }
  }

  class HmacContext {
    const key: array<byte>
    const hash: Context

    ghost predicate Valid()
      reads hash
    {
      key.Length == 64 && hash.Valid() && key != hash.block
    }

    /** The text taken in so far under a key block. */
    ghost predicate Keyed(block: seq<byte>, text: seq<byte>)
      reads key, hash, hash.digest, hash.block
    {
      Valid() && |block| == 64 && key[..] == XorAll(block, IPAD) && hash.Absorbed(XorAll(block, IPAD) + text)
    }

    constructor ()
      ensures Valid() && fresh(key) && fresh(hash) && fresh(hash.digest) && fresh(hash.block)
    {
      key := new byte[64](_ => 0);
      hash := new Context();
    }

    /** The key block with c added to every byte. */
    method XorKey(c: byte)
      requires key.Length == 64
      modifies key
      ensures key[..] == XorAll(old(key[..]), c)
    {
      hide Xb;
      ghost var k0 := key[..];
      for i := 0 to 64
        invariant forall j :: 0 <= j < i ==> key[j] == Xb(k0[j], c)
        invariant forall j :: i <= j < 64 ==> key[j] == k0[j]
      {
        key[i] := Xb(key[i], c);
      }
    }

    /** memset and memcpy of the key. */
    method LoadKey(k: seq<byte>)
      requires key.Length == 64
      modifies key
      ensures key[..] == KeyBlock(k)
    {
      var size := if |k| < 64 then |k| else 64;
      for i := 0 to 64
        invariant forall j :: 0 <= j < i ==> key[j] == 0
      {
        key[i] := 0;
      }
      for i := 0 to size
        invariant forall j :: 0 <= j < i ==> key[j] == k[j]
        invariant forall j :: i <= j < 64 ==> key[j] == 0
      {
        key[i] := k[i];
      }
    }

    /** hmac_init */
    method Init(k: seq<byte>)
      requires Valid()
      modifies key, hash, hash.digest, hash.block
      ensures Keyed(KeyBlock(k), [])
    {
      hide Context.Absorbed, XorAll, KeyBlock;
      LoadKey(k);
      XorKey(IPAD);
      hash.Reset();
      hash.Input(key[..], []);
      assert [] + key[..] == key[..] + [];
    }

    /** hmac_update */
    method Update(data: seq<byte>, ghost block: seq<byte>, ghost text: seq<byte>)
      requires Keyed(block, text) && 8 * (64 + |text| + |data|) < TWO32 * TWO32
      modifies hash, hash.digest, hash.block
      ensures Keyed(block, text + data)
    {
      hide Context.Absorbed;
      hash.Input(data, XorAll(block, IPAD) + text);
      assert XorAll(block, IPAD) + text + data == XorAll(block, IPAD) + (text + data);
    }

    method DigestOut() returns (b: seq<byte>)
      requires hash.digest.Length == 5
      ensures b == DigestBytes(hash.Value())
    {
      hide WordBytes;
      b := [];
      for i := 0 to 5
        invariant b == FirstBytes(hash.digest[..], i)
      {
        b := b + WordBytes(hash.digest[i]);
      }
      FiveWords(hash.digest[..]);
    }

    /** hmac_final */
    method Final(ghost block: seq<byte>, ghost text: seq<byte>) returns (mac: seq<byte>)
      requires Keyed(block, text)
      modifies key, hash, hash.digest, hash.block
      ensures Valid() && mac == Mac(block, text)
    {
      hide Context.Taken, Context.Finished, XorAll, DigestBytes, Hash, Rest;
      ghost var inner := XorAll(block, IPAD) + text;
      var ok := hash.Result(inner);
      FinishedValue(inner);
      var digest := DigestOut();
      XorKey(Xb(IPAD, OPAD));
      PadsChange(block);
      hash.Reset();
      hash.Input(key[..], []);
      assert [] + key[..] == key[..];
      hash.Input(digest, key[..]);
      ok := hash.Result(key[..] + digest);
      FinishedValue(key[..] + digest);
      mac := DigestOut();
    }

    lemma FinishedValue(m: seq<byte>)
      requires hash.Finished(m)
      ensures hash.digest.Length == 5 && hash.Value() == Hash(m) && hash.Valid()
    {
    }
  }

  /** fs_hmac_set_key */
  method SetKey(k: seq<byte>) returns (key: seq<byte>)
    ensures |key| == 20 && key == if |k| < 20 then k + Zeros(20 - |k|) else k[..20]
  {
    key := if |k| < 20 then k + Zeros(20 - |k|) else k[..20];
  }

  /** fs_hmac_generic: HMAC-SHA1 of extra and then data under the 20-byte key. */
  method Generic(key: seq<byte>, data: seq<byte>, extra: seq<byte>) returns (mac: seq<byte>)
    requires |key| == 20 && 8 * (64 + |extra| + |data|) < TWO32 * TWO32
    ensures mac == Rfc2104(key, extra + data)
  {
    hide Mac, Hash;
    var ctx := new HmacContext();
    ctx.Init(key);
    ctx.Update(extra, KeyBlock(key), []);
    assert [] + extra == extra;
    ctx.Update(data, KeyBlock(key), extra);
    mac := ctx.Final(KeyBlock(key), extra + data);
  }

  /** hmac_init, hmac_update for each piece and hmac_final, for a key of any length. */
  method Authenticate(key: seq<byte>, pieces: seq<seq<byte>>) returns (mac: seq<byte>)
    requires 8 * (64 + |Concat(pieces)|) < TWO32 * TWO32
    ensures mac == Mac(KeyBlock(key), Concat(pieces))
    ensures |key| <= 64 ==> mac == Rfc2104(key, Concat(pieces))
  {
    hide Mac, Hash, KeyBlock, RfcBlock;
    ghost var block := KeyBlock(key);
    var ctx := new HmacContext();
    ctx.Init(key);
    assert pieces[..0] == [];
    for i := 0 to |pieces|
      invariant ctx.Keyed(block, Concat(pieces[..i]))
    {
      assert pieces[..i + 1][..i] == pieces[..i];
      ConcatGrows(pieces, i + 1);
      ctx.Update(pieces[i], block, Concat(pieces[..i]));
    }
    assert pieces[..|pieces|] == pieces;
    mac := ctx.Final(block, Concat(pieces));
    BlocksAgree(key);
  }
}
