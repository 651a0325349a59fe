/** Machine bytes and words, and the bit operations that the C code applies to them. */
module Octets {

  type byte = bv8

  type word = bv32

  function Xb(x: byte, y: byte): byte { x ^ y }

  function Xw(x: bv16, y: bv16): bv16 { x ^ y }

  function Xd(x: word, y: word): word { x ^ y }

  function And(x: byte, m: byte): byte { x & m }

  predicate Bit(x: byte, m: byte) {
    x & m != 0
  }

  predicate OneBit(m: byte) {
    m != 0 && m & (m - 1) == 0
  }

  lemma OneBits()
    ensures OneBit(1) && OneBit(2) && OneBit(4) && OneBit(8)
    ensures OneBit(16) && OneBit(32) && OneBit(64) && OneBit(128)
  {
  }

  /** Boolean exclusive or. */
  predicate Xor(p: bool, q: bool) { p != q }

  /** A byte used as an array index. */
  function Index(x: byte): (i: nat)
    ensures i < 256
  {
    x as int
  }

  function Octet(i: nat): byte
    requires i < 256
  {
    i as byte
  }

  lemma OctetOfIndex(x: byte)
    ensures Octet(Index(x)) == x
  {
  }

  lemma Successor(x: byte)
    requires x != 0xff
    ensures (x + 1) as int == x as int + 1
  {
  }

  lemma {:induction false} Representable(i: nat) returns (x: byte)
    requires i < 256
    ensures Index(x) == i
  {
    if i == 0 {
      x := 0;
    } else {
      var y := Representable(i - 1);
      x := y + 1;
      Successor(y);
    }
  }

  lemma IndexOfOctet(i: nat)
    requires i < 256
    ensures Index(Octet(i)) == i
  {
    var x := Representable(i);
    OctetOfIndex(x);
  }

  lemma XbComm(x: byte, y: byte)
    ensures Xb(x, y) == Xb(y, x)
  {
  }

  lemma XbZero(x: byte)
    ensures Xb(x, 0) == x && Xb(0, x) == x
  {
  }

  lemma XbSelf(x: byte, y: byte)
    ensures Xb(x, x) == 0 && Xb(x, 0) == x && Xb(Xb(x, y), y) == x
  {
  }

  lemma XbRegroup(a: byte, b: byte, c: byte, d: byte)
    ensures Xb(Xb(a, b), Xb(c, d)) == Xb(Xb(a, c), Xb(b, d))
  {
    assert (a ^ b) ^ (c ^ d) == (a ^ c) ^ (b ^ d);
  }

  lemma XdSelf(x: word, y: word)
    ensures Xd(Xd(x, y), y) == x
  {
  }

  lemma XdAssoc(x: word, y: word, z: word)
    ensures Xd(Xd(x, y), z) == Xd(x, Xd(y, z))
  {
  }

  lemma XdComm(x: word, y: word)
    ensures Xd(x, y) == Xd(y, x)
  {
  }

  function Zeros(n: nat): (z: seq<byte>)
    ensures |z| == n
  {
    seq(n, _ => 0)
  }
}
