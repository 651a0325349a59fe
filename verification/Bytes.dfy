/** Bytes and big-endian numbers. */
module Bytes {
  import opened Arith

  type u8 = x: int | 0 <= x < 0x100

  /** The number a sequence of base-256 digits spells, most significant digit first. */
  ghost function Val(s: seq<u8>): (v: nat)
  {
    if s == [] then 0 else s[0] * Pow(256, |s| - 1) + Val(s[1..])
  }

  lemma {:induction false} ValBound(s: seq<u8>)
    ensures Val(s) < Pow(256, |s|)
  {
    if s != [] {
      ValBound(s[1..]);
      MulMono(s[0], 255, Pow(256, |s| - 1));
    }
  }

  lemma MulMono(x: int, y: int, p: int)
    requires x <= y && p >= 0
    ensures x * p <= y * p
  {
  }

  /** Appending a least significant digit. */
  lemma {:induction false} ValSnoc(s: seq<u8>, x: u8)
    ensures Val(s + [x]) == Val(s) * 256 + x
  {
    if s == [] {
      assert Val([x]) == x * Pow(256, 0) + Val([x][1..]);
    } else {
      var p := Pow(256, |s| - 1);
      ValSnoc(s[1..], x);
      assert (s + [x])[1..] == s[1..] + [x];
      assert Val(s + [x]) == s[0] * (256 * p) + (Val(s[1..]) * 256 + x);
      MulAssoc(s[0], 256, p);
      assert s[0] * 256 * p == (s[0] * p) * 256;
    }
  }

  /** The first differing digit decides. */
  lemma {:induction false} ValLess(s: seq<u8>, t: seq<u8>, i: nat)
    requires i < |s| == |t| && s[..i] == t[..i] && s[i] < t[i]
    ensures Val(s) < Val(t)
    decreases i
  {
    var p := Pow(256, |s| - 1);
    if i == 0 {
      ValBound(s[1..]);
      MulMono(s[0] + 1, t[0], p);
      assert (s[0] + 1) * p == s[0] * p + p;
    } else {
      assert s[..i][0] == t[..i][0];
      assert s[1..][..i - 1] == s[..i][1..] == t[..i][1..] == t[1..][..i - 1];
      ValLess(s[1..], t[1..], i - 1);
    }
  }

  lemma {:induction false} ValZero(s: seq<u8>)
    requires forall i :: 0 <= i < |s| ==> s[i] == 0
    ensures Val(s) == 0
  {
    if s != [] {
      ValZero(s[1..]);
    }
  }

  /** A number whose only nonzero digit is the last. */
  lemma ValSmall(s: seq<u8>)
    requires |s| > 0 && forall i :: 0 <= i < |s| - 1 ==> s[i] == 0
    ensures Val(s) == s[|s| - 1]
  {
    var k := |s| - 1;
    ValZero(s[..k]);
    ValSnoc(s[..k], s[k]);
    assert s == s[..k] + [s[k]];
  }
}
