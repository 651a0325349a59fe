/** SHA-1 computed on the examples of FIPS 180-1: what the digests are, apart from the formulas for them. */
module Sha1Vectors {
  import Arith
  import opened Octets
  import opened Sha1

  // ---------- sixteen words and steps at a time ----------

  /** Word t follows from those before it. */
  predicate Follows(w: seq<word>, t: nat) {
    16 <= t < |w| && w[t] == Mix(w[t - 3], w[t - 8], w[t - 14], w[t - 16])
  }

  ghost predicate Scheduled(w: seq<word>) {
    |w| == 80 && forall t: nat {:trigger w[t]} :: 16 <= t < 80 ==> Follows(w, t)
  }

  predicate RowAt(w: seq<word>, t: nat, x0: word, x1: word, x2: word, x3: word, x4: word, x5: word, x6: word,
                  x7: word, x8: word, x9: word, x10: word, x11: word, x12: word, x13: word, x14: word, x15: word)
  {
    && t + 16 <= |w|
    && w[t] == x0 && w[t + 1] == x1 && w[t + 2] == x2 && w[t + 3] == x3
    && w[t + 4] == x4 && w[t + 5] == x5 && w[t + 6] == x6 && w[t + 7] == x7
    && w[t + 8] == x8 && w[t + 9] == x9 && w[t + 10] == x10 && w[t + 11] == x11
    && w[t + 12] == x12 && w[t + 13] == x13 && w[t + 14] == x14 && w[t + 15] == x15
  }

  /** The words of a block are its bytes, four at a time. */
  predicate BlockIs(b: seq<byte>, x0: word, x1: word, x2: word, x3: word, x4: word, x5: word, x6: word, x7: word,
                    x8: word, x9: word, x10: word, x11: word, x12: word, x13: word, x14: word, x15: word)
  {
    && |b| == 64
    && Pack4(b[0], b[1], b[2], b[3]) == x0
    && Pack4(b[4], b[5], b[6], b[7]) == x1
    && Pack4(b[8], b[9], b[10], b[11]) == x2
    && Pack4(b[12], b[13], b[14], b[15]) == x3
    && Pack4(b[16], b[17], b[18], b[19]) == x4
    && Pack4(b[20], b[21], b[22], b[23]) == x5
    && Pack4(b[24], b[25], b[26], b[27]) == x6
    && Pack4(b[28], b[29], b[30], b[31]) == x7
    && Pack4(b[32], b[33], b[34], b[35]) == x8
    && Pack4(b[36], b[37], b[38], b[39]) == x9
    && Pack4(b[40], b[41], b[42], b[43]) == x10
    && Pack4(b[44], b[45], b[46], b[47]) == x11
    && Pack4(b[48], b[49], b[50], b[51]) == x12
    && Pack4(b[52], b[53], b[54], b[55]) == x13
    && Pack4(b[56], b[57], b[58], b[59]) == x14
    && Pack4(b[60], b[61], b[62], b[63]) == x15
  }

  lemma FirstRow(b: seq<byte>, x0: word, x1: word, x2: word, x3: word, x4: word, x5: word,
                 x6: word, x7: word, x8: word, x9: word, x10: word, x11: word, x12: word, x13: word, x14: word,
                     x15: word)
    requires BlockIs(b, x0, x1, x2, x3, x4, x5, x6, x7, x8, x9, x10, x11, x12, x13, x14, x15)
    ensures RowAt(Words(b, 80), 0, x0, x1, x2, x3, x4, x5, x6, x7, x8, x9, x10, x11, x12, x13, x14, x15)
  {
    hide Words, Mix, Pack4;
    var w := Words(b, 80);
    assert w[0] == x0 by { WordAt(b, 0); }
    assert w[1] == x1 by { WordAt(b, 1); }
    assert w[2] == x2 by { WordAt(b, 2); }
    assert w[3] == x3 by { WordAt(b, 3); }
    assert w[4] == x4 by { WordAt(b, 4); }
    assert w[5] == x5 by { WordAt(b, 5); }
    assert w[6] == x6 by { WordAt(b, 6); }
    assert w[7] == x7 by { WordAt(b, 7); }
    assert w[8] == x8 by { WordAt(b, 8); }
    assert w[9] == x9 by { WordAt(b, 9); }
    assert w[10] == x10 by { WordAt(b, 10); }
    assert w[11] == x11 by { WordAt(b, 11); }
    assert w[12] == x12 by { WordAt(b, 12); }
    assert w[13] == x13 by { WordAt(b, 13); }
    assert w[14] == x14 by { WordAt(b, 14); }
    assert w[15] == x15 by { WordAt(b, 15); }
  }

  lemma {:induction false} WordsPrefix(b: seq<byte>, n: nat)
    requires |b| == 64 && n <= 80
    ensures Words(b, 80)[..n] == Words(b, n)
    decreases 80 - n
  {
    hide Pack4, Mix;
    if n < 80 {
      WordsPrefix(b, n + 1);
      assert Words(b, 80)[..n] == Words(b, 80)[..n + 1][..n];
    }
  }

  lemma WordAt(b: seq<byte>, t: nat)
    requires |b| == 64 && t < 80
    ensures var w := Words(b, 80);
      w[t] == if t < 16 then Pack4(b[4 * t], b[4 * t + 1], b[4 * t + 2], b[4 * t + 3])
              else Mix(w[t - 3], w[t - 8], w[t - 14], w[t - 16])
  {
    hide Pack4, Mix;
    WordsPrefix(b, t);
    WordsPrefix(b, t + 1);
    var w := Words(b, 80);
    assert w[t] == w[..t + 1][t];
    if t >= 16 {
      assert w[t - 3] == w[..t][t - 3] && w[t - 8] == w[..t][t - 8];
      assert w[t - 14] == w[..t][t - 14] && w[t - 16] == w[..t][t - 16];
    }
  }

  lemma WordsScheduled(b: seq<byte>)
    requires |b| == 64
    ensures Scheduled(Words(b, 80))
  {
    hide Pack4, Mix, Words;
    var w := Words(b, 80);
    forall t: nat {:trigger Follows(w, t)} | 16 <= t < 80
      ensures Follows(w, t)
    {
      WordAt(b, t);
    }
    hide Follows;
  }

  lemma Sixteen(s: State, w: seq<word>, t: nat)
    requires t + 16 <= |w|
    ensures Turns(s, w, t + 16) ==
      Turn(Turn(Turn(Turn(Turn(Turn(Turn(Turn(Turn(Turn(Turn(Turn(Turn(Turn(Turn(Turn(Turns(s, w, t),
      t, w[t]), t + 1, w[t + 1]), t + 2, w[t + 2]), t + 3, w[t + 3]), t + 4, w[t + 4]), t + 5, w[t + 5]),
      t + 6, w[t + 6]), t + 7, w[t + 7]), t + 8, w[t + 8]), t + 9, w[t + 9]), t + 10, w[t + 10]),
      t + 11, w[t + 11]), t + 12, w[t + 12]), t + 13, w[t + 13]), t + 14, w[t + 14]), t + 15, w[t + 15])
  {
    hide Turn;
    assert Turns(s, w, t + 1) == Turn(Turns(s, w, t), t, w[t]);
    assert Turns(s, w, t + 2) == Turn(Turns(s, w, t + 1), t + 1, w[t + 1]);
    assert Turns(s, w, t + 3) == Turn(Turns(s, w, t + 2), t + 2, w[t + 2]);
    assert Turns(s, w, t + 4) == Turn(Turns(s, w, t + 3), t + 3, w[t + 3]);
    assert Turns(s, w, t + 5) == Turn(Turns(s, w, t + 4), t + 4, w[t + 4]);
    assert Turns(s, w, t + 6) == Turn(Turns(s, w, t + 5), t + 5, w[t + 5]);
    assert Turns(s, w, t + 7) == Turn(Turns(s, w, t + 6), t + 6, w[t + 6]);
    assert Turns(s, w, t + 8) == Turn(Turns(s, w, t + 7), t + 7, w[t + 7]);
    assert Turns(s, w, t + 9) == Turn(Turns(s, w, t + 8), t + 8, w[t + 8]);
    assert Turns(s, w, t + 10) == Turn(Turns(s, w, t + 9), t + 9, w[t + 9]);
    assert Turns(s, w, t + 11) == Turn(Turns(s, w, t + 10), t + 10, w[t + 10]);
    assert Turns(s, w, t + 12) == Turn(Turns(s, w, t + 11), t + 11, w[t + 11]);
    assert Turns(s, w, t + 13) == Turn(Turns(s, w, t + 12), t + 12, w[t + 12]);
    assert Turns(s, w, t + 14) == Turn(Turns(s, w, t + 13), t + 13, w[t + 13]);
    assert Turns(s, w, t + 15) == Turn(Turns(s, w, t + 14), t + 14, w[t + 14]);
  }

  lemma NoTurns(s: State, w: seq<word>)
    ensures Turns(s, w, 0) == s
  {
  }


  /** The length of a message of less than 8192 bytes, at the end of its last block. */
  lemma SmallLength(n: nat)
    requires n < 0x1_0000
    ensures Length8(n) == Zeros(6) + [Octet(n / 0x100), Octet(n % 0x100)]
  {
    NoBits();
    hide Octet;
  }

  lemma NoBits()
    ensures Octet(0) == 0
  {
  }

  /** The digest of a message whose padding fits into its only block. */
  lemma OneBlock(m: seq<byte>)
    requires |m| <= 55
    ensures var b := m + [0x80] + Zeros(55 - |m|) + Length8(8 * |m|);
      |b| == 64 && Hash(m) == Compress(Start(), b)
  {
    hide Compress, Hash, Length8;
    Arith.DivModUnique(|m|, 0, 64, |m|);
    PadInOne(m);
    assert Rest(m) == m && Absorb(m, 0) == Start();
  }

  /** And of one that needs a second block. */
  lemma TwoBlocks(m: seq<byte>)
    requires 55 < |m| < 64
    ensures var b, c := m + [0x80] + Zeros(63 - |m|), Zeros(56) + Length8(8 * |m|);
      |b| == |c| == 64 && Hash(m) == Compress(Compress(Start(), b), c)
  {
    hide Compress, Hash, Length8;
    Arith.DivModUnique(|m|, 0, 64, |m|);
    PadInTwo(m);
    assert Rest(m) == m && Absorb(m, 0) == Start();
  }

  // ---------- appendix A of FIPS 180-1 ----------

  ghost predicate AbcWords(w: seq<word>) {
    && RowAt(w, 0, 0x61626380, 0x00000000, 0x00000000, 0x00000000, 0x00000000, 0x00000000, 0x00000000, 0x00000000,
            0x00000000, 0x00000000, 0x00000000, 0x00000000, 0x00000000, 0x00000000, 0x00000000, 0x00000018)
    && RowAt(w, 16, 0xC2C4C700, 0x00000000, 0x00000030, 0x85898E01, 0x00000000, 0x00000060, 0x0B131C03, 0x00000030,
            0x85898EC1, 0x16263806, 0x00000000, 0x00000180, 0x2C4C700C, 0x000000F0, 0x93AFB507, 0x5898E048)
    && RowAt(w, 32, 0x8E9A9202, 0x00000600, 0xB131C0F0, 0x16263BC6, 0x4EBED41E, 0x626380A1, 0x16263806, 0x000018C0,
            0xD2E138C4, 0x00000F00, 0x3AFB5079, 0x898E04E5, 0xE2BA3C2B, 0x000060C0, 0x053A37CD, 0x74458547)
    && RowAt(w, 48, 0xDA9415ED, 0x26380A16, 0x626383A1, 0x4EBF54DE, 0x3835B44B, 0x0000F600, 0x1E84C7A3, 0x98E04D98,
            0x651D16A0, 0x62658CA1, 0x458544D6, 0x44584CB7, 0x7BA06619, 0x6380AEA2, 0x0AE55269, 0x627B49A1)
    && RowAt(w, 64, 0x7CD45C9D, 0x000F0000, 0xFB50753A, 0xEC6765E8, 0xBA3C2BE2, 0x0060C000, 0x3A37CD05, 0x458546F4,
            0xB8599DD6, 0x380A1A26, 0x01E02203, 0xE7CC3456, 0xE6E60B69, 0x00F60A00, 0x5795EF4F, 0x822E0879)
  }

  lemma AbcSchedule(w: seq<word>)
    requires Scheduled(w)
    requires RowAt(w, 0, 0x61626380, 0x00000000, 0x00000000, 0x00000000, 0x00000000, 0x00000000, 0x00000000, 0x00000000,
            0x00000000, 0x00000000, 0x00000000, 0x00000000, 0x00000000, 0x00000000, 0x00000000, 0x00000018)
    ensures AbcWords(w)
  {
  }

  lemma AbcFirst(s: State, w: seq<word>)
    requires AbcWords(w) && Turns(s, w, 0) == State(0x67452301, 0xEFCDAB89, 0x98BADCFE, 0x10325476, 0xC3D2E1F0)
    ensures Turns(s, w, 32) == State(0x3B845D33, 0x1267B407, 0x717EEBD7, 0xA0DC2D4B, 0xD2AA1365)
  {
    assert Turns(s, w, 16) == State(0x20BDD62F, 0x196BEE77, 0x644A3DA5, 0x1181ED99, 0x18C623F9) by { Sixteen(s, w, 0); }
    Sixteen(s, w, 16);
  }

  lemma AbcMiddle(s: State, w: seq<word>)
    requires AbcWords(w) && Turns(s, w, 32) == State(0x3B845D33, 0x1267B407, 0x717EEBD7, 0xA0DC2D4B, 0xD2AA1365)
    ensures Turns(s, w, 64) == State(0x6B61C9E1, 0xB66C020B, 0x9523272C, 0xF5D5B051, 0x8FD4B796)
  {
    assert Turns(s, w, 48) == State(0xBEAD02CA, 0xA01B846C, 0x8714787C, 0x503CA382, 0xFB86C6AB) by { Sixteen(s, w, 32);
        }
    Sixteen(s, w, 48);
  }

  lemma AbcLast(s: State, w: seq<word>)
    requires AbcWords(w) && Turns(s, w, 64) == State(0x6B61C9E1, 0xB66C020B, 0x9523272C, 0xF5D5B051, 0x8FD4B796)
    ensures Turns(s, w, 80) == State(0x42541B35, 0x5738D5E1, 0x21834873, 0x681E6DF6, 0xD8FDF6AD)
  {
    Sixteen(s, w, 64);
  }

  lemma AbcBlock(s: State, b: seq<byte>)
    requires |b| == 64 && s == State(0x67452301, 0xEFCDAB89, 0x98BADCFE, 0x10325476, 0xC3D2E1F0)
    requires BlockIs(b, 0x61626380, 0x00000000, 0x00000000, 0x00000000, 0x00000000, 0x00000000, 0x00000000, 0x00000000,
      0x00000000,
            0x00000000, 0x00000000, 0x00000000, 0x00000000, 0x00000000, 0x00000000, 0x00000018)
    ensures Compress(s, b) == State(0xA9993E36, 0x4706816A, 0xBA3E2571, 0x7850C26C, 0x9CD0D89D)
  {
    hide Words, BlockIs, Scheduled, AbcWords, RowAt, Turn, Turns;
    var w := Words(b, 80);
    NoTurns(s, w);
    WordsScheduled(b);
    FirstRow(b, 0x61626380, 0x00000000, 0x00000000, 0x00000000, 0x00000000, 0x00000000, 0x00000000, 0x00000000,
             0x00000000, 0x00000000, 0x00000000, 0x00000000, 0x00000000, 0x00000000, 0x00000000, 0x00000018);
    AbcSchedule(w);
    AbcFirst(s, w);
    AbcMiddle(s, w);
    AbcLast(s, w);
  }

  lemma AbcBytes(b: seq<byte>)
    requires |b| == 64
    requires b[0] == 0x61 && b[1] == 0x62 && b[2] == 0x63 && b[3] == 0x80 && b[63] == 0x18
    requires forall i :: 4 <= i < 63 ==> b[i] == 0
    ensures BlockIs(b, 0x61626380, 0x00000000, 0x00000000, 0x00000000, 0x00000000, 0x00000000, 0x00000000, 0x00000000,
      0x00000000,
            0x00000000, 0x00000000, 0x00000000, 0x00000000, 0x00000000, 0x00000000, 0x00000018)
  {
    AbcPacks();
    hide Pack4;
  }

  lemma AbcPacks()
    ensures Pack4(0x61, 0x62, 0x63, 0x80) == 0x61626380 && Pack4(0, 0, 0, 0) == 0x00000000
    ensures Pack4(0, 0, 0, 0x18) == 0x00000018
  {
  }

  lemma AbcLength()
    ensures Octet(0) == 0 && Octet(24) == 0x18
  {
  }

  /** The digest of "abc". */
  lemma Abc()
    ensures Hash([0x61, 0x62, 0x63]) == State(0xA9993E36, 0x4706816A, 0xBA3E2571, 0x7850C26C, 0x9CD0D89D)
  {
    hide Compress, Hash, Length8, BlockIs, Octet;
    var m: seq<byte> := [0x61, 0x62, 0x63];
    OneBlock(m);
    SmallLength(24);
    AbcLength();
    var b := m + [0x80] + Zeros(52) + Length8(24);
    AbcBytes(b);
    AbcBlock(Start(), b);
  }

  // ---------- appendix B of FIPS 180-1 ----------

  ghost predicate LongWords(w: seq<word>) {
    && RowAt(w, 0, 0x61626364, 0x62636465, 0x63646566, 0x64656667, 0x65666768, 0x66676869, 0x6768696A, 0x68696A6B,
            0x696A6B6C, 0x6A6B6C6D, 0x6B6C6D6E, 0x6C6D6E6F, 0x6D6E6F70, 0x6E6F7071, 0x80000000, 0x00000000)
    && RowAt(w, 16, 0x0A063A3E, 0xD8DADCDF, 0xDADCDEC0, 0xC8D2B4BE, 0x6F757B5B, 0x757B5967, 0x8DA16D70, 0xDAEEFABA,
            0xFAF6CAB6, 0xA6FB675A, 0x0C604CC8, 0x604CC02C, 0x49C0E6E2, 0x2EE8CBBC, 0xCFD72EC4, 0x97E9810E)
    && RowAt(w, 32, 0x0989CBE8, 0xF24843FE, 0x5C40D0BA, 0xA8D9CC3B, 0xB2B9666E, 0xBA7B71B7, 0x20B28A72, 0xB28AF500,
            0x8AC87842, 0x289ADDF4, 0x56D51F21, 0xD96B7FD2, 0x3868E778, 0xAB5E4848, 0x7F0E2118, 0xDE87A111)
    && RowAt(w, 48, 0xE8BE56B0, 0x1A0AE652, 0xCD5611C8, 0x46EF29DC, 0x60D3DA6D, 0xDDF3BA6E, 0x2737F5E9, 0x4888A710,
            0xD2A1177B, 0x9999633B, 0xD6C69D03, 0xCCF6127B, 0x7C58FE6D, 0xFDD99C68, 0xF8E32074, 0xE0BA3C7D)
    && RowAt(w, 64, 0x152198D6, 0x7B3F1982, 0x37F2D5B7, 0x8596323E, 0x810790D6, 0xBEA0A942, 0x11C7E1B1, 0x6158D101,
            0x5FCD77D9, 0x7F2F12E6, 0xF868CFB1, 0xD6E997E9, 0xF526B852, 0xB7578DCC, 0x55D99DF4, 0x1FF69958)
  }

  lemma LongSchedule(w: seq<word>)
    requires Scheduled(w)
    requires RowAt(w, 0, 0x61626364, 0x62636465, 0x63646566, 0x64656667, 0x65666768, 0x66676869, 0x6768696A, 0x68696A6B,
            0x696A6B6C, 0x6A6B6C6D, 0x6B6C6D6E, 0x6C6D6E6F, 0x6D6E6F70, 0x6E6F7071, 0x80000000, 0x00000000)
    ensures LongWords(w)
  {
  }

  lemma LongFirst(s: State, w: seq<word>)
    requires LongWords(w) && Turns(s, w, 0) == State(0x67452301, 0xEFCDAB89, 0x98BADCFE, 0x10325476, 0xC3D2E1F0)
    ensures Turns(s, w, 32) == State(0x52E31F60, 0xA9C84BEC, 0x816D15EC, 0x78448908, 0x3549A991)
  {
    assert Turns(s, w, 16) == State(0x42637E39, 0xB2E7A8BE, 0x4CBE52A1, 0xA180D207, 0xB867B2A8) by { Sixteen(s, w, 0); }
    Sixteen(s, w, 16);
  }

  lemma LongMiddle(s: State, w: seq<word>)
    requires LongWords(w) && Turns(s, w, 32) == State(0x52E31F60, 0xA9C84BEC, 0x816D15EC, 0x78448908, 0x3549A991)
    ensures Turns(s, w, 64) == State(0x513F9CA0, 0x2BFAF7A8, 0x10203537, 0xCD8952C4, 0xE7BDDD70)
  {
    assert Turns(s, w, 48) == State(0xC8A69090, 0xA2AD4F02, 0xB1BA8907, 0x26307A99, 0x58CFA558) by { Sixteen(s, w, 32);
        }
    Sixteen(s, w, 48);
  }

  lemma LongLast(s: State, w: seq<word>)
    requires LongWords(w) && Turns(s, w, 64) == State(0x513F9CA0, 0x2BFAF7A8, 0x10203537, 0xCD8952C4, 0xE7BDDD70)
    ensures Turns(s, w, 80) == State(0x8CE34517, 0xD3AD7C25, 0x6B4E1883, 0x74351CD2, 0x86838382)
  {
    Sixteen(s, w, 64);
  }

  lemma LongBlock(s: State, b: seq<byte>)
    requires |b| == 64 && s == State(0x67452301, 0xEFCDAB89, 0x98BADCFE, 0x10325476, 0xC3D2E1F0)
    requires BlockIs(b, 0x61626364, 0x62636465, 0x63646566, 0x64656667, 0x65666768, 0x66676869, 0x6768696A, 0x68696A6B,
      0x696A6B6C,
            0x6A6B6C6D, 0x6B6C6D6E, 0x6C6D6E6F, 0x6D6E6F70, 0x6E6F7071, 0x80000000, 0x00000000)
    ensures Compress(s, b) == State(0xF4286818, 0xC37B27AE, 0x0408F581, 0x84677148, 0x4A566572)
  {
    hide Words, BlockIs, Scheduled, LongWords, RowAt, Turn, Turns;
    var w := Words(b, 80);
    NoTurns(s, w);
    WordsScheduled(b);
    FirstRow(b, 0x61626364, 0x62636465, 0x63646566, 0x64656667, 0x65666768, 0x66676869, 0x6768696A, 0x68696A6B,
             0x696A6B6C, 0x6A6B6C6D, 0x6B6C6D6E, 0x6C6D6E6F, 0x6D6E6F70, 0x6E6F7071, 0x80000000, 0x00000000);
    LongSchedule(w);
    LongFirst(s, w);
    LongMiddle(s, w);
    LongLast(s, w);
  }

  lemma LongBytes(b: seq<byte>)
    requires |b| == 64
    requires b[0] == 0x61 && b[1] == 0x62 && b[2] == 0x63 && b[3] == 0x64 && b[4] == 0x62 && b[5] == 0x63 &&
      b[6] == 0x64 && b[7] == 0x65 && b[8] == 0x63 && b[9] == 0x64 && b[10] == 0x65 && b[11] == 0x66 &&
      b[12] == 0x64 && b[13] == 0x65 && b[14] == 0x66 && b[15] == 0x67 && b[16] == 0x65 && b[17] == 0x66 &&
      b[18] == 0x67 && b[19] == 0x68 && b[20] == 0x66 && b[21] == 0x67 && b[22] == 0x68 && b[23] == 0x69 &&
      b[24] == 0x67 && b[25] == 0x68 && b[26] == 0x69 && b[27] == 0x6A && b[28] == 0x68 && b[29] == 0x69 &&
      b[30] == 0x6A && b[31] == 0x6B && b[32] == 0x69 && b[33] == 0x6A && b[34] == 0x6B && b[35] == 0x6C &&
      b[36] == 0x6A && b[37] == 0x6B && b[38] == 0x6C && b[39] == 0x6D && b[40] == 0x6B && b[41] == 0x6C &&
      b[42] == 0x6D && b[43] == 0x6E && b[44] == 0x6C && b[45] == 0x6D && b[46] == 0x6E && b[47] == 0x6F &&
      b[48] == 0x6D && b[49] == 0x6E && b[50] == 0x6F && b[51] == 0x70 && b[52] == 0x6E && b[53] == 0x6F &&
      b[54] == 0x70 && b[55] == 0x71 && b[56] == 0x80
    requires forall i :: 57 <= i < 64 ==> b[i] == 0
    ensures BlockIs(b, 0x61626364, 0x62636465, 0x63646566, 0x64656667, 0x65666768, 0x66676869, 0x6768696A, 0x68696A6B,
      0x696A6B6C,
            0x6A6B6C6D, 0x6B6C6D6E, 0x6C6D6E6F, 0x6D6E6F70, 0x6E6F7071, 0x80000000, 0x00000000)
  {
    LongPacks();
    hide Pack4;
  }

  lemma LongPacks()
    ensures Pack4(0x61, 0x62, 0x63, 0x64) == 0x61626364 && Pack4(0x62, 0x63, 0x64, 0x65) == 0x62636465
    ensures Pack4(0x63, 0x64, 0x65, 0x66) == 0x63646566 && Pack4(0x64, 0x65, 0x66, 0x67) == 0x64656667
    ensures Pack4(0x65, 0x66, 0x67, 0x68) == 0x65666768 && Pack4(0x66, 0x67, 0x68, 0x69) == 0x66676869
    ensures Pack4(0x67, 0x68, 0x69, 0x6A) == 0x6768696A && Pack4(0x68, 0x69, 0x6A, 0x6B) == 0x68696A6B
    ensures Pack4(0x69, 0x6A, 0x6B, 0x6C) == 0x696A6B6C && Pack4(0x6A, 0x6B, 0x6C, 0x6D) == 0x6A6B6C6D
    ensures Pack4(0x6B, 0x6C, 0x6D, 0x6E) == 0x6B6C6D6E && Pack4(0x6C, 0x6D, 0x6E, 0x6F) == 0x6C6D6E6F
    ensures Pack4(0x6D, 0x6E, 0x6F, 0x70) == 0x6D6E6F70 && Pack4(0x6E, 0x6F, 0x70, 0x71) == 0x6E6F7071
    ensures Pack4(0x80, 0, 0, 0) == 0x80000000 && Pack4(0, 0, 0, 0) == 0x00000000
  {
  }

  // ---------- its second block ----------

  ghost predicate TailWords(w: seq<word>) {
    && RowAt(w, 0, 0x00000000, 0x00000000, 0x00000000, 0x00000000, 0x00000000, 0x00000000, 0x00000000, 0x00000000,
            0x00000000, 0x00000000, 0x00000000, 0x00000000, 0x00000000, 0x00000000, 0x00000000, 0x000001C0)
    && RowAt(w, 16, 0x00000000, 0x00000000, 0x00000380, 0x00000000, 0x00000000, 0x00000700, 0x00000000, 0x00000380,
            0x00000E00, 0x00000000, 0x00000000, 0x00001C00, 0x00000000, 0x00000D80, 0x00003800, 0x00000480)
    && RowAt(w, 32, 0x00000000, 0x00007000, 0x00000E00, 0x00003600, 0x0000E000, 0x00000E00, 0x00000000, 0x0001CE00,
            0x00000000, 0x0000D800, 0x00038000, 0x00004F00, 0x00000000, 0x00070E00, 0x0000EE00, 0x00037500)
    && RowAt(w, 48, 0x000E0000, 0x0000E000, 0x00003600, 0x001CEE00, 0x00000000, 0x000DF000, 0x00380000, 0x0004C600,
            0x0000E000, 0x0070EE00, 0x000EE000, 0x00369E00, 0x00E00000, 0x000ED600, 0x0000E000, 0x01CEA600)
    && RowAt(w, 64, 0x00000000, 0x00D80000, 0x0380E000, 0x004F0000, 0x00000000, 0x070E0000, 0x00EE0000, 0x03751C00,
            0x0E000000, 0x00E0E000, 0x00363800, 0x1CEE9000, 0x00000000, 0x0DF09000, 0x3800E000, 0x04C77400)
  }

  lemma TailSchedule(w: seq<word>)
    requires Scheduled(w)
    requires RowAt(w, 0, 0x00000000, 0x00000000, 0x00000000, 0x00000000, 0x00000000, 0x00000000, 0x00000000, 0x00000000,
            0x00000000, 0x00000000, 0x00000000, 0x00000000, 0x00000000, 0x00000000, 0x00000000, 0x000001C0)
    ensures TailWords(w)
  {
  }

  lemma TailFirst(s: State, w: seq<word>)
    requires TailWords(w) && Turns(s, w, 0) == State(0xF4286818, 0xC37B27AE, 0x0408F581, 0x84677148, 0x4A566572)
    ensures Turns(s, w, 32) == State(0x8A4AF384, 0x17986223, 0x028BEC42, 0xC90A6F97, 0xD7105B6B)
  {
    assert Turns(s, w, 16) == State(0xD9772360, 0x258B0BAA, 0x2898132A, 0xFFB35EEF, 0xD0E89E4B) by { Sixteen(s, w, 0); }
    Sixteen(s, w, 16);
  }

  lemma TailMiddle(s: State, w: seq<word>)
    requires TailWords(w) && Turns(s, w, 32) == State(0x8A4AF384, 0x17986223, 0x028BEC42, 0xC90A6F97, 0xD7105B6B)
    ensures Turns(s, w, 64) == State(0xD504902B, 0xF66D9BF4, 0x24D85327, 0xDEAAC406, 0xE996063D)
  {
    assert Turns(s, w, 48) == State(0x46F93B68, 0x7316056A, 0xB0F40CFA, 0xCF2BB5EB, 0x7B074F58) by { Sixteen(s, w, 32);
        }
    Sixteen(s, w, 48);
  }

  lemma TailLast(s: State, w: seq<word>)
    requires TailWords(w) && Turns(s, w, 64) == State(0xD504902B, 0xF66D9BF4, 0x24D85327, 0xDEAAC406, 0xE996063D)
    ensures Turns(s, w, 80) == State(0x906FD62C, 0x58C0AAC0, 0xB6A55520, 0x74E9B89D, 0x9AF00B7F)
  {
    Sixteen(s, w, 64);
  }

  lemma TailBlock(s: State, b: seq<byte>)
    requires |b| == 64 && s == State(0xF4286818, 0xC37B27AE, 0x0408F581, 0x84677148, 0x4A566572)
    requires BlockIs(b, 0x00000000, 0x00000000, 0x00000000, 0x00000000, 0x00000000, 0x00000000, 0x00000000, 0x00000000,
      0x00000000,
            0x00000000, 0x00000000, 0x00000000, 0x00000000, 0x00000000, 0x00000000, 0x000001C0)
    ensures Compress(s, b) == State(0x84983E44, 0x1C3BD26E, 0xBAAE4AA1, 0xF95129E5, 0xE54670F1)
  {
    hide Words, BlockIs, Scheduled, TailWords, RowAt, Turn, Turns;
    var w := Words(b, 80);
    NoTurns(s, w);
    WordsScheduled(b);
    FirstRow(b, 0x00000000, 0x00000000, 0x00000000, 0x00000000, 0x00000000, 0x00000000, 0x00000000, 0x00000000,
             0x00000000, 0x00000000, 0x00000000, 0x00000000, 0x00000000, 0x00000000, 0x00000000, 0x000001C0);
    TailSchedule(w);
    TailFirst(s, w);
    TailMiddle(s, w);
    TailLast(s, w);
  }

  lemma TailBytes(b: seq<byte>)
    requires |b| == 64
    requires b[62] == 0x01 && b[63] == 0xC0
    requires forall i :: 0 <= i < 62 ==> b[i] == 0
    ensures BlockIs(b, 0x00000000, 0x00000000, 0x00000000, 0x00000000, 0x00000000, 0x00000000, 0x00000000, 0x00000000,
      0x00000000,
            0x00000000, 0x00000000, 0x00000000, 0x00000000, 0x00000000, 0x00000000, 0x000001C0)
  {
    TailPacks();
    hide Pack4;
  }

  lemma TailPacks()
    ensures Pack4(0, 0, 0, 0) == 0x00000000 && Pack4(0, 0, 0x01, 0xC0) == 0x000001C0
  {
  }

  lemma LongLength()
    ensures Octet(1) == 0x01 && Octet(192) == 0xC0
  {
  }

  /** abcdbcdecdefdefgefghfghighijhijkijkljklmklmnlmnomnopnopq */
  function LongMessage(): (m: seq<byte>)
    ensures |m| == 56
  {
    [0x61, 0x62, 0x63, 0x64, 0x62, 0x63, 0x64, 0x65] + [0x63, 0x64, 0x65, 0x66, 0x64, 0x65, 0x66, 0x67] +
    [0x65, 0x66, 0x67, 0x68, 0x66, 0x67, 0x68, 0x69] + [0x67, 0x68, 0x69, 0x6A, 0x68, 0x69, 0x6A, 0x6B] +
    [0x69, 0x6A, 0x6B, 0x6C, 0x6A, 0x6B, 0x6C, 0x6D] + [0x6B, 0x6C, 0x6D, 0x6E, 0x6C, 0x6D, 0x6E, 0x6F] +
    [0x6D, 0x6E, 0x6F, 0x70, 0x6E, 0x6F, 0x70, 0x71]
  }

  lemma LongStart(m: seq<byte>)
    requires m == LongMessage()
    ensures |m| == 56
    ensures m[0] == 0x61 && m[1] == 0x62 && m[2] == 0x63 && m[3] == 0x64 && m[4] == 0x62 && m[5] == 0x63 &&
      m[6] == 0x64 && m[7] == 0x65 && m[8] == 0x63 && m[9] == 0x64 && m[10] == 0x65 && m[11] == 0x66 &&
      m[12] == 0x64 && m[13] == 0x65 && m[14] == 0x66 && m[15] == 0x67 && m[16] == 0x65 && m[17] == 0x66 &&
      m[18] == 0x67 && m[19] == 0x68 && m[20] == 0x66 && m[21] == 0x67 && m[22] == 0x68 && m[23] == 0x69 &&
      m[24] == 0x67 && m[25] == 0x68 && m[26] == 0x69 && m[27] == 0x6A && m[28] == 0x68 && m[29] == 0x69 &&
      m[30] == 0x6A && m[31] == 0x6B && m[32] == 0x69 && m[33] == 0x6A && m[34] == 0x6B && m[35] == 0x6C &&
      m[36] == 0x6A && m[37] == 0x6B && m[38] == 0x6C && m[39] == 0x6D && m[40] == 0x6B && m[41] == 0x6C &&
      m[42] == 0x6D && m[43] == 0x6E && m[44] == 0x6C && m[45] == 0x6D && m[46] == 0x6E && m[47] == 0x6F &&
      m[48] == 0x6D && m[49] == 0x6E && m[50] == 0x6F && m[51] == 0x70 && m[52] == 0x6E && m[53] == 0x6F &&
      m[54] == 0x70 && m[55] == 0x71
  {
  }

  /** The digest of its 56 bytes, for which the padding needs a second block. */
  lemma Long()
    ensures Hash(LongMessage()) == State(0x84983E44, 0x1C3BD26E, 0xBAAE4AA1, 0xF95129E5, 0xE54670F1)
  {
    hide Compress, Hash, Length8, BlockIs, Octet, LongMessage;
    var m := LongMessage();
    LongStart(m);
    TwoBlocks(m);
    SmallLength(448);
    LongLength();
    var b, c := m + [0x80] + Zeros(7), Zeros(56) + Length8(448);
    LongBytes(b);
    LongBlock(Start(), b);
    TailBytes(c);
    TailBlock(State(0xF4286818, 0xC37B27AE, 0x0408F581, 0x84677148, 0x4A566572), c);
  }
}
