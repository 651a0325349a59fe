/** HMAC-SHA1 computed on test case 2 of RFC 2202. */
module HmacVectors {
  import Arith
  import opened Octets
  import opened Sha1
  import opened Sha1Vectors
  import opened Hmac

  /** The digest of a block and a short rest. */
  lemma BlockAndRest(x: seq<byte>, t: seq<byte>)
    requires |x| == 64 && |t| <= 55
    ensures var b := t + [0x80] + Zeros(55 - |t|) + Length8(8 * (64 + |t|));
      |b| == 64 && Hash(x + t) == Compress(Compress(Start(), x), b)
  {
    hide Compress, Hash, Length8;
    var m := x + t;
    Arith.DivModUnique(|m|, 1, 64, |t|);
    PadInOne(m);
    assert m[0..64] == x && m[64..] == t;
    AbsorbOne(m);
  }

  lemma AbsorbOne(m: seq<byte>)
    requires |m| >= 64
    ensures Absorb(m, 1) == Compress(Start(), m[0..64])
  {
    hide Compress;
    assert Absorb(m, 0) == Start();
  }

  // ---------- the inner key block ----------

  ghost predicate InnerWords(w: seq<word>) {
    && RowAt(w, 0, 0x7C535053, 0x36363636, 0x36363636, 0x36363636, 0x36363636, 0x36363636, 0x36363636, 0x36363636,
            0x36363636, 0x36363636, 0x36363636, 0x36363636, 0x36363636, 0x36363636, 0x36363636, 0x36363636)
    && RowAt(w, 16, 0x94CACCCA, 0x00000000, 0x00000000, 0x45F9F5F9, 0x6C6C6C6C, 0x6C6C6C6C, 0xE79F879E, 0xB4B4B4B4,
            0xF14D414D, 0xCF3F0F3D, 0x69696969, 0x69696969, 0x46A6C6A3, 0x0A0A0A0A, 0x58142816, 0x88488843)
    && RowAt(w, 32, 0xDF1B0F1A, 0xA5A5A5A5, 0x1A9B1A8D, 0x3FCFFFCD, 0xD1E111E8, 0x909390BF, 0xE2122210, 0x44444444,
            0xAF596F03, 0xC3C3C3C3, 0xE221E206, 0xE7EBE75B, 0x1920793C, 0xE1E1E1E1, 0x05EDC48F, 0xE112213C)
    && RowAt(w, 48, 0x167136EB, 0xB888BA48, 0x909390BF, 0xBD8D7D84, 0x24B7E119, 0x4B4B4B4B, 0xEA57E831, 0x84448F44,
            0x2085E14A, 0xEDEEEDC2, 0xDFAD0983, 0x360534E9, 0xAB2962D1, 0x282B042B, 0x9F9C5D79, 0xEDEEEDC2)
    && RowAt(w, 64, 0x1C98866B, 0xEEEEEEEE, 0x0CCF2BCF, 0xB8B7089B, 0x164F0A2F, 0xD7D7D7D7, 0xDBF2B933, 0x24170AD7,
            0x68CF72EA, 0xDDEF1DED, 0xB8B89494, 0x9CAC9567, 0xFE2A50D5, 0x55555555, 0x88B5EE8D, 0xB27AB25D)
  }

  lemma InnerSchedule(w: seq<word>)
    requires Scheduled(w)
    requires RowAt(w, 0, 0x7C535053, 0x36363636, 0x36363636, 0x36363636, 0x36363636, 0x36363636, 0x36363636, 0x36363636,
            0x36363636, 0x36363636, 0x36363636, 0x36363636, 0x36363636, 0x36363636, 0x36363636, 0x36363636)
    ensures InnerWords(w)
  {
  }

  lemma InnerFirst(s: State, w: seq<word>)
    requires InnerWords(w) && Turns(s, w, 0) == State(0x67452301, 0xEFCDAB89, 0x98BADCFE, 0x10325476, 0xC3D2E1F0)
    ensures Turns(s, w, 32) == State(0x0C2F2726, 0xB08CDA1C, 0x315CD561, 0x23E29BDD, 0xED70CCAC)
  {
    assert Turns(s, w, 16) == State(0x6C301692, 0x579D7F38, 0xDB9D8CB4, 0x61E12473, 0xED625512) by { Sixteen(s, w, 0); }
    Sixteen(s, w, 16);
  }

  lemma InnerMiddle(s: State, w: seq<word>)
    requires InnerWords(w) && Turns(s, w, 32) == State(0x0C2F2726, 0xB08CDA1C, 0x315CD561, 0x23E29BDD, 0xED70CCAC)
    ensures Turns(s, w, 64) == State(0xE231FDD2, 0x985CE8A7, 0x94A1CDD0, 0x3CA86E86, 0x8AD04FB6)
  {
    assert Turns(s, w, 48) == State(0xE6DD707E, 0xD3B4BA55, 0x86199B16, 0x3AB7D9D8, 0x55D1DA2F) by { Sixteen(s, w, 32);
        }
    Sixteen(s, w, 48);
  }

  lemma InnerLast(s: State, w: seq<word>)
    requires InnerWords(w) && Turns(s, w, 64) == State(0xE231FDD2, 0x985CE8A7, 0x94A1CDD0, 0x3CA86E86, 0x8AD04FB6)
    ensures Turns(s, w, 80) == State(0xFB086BA6, 0x4F5D6C7A, 0xFC99DCE6, 0x188E117F, 0xE629D79E)
  {
    Sixteen(s, w, 64);
  }

  lemma InnerBlock(s: State, b: seq<byte>)
    requires |b| == 64 && s == State(0x67452301, 0xEFCDAB89, 0x98BADCFE, 0x10325476, 0xC3D2E1F0)
    requires BlockIs(b, 0x7C535053, 0x36363636, 0x36363636, 0x36363636, 0x36363636, 0x36363636, 0x36363636, 0x36363636,
      0x36363636,
            0x36363636, 0x36363636, 0x36363636, 0x36363636, 0x36363636, 0x36363636, 0x36363636)
    ensures Compress(s, b) == State(0x624D8EA7, 0x3F2B1803, 0x9554B9E4, 0x28C065F5, 0xA9FCB98E)
  {
    hide Words, BlockIs, Scheduled, InnerWords, RowAt, Turn, Turns;
    var w := Words(b, 80);
    NoTurns(s, w);
    WordsScheduled(b);
    FirstRow(b, 0x7C535053, 0x36363636, 0x36363636, 0x36363636, 0x36363636, 0x36363636, 0x36363636, 0x36363636,
             0x36363636, 0x36363636, 0x36363636, 0x36363636, 0x36363636, 0x36363636, 0x36363636, 0x36363636);
    InnerSchedule(w);
    InnerFirst(s, w);
    InnerMiddle(s, w);
    InnerLast(s, w);
  }

  lemma InnerBytes(b: seq<byte>)
    requires |b| == 64
    requires b[0] == 0x7C && b[1] == 0x53 && b[2] == 0x50 && b[3] == 0x53
    requires forall i :: 4 <= i < 64 ==> b[i] == 0x36
    ensures BlockIs(b, 0x7C535053, 0x36363636, 0x36363636, 0x36363636, 0x36363636, 0x36363636, 0x36363636, 0x36363636,
      0x36363636,
            0x36363636, 0x36363636, 0x36363636, 0x36363636, 0x36363636, 0x36363636, 0x36363636)
  {
    InnerPacks();
    hide Pack4;
  }

  lemma InnerPacks()
    ensures Pack4(0x7C, 0x53, 0x50, 0x53) == 0x7C535053 && Pack4(0x36, 0x36, 0x36, 0x36) == 0x36363636
  {
  }

  // ---------- the text ----------

  ghost predicate TextWords(w: seq<word>) {
    && RowAt(w, 0, 0x77686174, 0x20646F20, 0x79612077, 0x616E7420, 0x666F7220, 0x6E6F7468, 0x696E673F, 0x80000000,
            0x00000000, 0x00000000, 0x00000000, 0x00000000, 0x00000000, 0x00000000, 0x00000000, 0x000002E0)
    && RowAt(w, 16, 0x1C128206, 0x82143600, 0x3E1CA16E, 0x2627049C, 0x1A2A463F, 0xA0E7AA0D, 0x9E92C746, 0x345489BF,
            0x79EA5017, 0x390DE28C, 0x149051A2, 0xBF9AA916, 0x464F4966, 0x68EFF29F, 0x7A35D8AC, 0xE01FE873)
    && RowAt(w, 32, 0x661703C0, 0xCE161179, 0xA172BD01, 0xBE9A088E, 0x19C3B2CC, 0xBA5CD858, 0x47AE8EE6, 0xE90A6319,
            0x6263B45B, 0x1E5FA80A, 0x354F8DB8, 0x1719CEB8, 0x77CD1618, 0x0FC69E18, 0x992B3664, 0x619D1817)
    && RowAt(w, 48, 0x55812905, 0xEFF10F33, 0xD8C734C5, 0x8CBC6ED6, 0x8CA24A03, 0x08AE2339, 0x60B4C41E, 0x34D5320E,
            0x140667BE, 0x0C075B3F, 0x5D213AD7, 0x00CAB391, 0xDC866280, 0x77A93FC2, 0x59A8D1DD, 0xCC7E8F54)
    && RowAt(w, 64, 0xDDD28B79, 0x6DC5D60E, 0x8A75968B, 0xB214EA0E, 0xBAAA7526, 0x834F70FD, 0x3E1D30E7, 0x9C0D2686,
            0x2F754DDA, 0xBE2A1C8E, 0x2FBFD0B5, 0xD404570F, 0x035DB5EB, 0x2E4E21BC, 0xDCC67A98, 0x7DD7946E)
  }

  lemma TextSchedule(w: seq<word>)
    requires Scheduled(w)
    requires RowAt(w, 0, 0x77686174, 0x20646F20, 0x79612077, 0x616E7420, 0x666F7220, 0x6E6F7468, 0x696E673F, 0x80000000,
            0x00000000, 0x00000000, 0x00000000, 0x00000000, 0x00000000, 0x00000000, 0x00000000, 0x000002E0)
    ensures TextWords(w)
  {
  }

  lemma TextFirst(s: State, w: seq<word>)
    requires TextWords(w) && Turns(s, w, 0) == State(0x624D8EA7, 0x3F2B1803, 0x9554B9E4, 0x28C065F5, 0xA9FCB98E)
    ensures Turns(s, w, 32) == State(0xC7719700, 0x1B1D78CA, 0x09AAD6E3, 0x2F73E26B, 0x2DEB05AB)
  {
    assert Turns(s, w, 16) == State(0xA12B746A, 0x6755BF04, 0x8D7768F0, 0xE5AE6791, 0xA333414B) by { Sixteen(s, w, 0); }
    Sixteen(s, w, 16);
  }

  lemma TextMiddle(s: State, w: seq<word>)
    requires TextWords(w) && Turns(s, w, 32) == State(0xC7719700, 0x1B1D78CA, 0x09AAD6E3, 0x2F73E26B, 0x2DEB05AB)
    ensures Turns(s, w, 64) == State(0x5C633025, 0xE824555E, 0xBEB07948, 0xBB29DC4B, 0xFD46D861)
  {
    assert Turns(s, w, 48) == State(0xF783CC7F, 0xFB36762F, 0xC507BD2F, 0x61544C0D, 0x406394E5) by { Sixteen(s, w, 32);
        }
    Sixteen(s, w, 48);
  }

  lemma TextLast(s: State, w: seq<word>)
    requires TextWords(w) && Turns(s, w, 64) == State(0x5C633025, 0xE824555E, 0xBEB07948, 0xBB29DC4B, 0xFD46D861)
    ensures Turns(s, w, 80) == State(0x3637839D, 0xFBCE0454, 0x0E3828F8, 0x660321A1, 0xC20C2536)
  {
    Sixteen(s, w, 64);
  }

  lemma TextBlock(s: State, b: seq<byte>)
    requires |b| == 64 && s == State(0x624D8EA7, 0x3F2B1803, 0x9554B9E4, 0x28C065F5, 0xA9FCB98E)
    requires BlockIs(b, 0x77686174, 0x20646F20, 0x79612077, 0x616E7420, 0x666F7220, 0x6E6F7468, 0x696E673F, 0x80000000,
      0x00000000,
            0x00000000, 0x00000000, 0x00000000, 0x00000000, 0x00000000, 0x00000000, 0x000002E0)
    ensures Compress(s, b) == State(0x98851244, 0x3AF91C57, 0xA38CE2DC, 0x8EC38796, 0x6C08DEC4)
  {
    hide Words, BlockIs, Scheduled, TextWords, RowAt, Turn, Turns;
    var w := Words(b, 80);
    NoTurns(s, w);
    WordsScheduled(b);
    FirstRow(b, 0x77686174, 0x20646F20, 0x79612077, 0x616E7420, 0x666F7220, 0x6E6F7468, 0x696E673F, 0x80000000,
             0x00000000, 0x00000000, 0x00000000, 0x00000000, 0x00000000, 0x00000000, 0x00000000, 0x000002E0);
    TextSchedule(w);
    TextFirst(s, w);
    TextMiddle(s, w);
    TextLast(s, w);
  }

  lemma TextBytes(b: seq<byte>)
    requires |b| == 64
    requires b[0] == 0x77 && b[1] == 0x68 && b[2] == 0x61 && b[3] == 0x74 && b[4] == 0x20 && b[5] == 0x64 &&
      b[6] == 0x6F && b[7] == 0x20 && b[8] == 0x79 && b[9] == 0x61 && b[10] == 0x20 && b[11] == 0x77 &&
      b[12] == 0x61 && b[13] == 0x6E && b[14] == 0x74 && b[15] == 0x20 && b[16] == 0x66 && b[17] == 0x6F &&
      b[18] == 0x72 && b[19] == 0x20 && b[20] == 0x6E && b[21] == 0x6F && b[22] == 0x74 && b[23] == 0x68 &&
      b[24] == 0x69 && b[25] == 0x6E && b[26] == 0x67 && b[27] == 0x3F && b[28] == 0x80 && b[62] == 0x02 &&
      b[63] == 0xE0
    requires forall i :: 29 <= i < 62 ==> b[i] == 0
    ensures BlockIs(b, 0x77686174, 0x20646F20, 0x79612077, 0x616E7420, 0x666F7220, 0x6E6F7468, 0x696E673F, 0x80000000,
      0x00000000,
            0x00000000, 0x00000000, 0x00000000, 0x00000000, 0x00000000, 0x00000000, 0x000002E0)
  {
    TextPacks();
    hide Pack4;
  }

  lemma TextPacks()
    ensures Pack4(0x77, 0x68, 0x61, 0x74) == 0x77686174 && Pack4(0x20, 0x64, 0x6F, 0x20) == 0x20646F20
    ensures Pack4(0x79, 0x61, 0x20, 0x77) == 0x79612077 && Pack4(0x61, 0x6E, 0x74, 0x20) == 0x616E7420
    ensures Pack4(0x66, 0x6F, 0x72, 0x20) == 0x666F7220 && Pack4(0x6E, 0x6F, 0x74, 0x68) == 0x6E6F7468
    ensures Pack4(0x69, 0x6E, 0x67, 0x3F) == 0x696E673F && Pack4(0x80, 0, 0, 0) == 0x80000000
    ensures Pack4(0, 0, 0, 0) == 0x00000000 && Pack4(0, 0, 0x02, 0xE0) == 0x000002E0
  {
  }

  // ---------- the outer key block ----------

  ghost predicate OuterWords(w: seq<word>) {
    && RowAt(w, 0, 0x16393A39, 0x5C5C5C5C, 0x5C5C5C5C, 0x5C5C5C5C, 0x5C5C5C5C, 0x5C5C5C5C, 0x5C5C5C5C, 0x5C5C5C5C,
            0x5C5C5C5C, 0x5C5C5C5C, 0x5C5C5C5C, 0x5C5C5C5C, 0x5C5C5C5C, 0x5C5C5C5C, 0x5C5C5C5C, 0x5C5C5C5C)
    && RowAt(w, 16, 0x94CACCCA, 0x00000000, 0x00000000, 0x912D212D, 0xB8B8B8B8, 0xB8B8B8B8, 0x9AE2FAE3, 0xC9C9C9C9,
            0x58E4E8E4, 0x35C5F5C7, 0x93939393, 0x93939393, 0x1AFA9AFF, 0x56565656, 0x83CFF3CD, 0x1EDE1ED5)
    && RowAt(w, 32, 0x34F0E4F1, 0x4E4E4E4E, 0x6BEA6BFC, 0x1DEDDDEF, 0xEDDD2DD4, 0x999A99B6, 0xB848784A, 0x1E1E1E1E,
            0xCC3A0C60, 0xA0A0A0A0, 0xF93AF91D, 0x28242894, 0xA891C88D, 0x50505050, 0x4EA68FC4, 0xCC3F0C11)
    && RowAt(w, 48, 0x86E1A67B, 0x7B4B798B, 0x66656649, 0x5565956C, 0x0C9FC931, 0x63636363, 0xDF62DD04, 0xFC3CF73C,
            0xA10460CB, 0x595A5976, 0x97E541CB, 0x182B1AC7, 0x67E5AE1D, 0xD1D2FDD2, 0x1E1DDCF8, 0x595A5976)
    && RowAt(w, 64, 0x20A4BA57, 0xD2D2D2D2, 0x488B6F8B, 0x1D12AD3E, 0xCD94D1F4, 0x0C0C0C0C, 0xFAD39812, 0x63504D90,
            0x34932EB6, 0xD2E012E2, 0xB7B79B9B, 0xC0F0C93B, 0xCD1963E6, 0x66666666, 0x09346F0C, 0x4B834BA4)
  }

  lemma OuterSchedule(w: seq<word>)
    requires Scheduled(w)
    requires RowAt(w, 0, 0x16393A39, 0x5C5C5C5C, 0x5C5C5C5C, 0x5C5C5C5C, 0x5C5C5C5C, 0x5C5C5C5C, 0x5C5C5C5C, 0x5C5C5C5C,
            0x5C5C5C5C, 0x5C5C5C5C, 0x5C5C5C5C, 0x5C5C5C5C, 0x5C5C5C5C, 0x5C5C5C5C, 0x5C5C5C5C, 0x5C5C5C5C)
    ensures OuterWords(w)
  {
  }

  lemma OuterFirst(s: State, w: seq<word>)
    requires OuterWords(w) && Turns(s, w, 0) == State(0x67452301, 0xEFCDAB89, 0x98BADCFE, 0x10325476, 0xC3D2E1F0)
    ensures Turns(s, w, 32) == State(0xEBC09A0D, 0xE5A4F04E, 0x672569EE, 0x684AE099, 0xD692A097)
  {
    assert Turns(s, w, 16) == State(0x373946EB, 0x892FC8F9, 0xC6551936, 0x8A847EB1, 0x4C8D4AA6) by { Sixteen(s, w, 0); }
    Sixteen(s, w, 16);
  }

  lemma OuterMiddle(s: State, w: seq<word>)
    requires OuterWords(w) && Turns(s, w, 32) == State(0xEBC09A0D, 0xE5A4F04E, 0x672569EE, 0x684AE099, 0xD692A097)
    ensures Turns(s, w, 64) == State(0xE08C1F8E, 0x7086AE3F, 0xEA81E93E, 0x69719B10, 0x92A3AEA5)
  {
    assert Turns(s, w, 48) == State(0xB227C5ED, 0xDE5586A4, 0x39D09A64, 0xA874C2EF, 0x5B433B27) by { Sixteen(s, w, 32);
        }
    Sixteen(s, w, 48);
  }

  lemma OuterLast(s: State, w: seq<word>)
    requires OuterWords(w) && Turns(s, w, 64) == State(0xE08C1F8E, 0x7086AE3F, 0xEA81E93E, 0x69719B10, 0x92A3AEA5)
    ensures Turns(s, w, 80) == State(0xB9431429, 0x05386518, 0x5F74AE07, 0x7E19A9BC, 0x64386C45)
  {
    Sixteen(s, w, 64);
  }

  lemma OuterBlock(s: State, b: seq<byte>)
    requires |b| == 64 && s == State(0x67452301, 0xEFCDAB89, 0x98BADCFE, 0x10325476, 0xC3D2E1F0)
    requires BlockIs(b, 0x16393A39, 0x5C5C5C5C, 0x5C5C5C5C, 0x5C5C5C5C, 0x5C5C5C5C, 0x5C5C5C5C, 0x5C5C5C5C, 0x5C5C5C5C,
      0x5C5C5C5C,
            0x5C5C5C5C, 0x5C5C5C5C, 0x5C5C5C5C, 0x5C5C5C5C, 0x5C5C5C5C, 0x5C5C5C5C, 0x5C5C5C5C)
    ensures Compress(s, b) == State(0x2088372A, 0xF50610A1, 0xF82F8B05, 0x8E4BFE32, 0x280B4E35)
  {
    hide Words, BlockIs, Scheduled, OuterWords, RowAt, Turn, Turns;
    var w := Words(b, 80);
    NoTurns(s, w);
    WordsScheduled(b);
    FirstRow(b, 0x16393A39, 0x5C5C5C5C, 0x5C5C5C5C, 0x5C5C5C5C, 0x5C5C5C5C, 0x5C5C5C5C, 0x5C5C5C5C, 0x5C5C5C5C,
             0x5C5C5C5C, 0x5C5C5C5C, 0x5C5C5C5C, 0x5C5C5C5C, 0x5C5C5C5C, 0x5C5C5C5C, 0x5C5C5C5C, 0x5C5C5C5C);
    OuterSchedule(w);
    OuterFirst(s, w);
    OuterMiddle(s, w);
    OuterLast(s, w);
  }

  lemma OuterBytes(b: seq<byte>)
    requires |b| == 64
    requires b[0] == 0x16 && b[1] == 0x39 && b[2] == 0x3A && b[3] == 0x39
    requires forall i :: 4 <= i < 64 ==> b[i] == 0x5C
    ensures BlockIs(b, 0x16393A39, 0x5C5C5C5C, 0x5C5C5C5C, 0x5C5C5C5C, 0x5C5C5C5C, 0x5C5C5C5C, 0x5C5C5C5C, 0x5C5C5C5C,
      0x5C5C5C5C,
            0x5C5C5C5C, 0x5C5C5C5C, 0x5C5C5C5C, 0x5C5C5C5C, 0x5C5C5C5C, 0x5C5C5C5C, 0x5C5C5C5C)
  {
    OuterPacks();
    hide Pack4;
  }

  lemma OuterPacks()
    ensures Pack4(0x16, 0x39, 0x3A, 0x39) == 0x16393A39 && Pack4(0x5C, 0x5C, 0x5C, 0x5C) == 0x5C5C5C5C
  {
  }

  // ---------- the inner digest ----------

  ghost predicate CodeWords(w: seq<word>) {
    && RowAt(w, 0, 0x98851244, 0x3AF91C57, 0xA38CE2DC, 0x8EC38796, 0x6C08DEC4, 0x80000000, 0x00000000, 0x00000000,
            0x00000000, 0x00000000, 0x00000000, 0x00000000, 0x00000000, 0x00000000, 0x00000000, 0x000002A0)
    && RowAt(w, 16, 0x7613E130, 0x68753783, 0x9F087D71, 0xF1A0CD4C, 0x08FBD28E, 0x3E10FAE2, 0xE3419A99, 0x11F7A05C,
            0x900637A4, 0x16695A35, 0x1DFFBA5B, 0xC34DF5D0, 0x3D251176, 0x47DE8432, 0xAC3F1CF2, 0x894F0812)
    && RowAt(w, 32, 0x7D865FAE, 0x47077810, 0x06863B6C, 0xE2F73BA0, 0x233042E3, 0xDD7FCBC0, 0x7B1F14DE, 0x5BC36131,
            0x5A003322, 0xD2798657, 0xFB3FE2E0, 0x78C8F2C0, 0xC0A79260, 0xD1A34A01, 0xA4DD4A85, 0xAA5906A6)
    && RowAt(w, 48, 0xE1463BC3, 0xA6A91EC5, 0xE9A13B92, 0x4C0C72C7, 0x7C43B530, 0x7D7DB6C5, 0x939C3F7D, 0xBF40A9E0,
            0x7A08B988, 0x3F08AA5F, 0xDAF3C5E4, 0x3EDEE71D, 0x4E638F14, 0xB8E87F0D, 0xD1B3524D, 0xFBA67D2F)
    && RowAt(w, 64, 0x940F8DA9, 0x083D2820, 0x696E6CD3, 0x37415D6D, 0x53025AF3, 0x277619F6, 0x1ECD13AA, 0x51D848C6,
            0x2705D066, 0x2E4CED90, 0x584CDDCB, 0x2CE42A37, 0xC53CD475, 0x78E98C3E, 0xEF2BCCF2, 0xCEFF9378)
  }

  lemma CodeSchedule(w: seq<word>)
    requires Scheduled(w)
    requires RowAt(w, 0, 0x98851244, 0x3AF91C57, 0xA38CE2DC, 0x8EC38796, 0x6C08DEC4, 0x80000000, 0x00000000, 0x00000000,
            0x00000000, 0x00000000, 0x00000000, 0x00000000, 0x00000000, 0x00000000, 0x00000000, 0x000002A0)
    ensures CodeWords(w)
  {
  }

  lemma CodeFirst(s: State, w: seq<word>)
    requires CodeWords(w) && Turns(s, w, 0) == State(0x2088372A, 0xF50610A1, 0xF82F8B05, 0x8E4BFE32, 0x280B4E35)
    ensures Turns(s, w, 32) == State(0x98ECDA1A, 0xC2D0F752, 0x9846F2F1, 0x61D091D2, 0x2D4BE5B6)
  {
    assert Turns(s, w, 16) == State(0x0915DDCE, 0xE7F5BB49, 0xC60A0266, 0x18AB2FF0, 0x6CEBBF4D) by { Sixteen(s, w, 0); }
    Sixteen(s, w, 16);
  }

  lemma CodeMiddle(s: State, w: seq<word>)
    requires CodeWords(w) && Turns(s, w, 32) == State(0x98ECDA1A, 0xC2D0F752, 0x9846F2F1, 0x61D091D2, 0x2D4BE5B6)
    ensures Turns(s, w, 64) == State(0xCF69B90C, 0x88C8C156, 0x3C6521B7, 0x4C8FB7A3, 0x5C676F55)
  {
    assert Turns(s, w, 48) == State(0xBE5E2CE8, 0x7E450BFD, 0xF293CB68, 0x07CCE79A, 0x1C6D9281) by { Sixteen(s, w, 32);
        }
    Sixteen(s, w, 48);
  }

  lemma CodeLast(s: State, w: seq<word>)
    requires CodeWords(w) && Turns(s, w, 64) == State(0xCF69B90C, 0x88C8C156, 0x3C6521B7, 0x4C8FB7A3, 0x5C676F55)
    ensures Turns(s, w, 80) == State(0xCF74A840, 0xF0E51F01, 0xDA448BD0, 0x6338E16A, 0xFD8F2E44)
  {
    Sixteen(s, w, 64);
  }

  lemma CodeBlock(s: State, b: seq<byte>)
    requires |b| == 64 && s == State(0x2088372A, 0xF50610A1, 0xF82F8B05, 0x8E4BFE32, 0x280B4E35)
    requires BlockIs(b, 0x98851244, 0x3AF91C57, 0xA38CE2DC, 0x8EC38796, 0x6C08DEC4, 0x80000000, 0x00000000, 0x00000000,
      0x00000000,
            0x00000000, 0x00000000, 0x00000000, 0x00000000, 0x00000000, 0x00000000, 0x000002A0)
    ensures Compress(s, b) == State(0xEFFCDF6A, 0xE5EB2FA2, 0xD27416D5, 0xF184DF9C, 0x259A7C79)
  {
    hide Words, BlockIs, Scheduled, CodeWords, RowAt, Turn, Turns;
    var w := Words(b, 80);
    NoTurns(s, w);
    WordsScheduled(b);
    FirstRow(b, 0x98851244, 0x3AF91C57, 0xA38CE2DC, 0x8EC38796, 0x6C08DEC4, 0x80000000, 0x00000000, 0x00000000,
             0x00000000, 0x00000000, 0x00000000, 0x00000000, 0x00000000, 0x00000000, 0x00000000, 0x000002A0);
    CodeSchedule(w);
    CodeFirst(s, w);
    CodeMiddle(s, w);
    CodeLast(s, w);
  }

  lemma CodeBytes(b: seq<byte>)
    requires |b| == 64
    requires b[0] == 0x98 && b[1] == 0x85 && b[2] == 0x12 && b[3] == 0x44 && b[4] == 0x3A && b[5] == 0xF9 &&
      b[6] == 0x1C && b[7] == 0x57 && b[8] == 0xA3 && b[9] == 0x8C && b[10] == 0xE2 && b[11] == 0xDC &&
      b[12] == 0x8E && b[13] == 0xC3 && b[14] == 0x87 && b[15] == 0x96 && b[16] == 0x6C && b[17] == 0x08 &&
      b[18] == 0xDE && b[19] == 0xC4 && b[20] == 0x80 && b[62] == 0x02 && b[63] == 0xA0
    requires forall i :: 21 <= i < 62 ==> b[i] == 0
    ensures BlockIs(b, 0x98851244, 0x3AF91C57, 0xA38CE2DC, 0x8EC38796, 0x6C08DEC4, 0x80000000, 0x00000000, 0x00000000,
      0x00000000,
            0x00000000, 0x00000000, 0x00000000, 0x00000000, 0x00000000, 0x00000000, 0x000002A0)
  {
    CodePacks();
    hide Pack4;
  }

  lemma CodePacks()
    ensures Pack4(0x98, 0x85, 0x12, 0x44) == 0x98851244 && Pack4(0x3A, 0xF9, 0x1C, 0x57) == 0x3AF91C57
    ensures Pack4(0xA3, 0x8C, 0xE2, 0xDC) == 0xA38CE2DC && Pack4(0x8E, 0xC3, 0x87, 0x96) == 0x8EC38796
    ensures Pack4(0x6C, 0x08, 0xDE, 0xC4) == 0x6C08DEC4 && Pack4(0x80, 0, 0, 0) == 0x80000000
    ensures Pack4(0, 0, 0, 0) == 0x00000000 && Pack4(0, 0, 0x02, 0xA0) == 0x000002A0
  {
  }

  // ---------- the code ----------

  function Key(): seq<byte> { [0x4A, 0x65, 0x66, 0x65] }

  /** what do ya want for nothing? */
  function Question(): (m: seq<byte>)
    ensures |m| == 28
  {
    [0x77, 0x68, 0x61, 0x74] + [0x20, 0x64, 0x6F, 0x20] + [0x79, 0x61, 0x20, 0x77] + [0x61, 0x6E, 0x74, 0x20] +
    [0x66, 0x6F, 0x72, 0x20] + [0x6E, 0x6F, 0x74, 0x68] + [0x69, 0x6E, 0x67, 0x3F]
  }

  lemma QuestionBytes(m: seq<byte>)
    requires m == Question()
    ensures |m| == 28
    ensures m[0] == 0x77 && m[1] == 0x68 && m[2] == 0x61 && m[3] == 0x74 && m[4] == 0x20 && m[5] == 0x64 &&
      m[6] == 0x6F && m[7] == 0x20 && m[8] == 0x79 && m[9] == 0x61 && m[10] == 0x20 && m[11] == 0x77 &&
      m[12] == 0x61 && m[13] == 0x6E && m[14] == 0x74 && m[15] == 0x20 && m[16] == 0x66 && m[17] == 0x6F &&
      m[18] == 0x72 && m[19] == 0x20 && m[20] == 0x6E && m[21] == 0x6F && m[22] == 0x74 && m[23] == 0x68 &&
      m[24] == 0x69 && m[25] == 0x6E && m[26] == 0x67 && m[27] == 0x3F
  {
  }

  lemma DigestOf(s: State, x: seq<byte>)
    requires |x| == 20 && x[..4] == WordBytes(s.a) && x[4..8] == WordBytes(s.b) && x[8..12] == WordBytes(s.c)
    requires x[12..16] == WordBytes(s.d) && x[16..] == WordBytes(s.e)
    ensures DigestBytes(s) == x
  {
    hide WordBytes;
  }

  lemma Codes()
    ensures Octet(2) == 0x02 && Octet(0xE0) == 0xE0 && Octet(0xA0) == 0xA0
  {
  }

  /** The key block with c added to every byte. */
  lemma KeyBytes(c: byte)
    ensures var b := XorAll(KeyBlock(Key()), c);
      && b[0] == 0x4A ^ c && b[1] == 0x65 ^ c && b[2] == 0x66 ^ c && b[3] == 0x65 ^ c
      && forall i :: 4 <= i < 64 ==> b[i] == c
  {
    var k := KeyBlock(Key());
    assert k[0] == 0x4A && k[1] == 0x65 && k[2] == 0x66 && k[3] == 0x65;
    XbZero(c);
    hide KeyBlock;
  }

  lemma InnerDigest()
    ensures WordBytes(0x98851244) == [0x98, 0x85, 0x12, 0x44]
    ensures WordBytes(0x3AF91C57) == [0x3A, 0xF9, 0x1C, 0x57]
    ensures WordBytes(0xA38CE2DC) == [0xA3, 0x8C, 0xE2, 0xDC]
    ensures WordBytes(0x8EC38796) == [0x8E, 0xC3, 0x87, 0x96]
    ensures WordBytes(0x6C08DEC4) == [0x6C, 0x08, 0xDE, 0xC4]
  {
  }

  lemma OuterDigest()
    ensures WordBytes(0xEFFCDF6A) == [0xEF, 0xFC, 0xDF, 0x6A]
    ensures WordBytes(0xE5EB2FA2) == [0xE5, 0xEB, 0x2F, 0xA2]
    ensures WordBytes(0xD27416D5) == [0xD2, 0x74, 0x16, 0xD5]
    ensures WordBytes(0xF184DF9C) == [0xF1, 0x84, 0xDF, 0x9C]
    ensures WordBytes(0x259A7C79) == [0x25, 0x9A, 0x7C, 0x79]
  {
  }

  function InnerCode(): (d: seq<byte>)
    ensures |d| == 20
  {
    [0x98, 0x85, 0x12, 0x44] + [0x3A, 0xF9, 0x1C, 0x57] + [0xA3, 0x8C, 0xE2, 0xDC] + [0x8E, 0xC3, 0x87, 0x96] +
    [0x6C, 0x08, 0xDE, 0xC4]
  }

  function OuterCode(): (d: seq<byte>)
    ensures |d| == 20
  {
    [0xEF, 0xFC, 0xDF, 0x6A] + [0xE5, 0xEB, 0x2F, 0xA2] + [0xD2, 0x74, 0x16, 0xD5] + [0xF1, 0x84, 0xDF, 0x9C] +
    [0x25, 0x9A, 0x7C, 0x79]
  }

  lemma InnerHash()
    ensures DigestBytes(Hash(XorAll(KeyBlock(Key()), 0x36) + Question())) == InnerCode()
  {
    hide Compress, Hash, Length8, BlockIs, Octet, Question, XorAll, WordBytes;
    var x, t := XorAll(KeyBlock(Key()), 0x36), Question();
    KeyBytes(0x36);
    InnerBytes(x);
    InnerBlock(Start(), x);
    BlockAndRest(x, t);
    SmallLength(736);
    Codes();
    NoBits();
    QuestionBytes(t);
    var b := t + [0x80] + Zeros(27) + Length8(736);
    TextBytes(b);
    TextBlock(State(0x624D8EA7, 0x3F2B1803, 0x9554B9E4, 0x28C065F5, 0xA9FCB98E), b);
    InnerDigest();
    DigestOf(State(0x98851244, 0x3AF91C57, 0xA38CE2DC, 0x8EC38796, 0x6C08DEC4), InnerCode());
  }

  lemma OuterHash()
    ensures DigestBytes(Hash(XorAll(KeyBlock(Key()), 0x5C) + InnerCode())) == OuterCode()
  {
    hide Compress, Hash, Length8, BlockIs, Octet, XorAll, WordBytes;
    var x, t := XorAll(KeyBlock(Key()), 0x5C), InnerCode();
    KeyBytes(0x5C);
    OuterBytes(x);
    OuterBlock(Start(), x);
    BlockAndRest(x, t);
    SmallLength(672);
    Codes();
    NoBits();
    var b := t + [0x80] + Zeros(35) + Length8(672);
    CodeBytes(b);
    CodeBlock(State(0x2088372A, 0xF50610A1, 0xF82F8B05, 0x8E4BFE32, 0x280B4E35), b);
    OuterDigest();
    DigestOf(State(0xEFFCDF6A, 0xE5EB2FA2, 0xD27416D5, 0xF184DF9C, 0x259A7C79), OuterCode());
  }

  /** The code of that text under that key. */
  lemma Jefe()
    ensures Rfc2104(Key(), Question()) == OuterCode()
  {
    hide DigestBytes, Hash, XorAll, KeyBlock, Question, InnerCode, OuterCode;
    InnerHash();
    OuterHash();
  }
}
