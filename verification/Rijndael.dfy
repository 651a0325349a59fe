/** The table-driven cipher: wiinandfuse/source/rijndael.c. */
module Rijndael {
  import opened Octets
  import opened Gf
  import opened Aes
  import opened Cipher
  import Arith

  // ---------- the table entries ----------

  /** One column of MixColumns times s. */
  function ForwardEntry(s: byte): word {
    Pack(Xtime(s), s, s, Xb(s, Xtime(s)))
  }

  /** One column of InvMixColumns times s. */
  function ReverseEntry(s: byte): word {
    Pack(Mul(0xE, s), Mul(9, s), Mul(0xD, s), Mul(0xB, s))
  }

  function Wide(s: byte): word {
    s as word
  }

  /** The four look-ups of a round. */
  function Combine(k: word, t0: word, t1: word, t2: word, t3: word): word {
    Xd(Xd(Xd(Xd(k, t0), Rotl8(t1)), Rotl16(t2)), Rotl24(t3))
  }

  lemma CombineKey(k: word, t0: word, t1: word, t2: word, t3: word)
    ensures Combine(k, t0, t1, t2, t3) == Xd(k, Xd(Xd(Xd(t0, Rotl8(t1)), Rotl16(t2)), Rotl24(t3)))
  {
    hide Xd, Rotl8, Rotl16, Rotl24;
    XdAssoc(k, t0, Rotl8(t1));
    XdAssoc(k, Xd(t0, Rotl8(t1)), Rotl16(t2));
    XdAssoc(k, Xd(Xd(t0, Rotl8(t1)), Rotl16(t2)), Rotl24(t3));
  }

  /** Four words, one byte of each of which is turned into each row. */
  lemma CombinePacks(a0: byte, a1: byte, a2: byte, a3: byte, b0: byte, b1: byte, b2: byte, b3: byte,
                     c0: byte, c1: byte, c2: byte, c3: byte, d0: byte, d1: byte, d2: byte, d3: byte)
    ensures Xd(Xd(Xd(Pack(a0, a1, a2, a3), Rotl8(Pack(b0, b1, b2, b3))), Rotl16(Pack(c0, c1, c2, c3))),
               Rotl24(Pack(d0, d1, d2, d3)))
         == Pack(Xb(Xb(Xb(a0, b3), c2), d1), Xb(Xb(Xb(a1, b0), c3), d2),
                 Xb(Xb(Xb(a2, b1), c0), d3), Xb(Xb(Xb(a3, b2), c1), d0))
  {
    hide Xd, Xb, Pack, Rotl8, Rotl16, Rotl24;
    Rotation8(b0, b1, b2, b3);
    Rotation16(c0, c1, c2, c3);
    Rotation24(d0, d1, d2, d3);
    XdOfPacks(a0, a1, a2, a3, b3, b0, b1, b2);
    XdOfPacks(Xb(a0, b3), Xb(a1, b0), Xb(a2, b1), Xb(a3, b2), c2, c3, c0, c1);
    XdOfPacks(Xb(Xb(a0, b3), c2), Xb(Xb(a1, b0), c3), Xb(Xb(a2, b1), c0), Xb(Xb(a3, b2), c1), d1, d2, d3, d0);
  }

  lemma MulTwoThree(s: byte)
    ensures Mul(1, s) == s && Mul(2, s) == Xtime(s) && Mul(3, s) == Xb(s, Xtime(s))
  {
    hide Mul, Xb, Xtime;
    MulConstants(s);
    assert Xtimes(s, 0) == s && Xtimes(s, 1) == Xtime(s);
    XbComm(s, Xtime(s));
  }

  /** The forward tables give MixColumns of the four substituted bytes. */
  lemma ForwardMix(k: word, s0: byte, s1: byte, s2: byte, s3: byte)
    ensures Combine(k, ForwardEntry(s0), ForwardEntry(s1), ForwardEntry(s2), ForwardEntry(s3))
         == Xd(k, MixCol(Pack(s0, s1, s2, s3)))
  {
    hide Xd, Xb, Xtime, Mul, Pack, B0, B1, B2, B3, Combine;
    CombineKey(k, ForwardEntry(s0), ForwardEntry(s1), ForwardEntry(s2), ForwardEntry(s3));
    MulTwoThree(s0); MulTwoThree(s1); MulTwoThree(s2); MulTwoThree(s3);
    CombinePacks(Xtime(s0), s0, s0, Xb(s0, Xtime(s0)), Xtime(s1), s1, s1, Xb(s1, Xtime(s1)),
                 Xtime(s2), s2, s2, Xb(s2, Xtime(s2)), Xtime(s3), s3, s3, Xb(s3, Xtime(s3)));
    BytesOfPack(s0, s1, s2, s3);
  }

  /** The reverse tables give InvMixColumns of the four substituted bytes. */
  lemma ReverseMix(k: word, s0: byte, s1: byte, s2: byte, s3: byte)
    ensures Combine(k, ReverseEntry(s0), ReverseEntry(s1), ReverseEntry(s2), ReverseEntry(s3))
         == Xd(k, InvMixCol(Pack(s0, s1, s2, s3)))
  {
    hide Xd, Xb, Mul, Pack, B0, B1, B2, B3, Combine;
    CombineKey(k, ReverseEntry(s0), ReverseEntry(s1), ReverseEntry(s2), ReverseEntry(s3));
    CombinePacks(Mul(0xE, s0), Mul(9, s0), Mul(0xD, s0), Mul(0xB, s0), Mul(0xE, s1), Mul(9, s1), Mul(0xD, s1),
        Mul(0xB, s1),
                 Mul(0xE, s2), Mul(9, s2), Mul(0xD, s2), Mul(0xB, s2), Mul(0xE, s3), Mul(9, s3), Mul(0xD, s3),
                     Mul(0xB, s3));
    BytesOfPack(s0, s1, s2, s3);
  }

  /** The last round places single substituted bytes. */
  lemma LastMix(k: word, s0: byte, s1: byte, s2: byte, s3: byte)
    ensures Combine(k, Wide(s0), Wide(s1), Wide(s2), Wide(s3)) == Xd(k, Pack(s0, s1, s2, s3))
  {
    WidePack(s0); WidePack(s1); WidePack(s2); WidePack(s3);
    hide Xd, Xb, Pack, Combine, Wide;
    CombineKey(k, Wide(s0), Wide(s1), Wide(s2), Wide(s3));
    CombinePacks(s0, 0, 0, 0, s1, 0, 0, 0, s2, 0, 0, 0, s3, 0, 0, 0);
    XbZero(0); XbZero(s0); XbZero(s1); XbZero(s2); XbZero(s3);
  }

  lemma WidePack(s: byte)
    ensures Wide(s) == Pack(s, 0, 0, 0)
  {
  }

  // ---------- tables in memory ----------

  ghost predicate PowerTable(p: seq<byte>) {
    |p| == 256 && forall i :: 0 <= i < 256 ==> p[i] == Power(i)
  }

  /** The logarithm of every nonzero byte, between 1 and 255. */
  ghost predicate LogTable(l: seq<byte>) {
    |l| == 256 && forall i :: 1 <= i < 256 ==> l[Index(Power(i))] == Octet(i)
  }

  ghost predicate SubTables(f: seq<byte>, r: seq<byte>) {
    && |f| == 256 && |r| == 256
    && (forall i :: 0 <= i < 256 ==> f[i] == SBox(Octet(i)))
    && (forall i :: 0 <= i < 256 ==> r[i] == InvSBox(Octet(i)))
  }

  ghost predicate RoundTables(f: seq<word>, r: seq<word>) {
    && |f| == 256 && |r| == 256
    && (forall i :: 0 <= i < 256 ==> f[i] == ForwardEntry(SBox(Octet(i))))
    && (forall i :: 0 <= i < 256 ==> r[i] == ReverseEntry(InvSBox(Octet(i))))
  }

  /** x^i, as a word. */
  function Rcon(i: nat): word {
    Xtimes(1, i) as word
  }

  ghost predicate Constants(r: seq<word>) {
    |r| == 30 && forall i :: 0 <= i < 30 ==> r[i] == Rcon(i)
  }

  /** Multiplication by logarithms, as bmul does it. */
  function TableMul(p: seq<byte>, l: seq<byte>, x: byte, y: byte): byte
    requires |p| == 256 && |l| == 256
  {
    if x != 0 && y != 0 then p[(Index(l[Index(x)]) + Index(l[Index(y)])) % 255] else 0
  }

  lemma PowerReduce(n: nat)
    requires n <= 510
    ensures Power(n % 255) == Power(n)
  {
    hide Mul, Power;
    PowerValues();
    FirstPowers();
    if n >= 255 {
      PowerAdd(255, n - 255);
      MulUnit(0, Power(n - 255));
      if n == 510 {
        assert 510 % 255 == 0;
      } else {
        assert n % 255 == n - 255;
      }
    }
  }

  /** The logarithm tables multiply in GF(2^8). */
  lemma TableMulCorrect(p: seq<byte>, l: seq<byte>, x: byte, y: byte)
    requires PowerTable(p) && LogTable(l)
    ensures TableMul(p, l, x, y) == Mul(x, y)
  {
    hide Mul, Power, Index, Octet;
    if x == 0 {
      MulZero(y);
    } else if y == 0 {
      MulRightZero(x);
    } else {
      var i := Logarithm(x);
      var j := Logarithm(y);
      IndexOfOctet(i);
      IndexOfOctet(j);
      PowerAdd(i, j);
      PowerReduce(i + j);
    }
  }

  /** The substitution of a nonzero byte, as ByteSub computes it. */
  function ByteSub(p: seq<byte>, l: seq<byte>, x: byte): byte
    requires |p| == 256 && |l| == 256
  {
    Affine(p[255 - Index(l[Index(x)])])
  }

  lemma ByteSubCorrect(p: seq<byte>, l: seq<byte>, x: byte)
    requires PowerTable(p) && LogTable(l) && x != 0
    ensures ByteSub(p, l, x) == SBox(x)
  {
    hide Power, Index, Octet, Affine, Inverse;
    var i := Logarithm(x);
    IndexOfOctet(i);
    InverseOfPower(i);
  }

  lemma SBoxDistinct(x: byte, y: byte)
    requires x != y
    ensures Index(SBox(x)) != Index(SBox(y))
  {
    hide SBox, InvSBox, Index;
    SBoxInverse(x);
    SBoxInverse(y);
    if Index(SBox(x)) == Index(SBox(y)) {
      SameIndex(SBox(x), SBox(y));
    }
  }

  lemma PowerIndexDistinct(i: nat, j: nat)
    requires 1 <= i < j <= 255
    ensures Index(Power(i)) != Index(Power(j))
  {
    hide Power, Index;
    PowerDistinct(i, j);
    if Index(Power(i)) == Index(Power(j)) {
      SameIndex(Power(i), Power(j));
    }
  }

  /** The substitution of i is none of those before it. */
  lemma NewIndex(i: nat)
    requires i < 256
    ensures forall k :: 0 <= k < i ==> Index(SBox(Octet(k))) != Index(SBox(Octet(i)))
  {
    hide SBox, Index, Octet;
    IndexOfOctet(i);
    forall k | 0 <= k < i
      ensures Index(SBox(Octet(k))) != Index(SBox(Octet(i)))
    {
      IndexOfOctet(k);
      SBoxDistinct(Octet(k), Octet(i));
    }
  }

  /** The entries of the first n bytes, in the table and in its inverse. */
  ghost predicate SubstitutedTo(f: seq<byte>, r: seq<byte>, n: nat) {
    && |f| == |r| == 256 && n <= 256 && (forall k :: 0 <= k < n ==> f[k] == SBox(Octet(k)))
    && forall k :: 0 <= k < n ==> r[Index(SBox(Octet(k)))] == Octet(k)
  }

  lemma NextSubstitution(f: seq<byte>, r: seq<byte>, i: nat)
    requires i < 256 && SubstitutedTo(f, r, i)
    ensures var y := SBox(Octet(i)); SubstitutedTo(f[i := y], r[Index(y) := Octet(i)], i + 1)
  {
    hide SBox, Index, Octet;
    NewIndex(i);
  }

  /** rbsub is the inverse of fbsub once it has been set at every substituted value. */
  lemma InverseTable(r: seq<byte>)
    requires |r| == 256 && forall i :: 0 <= i < 256 ==> r[Index(SBox(Octet(i)))] == Octet(i)
    ensures forall i :: 0 <= i < 256 ==> r[i] == InvSBox(Octet(i))
  {
    hide SBox, InvSBox, Index, Octet;
    forall i | 0 <= i < 256
      ensures r[i] == InvSBox(Octet(i))
    {
      var x := InvSBox(Octet(i));
      SBoxInverse(Octet(i));
      OctetOfIndex(x);
      IndexOfOctet(i);
      var j := Index(x);
      assert r[Index(SBox(Octet(j)))] == Octet(j);
    }
  }

  class Context {
    const fbsub: array<byte>
    const rbsub: array<byte>
    const ptab: array<byte>
    const ltab: array<byte>
    const ftable: array<word>
    const rtable: array<word>
    const rco: array<word>
    const fi: array<nat>
    const ri: array<nat>
    const fkey: array<word>
    const rkey: array<word>
    var Nk: nat
    var Nb: nat
    var Nr: nat

    /** The tables and key schedules. */
    ghost function Repr(): set<object> {
      {fbsub as object, rbsub as object, ptab as object, ltab as object, ftable as object, rtable as object,
       rco as object, fi as object, ri as object, fkey as object, rkey as object}
    }

    ghost predicate Allocated() {
      && this !in Repr()
      && fbsub.Length == rbsub.Length == ptab.Length == ltab.Length == 256
      && ftable.Length == rtable.Length == 256 && rco.Length == 30
      && fi.Length == ri.Length == 24 && fkey.Length == rkey.Length == 120
      && fbsub != rbsub && fbsub != ptab && fbsub != ltab && rbsub != ptab && rbsub != ltab && ptab != ltab
      && ftable != rtable && ftable != rco && ftable != fkey && ftable != rkey && rtable != rco && rtable != fkey
      && rtable != rkey && rco != fkey && rco != rkey && fkey != rkey && fi != ri
    }

    constructor ()
      ensures Allocated() && fresh(Repr())
    {
      fbsub, rbsub, ptab, ltab := new byte[256], new byte[256], new byte[256], new byte[256];
      ftable, rtable, rco := new word[256], new word[256], new word[30];
      fi, ri := new nat[24], new nat[24];
      fkey, rkey := new word[120], new word[120];
      Nk, Nb, Nr := 0, 0, 0;
    }

    /** The logarithm tables: 3 is a primitive root. */
    method LogTables()
      requires Allocated()
      modifies ptab, ltab
      ensures PowerTable(ptab[..]) && LogTable(ltab[..])
    {
      FirstPowers();
      SmallIndices();
      hide Power, Index, Octet, Xb, Xtime;
      ltab[0] := 0;
      ptab[0] := 1; ltab[1] := 0;
      ptab[1] := 3; ltab[3] := 1;
      for i := 2 to 256
        invariant forall k :: 0 <= k < i ==> ptab[k] == Power(k)
        invariant forall k :: 1 <= k < i ==> ltab[Index(Power(k))] == Octet(k)
      {
        PowerNext(i);
        ptab[i] := Xb(ptab[i - 1], Xtime(ptab[i - 1]));
        forall k | 1 <= k < i
          ensures Index(Power(k)) != Index(Power(i))
        {
          PowerIndexDistinct(k, i);
        }
        ltab[Index(ptab[i])] := Octet(i);
      }
    }

    /** The substitution table and its inverse. */
    method SubstitutionTables()
      requires Allocated() && PowerTable(ptab[..]) && LogTable(ltab[..])
      modifies fbsub, rbsub
      ensures SubTables(fbsub[..], rbsub[..])
    {
      SmallIndices();
      SBoxZero();
      hide SBox, InvSBox, Index, Octet, ByteSub, PowerTable, LogTable;
      TableSizes(ptab[..], ltab[..]);
      fbsub[0] := 0x63;
      rbsub[0x63] := 0;
      for i := 1 to 256
        invariant SubstitutedTo(fbsub[..], rbsub[..], i)
      {
        NextSubstitution(fbsub[..], rbsub[..], i);
        IndexOfOctet(i);
        ByteSubCorrect(ptab[..], ltab[..], Octet(i));
        var y := ByteSub(ptab[..], ltab[..], Octet(i));
        fbsub[i] := y;
        rbsub[Index(y)] := Octet(i);
      }
      InverseTable(rbsub[..]);
    }

    method RoundConstants()
      requires Allocated()
      modifies rco
      ensures Constants(rco[..])
    {
      hide Xtime;
      var y: byte := 1;
      for i := 0 to 30
        invariant y == Xtimes(1, i)
        invariant forall k :: 0 <= k < i ==> rco[k] == Rcon(k)
      {
        rco[i] := y as word;
        y := Xtime(y);
      }
    }

    /** The forward and reverse tables. */
    method CombinedTables()
      requires Allocated() && PowerTable(ptab[..]) && LogTable(ltab[..]) && SubTables(fbsub[..], rbsub[..])
      modifies ftable, rtable
      ensures RoundTables(ftable[..], rtable[..])
    {
      hide SBox, InvSBox, Octet, Pack, Mul, Xtime, Xb, TableMul;
      var p, l := ptab[..], ltab[..];
      for i := 0 to 256
        invariant forall k :: 0 <= k < i ==> ftable[k] == ForwardEntry(SBox(Octet(k)))
        invariant forall k :: 0 <= k < i ==> rtable[k] == ReverseEntry(InvSBox(Octet(k)))
      {
        var y := fbsub[i];
        ftable[i] := Pack(Xtime(y), y, y, Xb(y, Xtime(y)));
        y := rbsub[i];
        TableMulCorrect(p, l, 0xB, y); TableMulCorrect(p, l, 0xD, y);
        TableMulCorrect(p, l, 9, y); TableMulCorrect(p, l, 0xE, y);
        rtable[i] := Pack(TableMul(p, l, 0xE, y), TableMul(p, l, 9, y), TableMul(p, l, 0xD, y), TableMul(p, l, 0xB, y));
      }
    }

    ghost predicate Ready()
      reads ptab, ltab, fbsub, rbsub, ftable, rtable, rco
    {
      && Allocated() && PowerTable(ptab[..]) && LogTable(ltab[..]) && SubTables(fbsub[..], rbsub[..])
      && RoundTables(ftable[..], rtable[..]) && Constants(rco[..])
    }

    method GenTables()
      requires Allocated()
      modifies ptab, ltab, fbsub, rbsub, ftable, rtable, rco
      ensures Ready()
    {
      hide PowerTable, LogTable, SubTables, RoundTables, Constants;
      LogTables();
      SubstitutionTables();
      RoundConstants();
      CombinedTables();
    }

    /** SubByte: the four bytes of a word, substituted. */
    function TableSub(a: word): word
      requires Allocated()
      reads fbsub
    {
      Pack(fbsub[Index(B0(a))], fbsub[Index(B1(a))], fbsub[Index(B2(a))], fbsub[Index(B3(a))])
    }

    lemma TableSubCorrect(a: word)
      requires Ready()
      ensures TableSub(a) == SubWord(a)
    {
      hide SBox, Index, Octet, Pack, B0, B1, B2, B3, PowerTable, LogTable, RoundTables, Constants;
      OctetOfIndex(B0(a)); OctetOfIndex(B1(a)); OctetOfIndex(B2(a)); OctetOfIndex(B3(a));
    }

    function Product(x: word, y: word): byte
      requires Allocated()
      reads ptab, ltab
    {
      var p, l := ptab[..], ltab[..];
      Xb(Xb(Xb(TableMul(p, l, B0(x), B0(y)), TableMul(p, l, B1(x), B1(y))), TableMul(p, l, B2(x), B2(y))),
         TableMul(p, l, B3(x), B3(y)))
    }

    /** InvMixCol: the dot product with a rotating row of coefficients. */
    function TableInvMixCol(x: word): word
      requires Allocated()
      reads ptab, ltab
    {
      var m3 := Pack(0xB, 0xD, 9, 0xE);
      var m2 := Rotl24(m3);
      var m1 := Rotl24(m2);
      var m0 := Rotl24(m1);
      Pack(Product(m0, x), Product(m1, x), Product(m2, x), Product(m3, x))
    }

    lemma ProductCorrect(k0: byte, k1: byte, k2: byte, k3: byte, x: word)
      requires Ready()
      ensures Product(Pack(k0, k1, k2, k3), x) == Dot(k0, k1, k2, k3, B0(x), B1(x), B2(x), B3(x))
    {
      hide Mul, TableMul, Xb, Pack, B0, B1, B2, B3, PowerTable, LogTable, SubTables, RoundTables, Constants;
      BytesOfPack(k0, k1, k2, k3);
      var p, l := ptab[..], ltab[..];
      TableMulCorrect(p, l, k0, B0(x)); TableMulCorrect(p, l, k1, B1(x));
      TableMulCorrect(p, l, k2, B2(x)); TableMulCorrect(p, l, k3, B3(x));
    }

    lemma TableInvMixColCorrect(x: word)
      requires Ready()
      ensures TableInvMixCol(x) == InvMixCol(x)
    {
      hide Dot, Product, Pack, Rotl24, B0, B1, B2, B3, Ready;
      ReadyAllocated();
      Rotation24(0xB, 0xD, 9, 0xE);
      Rotation24(0xD, 9, 0xE, 0xB);
      Rotation24(9, 0xE, 0xB, 0xD);
      ProductCorrect(0xB, 0xD, 9, 0xE, x);
      ProductCorrect(0xD, 9, 0xE, 0xB, x);
      ProductCorrect(9, 0xE, 0xB, 0xD, x);
      ProductCorrect(0xE, 0xB, 0xD, 9, x);
    }

    /** The forward and reverse row offsets. */
    method SetOffsets(nb: nat)
      requires Allocated() && Width(nb)
      modifies fi, ri
      ensures Offsets(fi[..], nb, false) && Offsets(ri[..], nb, true)
    {
      var C1, C2, C3 := 1, 2, 3;
      if nb >= 8 {
        C2, C3 := 3, 4;
      }
      assert C1 == Offset(nb, 1) && C2 == Offset(nb, 2) && C3 == Offset(nb, 3) <= 4;
      hide Offset, OffsetsAt;
      for j := 0 to nb
        invariant forall i :: 0 <= i < j ==> OffsetsAt(fi[..], nb, false, i)
        invariant forall i :: 0 <= i < j ==> OffsetsAt(ri[..], nb, true, i)
      {
        SetOffset(fi, nb, false, j, (j + C1) % nb, (j + C2) % nb, (j + C3) % nb);
        SetOffset(ri, nb, true, j, (nb + j - C1) % nb, (nb + j - C2) % nb, (nb + j - C3) % nb);
      }
    }

    /** The three offsets of column j. */
    static method SetOffset(f: array<nat>, nb: nat, right: bool, j: nat, o1: nat, o2: nat, o3: nat)
      requires Width(nb) && f.Length == 24 && j < nb
      requires o1 == (if right then Right(j, nb, 1) else Left(j, nb, 1))
      requires o2 == (if right then Right(j, nb, 2) else Left(j, nb, 2))
      requires o3 == (if right then Right(j, nb, 3) else Left(j, nb, 3))
      requires forall i :: 0 <= i < j ==> OffsetsAt(f[..], nb, right, i)
      modifies f
      ensures forall i :: 0 <= i <= j ==> OffsetsAt(f[..], nb, right, i)
    {
      hide Left, Right;
      ghost var before := f[..];
      var m := 3 * j;
      f[m], f[m + 1], f[m + 2] := o1, o2, o3;
      OffsetsKept(before, f[..], nb, right, j);
    }

    /** Words from..to of one round of the expansion, without substitution. */
    method Chain(key: array<byte>, nk: nat, ghost k: nat, n: nat, j: nat, from: nat, to: nat)
      requires Ready() && Width(nk) && key.Length >= 4 * nk && n <= 120 && j == nk * (k + 1)
      requires 1 <= from <= to <= nk && (nk <= 6 || to <= 4 || 5 <= from)
      requires Scheduled(fkey[..], key[..], nk, Capped(j + from, n))
      modifies fkey
      ensures Scheduled(fkey[..], key[..], nk, Capped(j + to, n))
    {
      hide Xd, Ready, Scheduled;
      ReadyAllocated();
      var i := from;
      while i < to && i + j < n
        invariant from <= i <= to
        invariant Scheduled(fkey[..], key[..], nk, Capped(j + i, n))
      {
        ChainStep(fkey[..], key[..], nk, k, i);
        fkey[i + j] := Xd(fkey[i + j - nk], fkey[i + j - 1]);
        i := i + 1;
      }
    }

    /** The words of one round that pass through the substitution. */
    method FirstWord(key: array<byte>, nk: nat, k: nat, n: nat)
      requires Ready() && Width(nk) && key.Length >= 4 * nk && nk * (k + 1) < n <= 120
      requires Scheduled(fkey[..], key[..], nk, nk * (k + 1))
      modifies fkey
      ensures Scheduled(fkey[..], key[..], nk, nk * (k + 1) + 1)
    {
      hide Xd, SubWord, Rotl24, Ready, Constants, TableSub;
      ReadyAllocated();
      var j := nk * (k + 1);
      KeyRounds(nk, k, n);
      ScheduleAt(key[..], nk, k, 0);
      TableSubCorrect(Rotl24(fkey[j - 1]));
      ReadyConstant(k);
      fkey[j] := Xd(Xd(fkey[j - nk], TableSub(Rotl24(fkey[j - 1]))), rco[k]);
    }

    method FourthWord(key: array<byte>, nk: nat, k: nat, n: nat)
      requires Ready() && nk == 8 && key.Length >= 4 * nk && nk * (k + 1) + 4 < n <= 120
      requires Scheduled(fkey[..], key[..], nk, nk * (k + 1) + 4)
      modifies fkey
      ensures Scheduled(fkey[..], key[..], nk, nk * (k + 1) + 5)
    {
      hide Xd, SubWord, Rotl24, Ready, Constants, TableSub;
      ReadyAllocated();
      var j := nk * (k + 1);
      ScheduleAt(key[..], nk, k, 4);
      TableSubCorrect(fkey[j + 3]);
      fkey[j + 4] := Xd(fkey[j + 4 - nk], TableSub(fkey[j + 3]));
    }

    /** One round of the expansion loop, at word nk * (k + 1). */
    method ExpandRound(key: array<byte>, nk: nat, k: nat, n: nat)
      requires Ready() && Width(nk) && key.Length >= 4 * nk && nk * (k + 1) < n <= 120
      requires Scheduled(fkey[..], key[..], nk, nk * (k + 1))
      modifies fkey
      ensures Scheduled(fkey[..], key[..], nk, Capped(nk * (k + 2), n))
    {
      hide Ready, Scheduled;
      ReadyAllocated();
      var j := nk * (k + 1);
      assert nk * (k + 2) == j + nk;
      FirstWord(key, nk, k, n);
      if nk <= 6 {
        Chain(key, nk, k, n, j, 1, nk);
      } else {
        Chain(key, nk, k, n, j, 1, 4);
        if j + 4 < n {
          FourthWord(key, nk, k, n);
        }
        Chain(key, nk, k, n, j, 5, nk);
      }
    }

    lemma ReadyConstant(k: nat)
      requires Ready() && k < 30
      ensures rco[k] == Rcon(k)
    {
    }

    method ExpandKey(key: array<byte>, nk: nat, n: nat)
      requires Ready() && Width(nk) && key.Length >= 4 * nk && nk <= n <= 120
      modifies fkey
      ensures Ready() && Scheduled(fkey[..], key[..], nk, n)
    {
      hide Pack, Ready;
      ReadyAllocated();
      var CipherKey := new word[8];
      for i := 0 to nk
        invariant forall m :: 0 <= m < i ==> CipherKey[m] == ScheduleWord(key[..], nk, m)
      {
        CipherKey[i] := Pack(key[4 * i], key[4 * i + 1], key[4 * i + 2], key[4 * i + 3]);
      }
      for i := 0 to nk
        invariant forall m :: 0 <= m < nk ==> CipherKey[m] == ScheduleWord(key[..], nk, m)
        invariant forall m :: 0 <= m < i ==> fkey[m] == ScheduleWord(key[..], nk, m)
      {
        fkey[i] := CipherKey[i];
      }
      var j, k := nk, 0;
      while j < n
        invariant j == nk * (k + 1) && k >= 0
        invariant j <= n ==> Scheduled(fkey[..], key[..], nk, j)
        invariant j > n ==> Scheduled(fkey[..], key[..], nk, n)
        decreases n - j
      {
        ExpandRound(key, nk, k, n);
        assert nk * (k + 2) == j + nk;
        j, k := j + nk, k + 1;
      }
    }

    /** Copies group `from` of the encryption schedule to group `to` of the decryption schedule,
        through InvMixCol if `mix` says so. */
    method ReverseGroup(nb: nat, nr: nat, from: nat, to: nat, mix: bool)
      requires Ready() && Width(nb) && nr >= 1 && nb * (nr + 1) <= 120 && from <= nr && to <= nr
      modifies rkey
      ensures forall j :: 0 <= j < nb ==>
                KeyWord(Section(rkey[..], nb, nr), nb, nr, to, j)
                == var w := KeyWord(Section(fkey[..], nb, nr), nb, nr, from, j); if mix then InvMixCol(w) else w
      ensures forall g, j :: 0 <= g <= nr && g != to && 0 <= j < nb ==>
                KeyWord(Section(rkey[..], nb, nr), nb, nr, g, j)
                    == old(KeyWord(Section(rkey[..], nb, nr), nb, nr, g, j))
    {
      hide Ready, InvMixCol, TableInvMixCol;
      ReadyAllocated();
      KeyRoom(nb, nr, from);
      KeyRoom(nb, nr, to);
      ghost var before, d := rkey[..], to * nb - from * nb;
      for j := 0 to nb
        invariant forall t :: to * nb <= t < to * nb + j ==>
          rkey[t] == var w := fkey[t - d]; if mix then InvMixCol(w) else w
        invariant rkey[..to * nb] == before[..to * nb] && rkey[to * nb + nb..] == before[to * nb + nb..]
      {
        var w := fkey[from * nb + j];
        if mix {
          TableInvMixColCorrect(w);
          rkey[to * nb + j] := TableInvMixCol(w);
        } else {
          rkey[to * nb + j] := w;
        }
      }
      GroupsKept(before, rkey[..], nb, nr, to);
    }

    /** The expanded decryption key, in reverse order. */
    method ReverseKey(nb: nat, nr: nat)
      requires Ready() && Width(nb) && nr >= 1 && nb * (nr + 1) <= 120
      modifies rkey
      ensures Equivalent(Section(fkey[..], nb, nr), Section(rkey[..], nb, nr), nb, nr)
    {
      hide Ready, InvMixCol, KeyWord;
      ReadyAllocated();
      ghost var w := Section(fkey[..], nb, nr);
      ReverseGroup(nb, nr, 0, nr, false);
      for r := 1 to nr
        invariant forall j :: 0 <= j < nb ==>
          KeyWord(Section(rkey[..], nb, nr), nb, nr, nr, j) == KeyWord(w, nb, nr, 0, j)
        invariant forall g, j :: nr - r < g < nr && 0 <= j < nb ==>
                    KeyWord(Section(rkey[..], nb, nr), nb, nr, g, j) == InvMixCol(KeyWord(w, nb, nr, nr - g, j))
      {
        ReverseGroup(nb, nr, r, nr - r, true);
      }
      ReverseGroup(nb, nr, nr, 0, false);
    }

    /** The key schedules for blocks of nb words and keys of nk words, each 4, 6 or 8. */
    method GKey(nb: nat, nk: nat, key: array<byte>)
      requires Ready() && Width(nb) && Width(nk) && key.Length >= 4 * nk
      modifies this, fi, ri, fkey, rkey
      ensures Ready() && Keyed() && Nb == nb && Nk == nk && Nr == RoundCount(nb, nk)
      ensures Scheduled(fkey[..], key[..], nk, Words())
    {
      hide Ready;
      ReadyAllocated();
      Nb, Nk := nb, nk;
      if Nb >= Nk { Nr := 6 + Nb; } else { Nr := 6 + Nk; }
      SetOffsets(nb);
      var n := Nb * (Nr + 1);
      ExpandKey(key, nk, n);
      ReverseKey(nb, Nr);
    }

    /** The number of words in a key schedule. */
    function Words(): nat
      reads this
    {
      Nb * (Nr + 1)
    }

    /** gkey has run. */
    ghost predicate Keyed()
      reads this, fi, ri, fkey, rkey
    {
      && Width(Nb) && Nr >= 1 && Words() <= 120 && fkey.Length == rkey.Length == 120
      && Offsets(fi[..], Nb, false) && Offsets(ri[..], Nb, true)
      && Equivalent(Section(fkey[..], Nb, Nr), Section(rkey[..], Nb, Nr), Nb, Nr)
    }

    lemma ForwardLookup(x: byte)
      requires Ready()
      ensures fbsub[Index(x)] == SBox(x) && ftable[Index(x)] == ForwardEntry(SBox(x))
    {
      hide SBox, InvSBox, ForwardEntry, ReverseEntry, Index, Octet, PowerTable, LogTable, Constants;
      OctetOfIndex(x);
    }

    lemma ReverseLookup(x: byte)
      requires Ready()
      ensures rbsub[Index(x)] == InvSBox(x) && rtable[Index(x)] == ReverseEntry(InvSBox(x))
    {
      hide SBox, InvSBox, ForwardEntry, ReverseEntry, Index, Octet, PowerTable, LogTable, Constants;
      OctetOfIndex(x);
    }

    /** What four look-ups of encrypt give. */
    lemma ForwardLookups(key: word, b0: byte, b1: byte, b2: byte, b3: byte)
      requires Ready()
      ensures Combine(key, ftable[Index(b0)], ftable[Index(b1)], ftable[Index(b2)], ftable[Index(b3)])
           == Xd(key, MixCol(Pack(SBox(b0), SBox(b1), SBox(b2), SBox(b3))))
      ensures Combine(key, Wide(fbsub[Index(b0)]), Wide(fbsub[Index(b1)]), Wide(fbsub[Index(b2)]),
        Wide(fbsub[Index(b3)]))
           == Xd(key, Pack(SBox(b0), SBox(b1), SBox(b2), SBox(b3)))
    {
      hide Ready, SBox, ForwardEntry, Pack, Xd, MixCol, Combine, Index, Wide;
      ReadyAllocated();
      ForwardLookup(b0); ForwardLookup(b1); ForwardLookup(b2); ForwardLookup(b3);
      ForwardMix(key, SBox(b0), SBox(b1), SBox(b2), SBox(b3));
      LastMix(key, SBox(b0), SBox(b1), SBox(b2), SBox(b3));
    }

    /** What four look-ups of decrypt give. */
    lemma ReverseLookups(key: word, b0: byte, b1: byte, b2: byte, b3: byte)
      requires Ready()
      ensures Combine(key, rtable[Index(b0)], rtable[Index(b1)], rtable[Index(b2)], rtable[Index(b3)])
           == Xd(key, InvMixCol(Pack(InvSBox(b0), InvSBox(b1), InvSBox(b2), InvSBox(b3))))
      ensures Combine(key, Wide(rbsub[Index(b0)]), Wide(rbsub[Index(b1)]), Wide(rbsub[Index(b2)]),
        Wide(rbsub[Index(b3)]))
           == Xd(key, Pack(InvSBox(b0), InvSBox(b1), InvSBox(b2), InvSBox(b3)))
    {
      hide Ready, InvSBox, ReverseEntry, Pack, Xd, InvMixCol, Combine, Index, Wide;
      ReadyAllocated();
      ReverseLookup(b0); ReverseLookup(b1); ReverseLookup(b2); ReverseLookup(b3);
      ReverseMix(key, InvSBox(b0), InvSBox(b1), InvSBox(b2), InvSBox(b3));
      LastMix(key, InvSBox(b0), InvSBox(b1), InvSBox(b2), InvSBox(b3));
    }

    lemma KeyedFacts()
      requires Keyed()
      ensures Width(Nb) && Nr >= 1 && Words() <= 120 && fkey.Length == rkey.Length == 120
      ensures Keys(Section(fkey[..], Nb, Nr), Nb, Nr) && Keys(Section(rkey[..], Nb, Nr), Nb, Nr)
      ensures fi.Length == ri.Length == 24
      ensures forall j :: 0 <= j < Nb ==> OffsetsAt(fi[..], Nb, false, j) && OffsetsAt(ri[..], Nb, true, j)
    {
    }

    /** One column of a round of encrypt. */
    method ForwardColumn(x: array<word>, key: word, j: nat, last: bool) returns (y: word)
      requires Ready() && x.Length == 8 && Width(Nb) && j < Nb && OffsetsAt(fi[..], Nb, false, j)
      ensures y == Xd(key, if last then SubShift(x[..Nb])[j] else MixCol(SubShift(x[..Nb])[j]))
    {
      hide Ready, SBox, Pack, B0, B1, B2, B3, Xd, MixCol, Combine, Index, Wide, Left, SubShift;
      ReadyAllocated();
      ghost var X := x[..Nb];
      SubShiftAt(X, j);
      assert X[j] == x[j] && X[Left(j, Nb, 1)] == x[fi[3 * j]];
      assert X[Left(j, Nb, 2)] == x[fi[3 * j + 1]] && X[Left(j, Nb, 3)] == x[fi[3 * j + 2]];
      var m := 3 * j;
      var b0, b1, b2, b3 := B0(x[j]), B1(x[fi[m]]), B2(x[fi[m + 1]]), B3(x[fi[m + 2]]);
      ForwardLookups(key, b0, b1, b2, b3);
      if last {
        y := Combine(key, Wide(fbsub[Index(b0)]), Wide(fbsub[Index(b1)]), Wide(fbsub[Index(b2)]),
            Wide(fbsub[Index(b3)]));
      } else {
        y := Combine(key, ftable[Index(b0)], ftable[Index(b1)], ftable[Index(b2)], ftable[Index(b3)]);
      }
    }

    /** One column of a round of decrypt. */
    method ReverseColumn(x: array<word>, key: word, j: nat, last: bool) returns (y: word)
      requires Ready() && x.Length == 8 && Width(Nb) && j < Nb && OffsetsAt(ri[..], Nb, true, j)
      ensures y == Xd(key, if last then InvSubShift(x[..Nb])[j] else InvMixCol(InvSubShift(x[..Nb])[j]))
    {
      hide Ready, InvSBox, Pack, B0, B1, B2, B3, Xd, InvMixCol, Combine, Index, Wide, Right, InvSubShift;
      ReadyAllocated();
      ghost var X := x[..Nb];
      InvSubShiftAt(X, j);
      assert X[j] == x[j] && X[Right(j, Nb, 1)] == x[ri[3 * j]];
      assert X[Right(j, Nb, 2)] == x[ri[3 * j + 1]] && X[Right(j, Nb, 3)] == x[ri[3 * j + 2]];
      var m := 3 * j;
      var b0, b1, b2, b3 := B0(x[j]), B1(x[ri[m]]), B2(x[ri[m + 1]]), B3(x[ri[m + 2]]);
      ReverseLookups(key, b0, b1, b2, b3);
      if last {
        y := Combine(key, Wide(rbsub[Index(b0)]), Wide(rbsub[Index(b1)]), Wide(rbsub[Index(b2)]),
            Wide(rbsub[Index(b3)]));
      } else {
        y := Combine(key, rtable[Index(b0)], rtable[Index(b1)], rtable[Index(b2)], rtable[Index(b3)]);
      }
    }

    /** One round of encrypt. */
    method ForwardRound(x: array<word>, y: array<word>, i: nat, last: bool)
      requires Ready() && Keyed() && x.Length == y.Length == 8 && x != y && i <= Nr && Own(y)
      modifies y
      ensures y[..Nb] == ForwardStep(x[..Nb], Section(fkey[..], Nb, Nr), Nr, i, last)
      ensures Ready() && Keyed() && fkey[..] == old(fkey[..])
    {
      hide Ready, Keyed, SubShift, Xd, MixCol, OffsetsAt, ForwardStep;
      KeyedFacts();
      ReadyAllocated();
      KeyRoom(Nb, Nr, i);
      ghost var X, w := x[..Nb], Section(fkey[..], Nb, Nr);
      var k := i * Nb;
      for j := 0 to Nb
        invariant k == i * Nb + j
        invariant y[..j] == ForwardStep(X, w, Nr, i, last)[..j]
      {
        ForwardStepAt(X, w, Nr, i, last, j);
        y[j] := ForwardColumn(x, fkey[k], j, last);
        k := k + 1;
      }
    }

    /** One round of decrypt. */
    method ReverseRound(x: array<word>, y: array<word>, i: nat, last: bool)
      requires Ready() && Keyed() && x.Length == y.Length == 8 && x != y && i <= Nr && Own(y)
      modifies y
      ensures y[..Nb] == ReverseStep(x[..Nb], Section(rkey[..], Nb, Nr), Nr, i, last)
      ensures Ready() && Keyed() && rkey[..] == old(rkey[..])
    {
      hide Ready, Keyed, InvSubShift, Xd, InvMixCol, OffsetsAt, ReverseStep;
      KeyedFacts();
      ReadyAllocated();
      KeyRoom(Nb, Nr, i);
      ghost var X, w := x[..Nb], Section(rkey[..], Nb, Nr);
      var k := i * Nb;
      for j := 0 to Nb
        invariant k == i * Nb + j
        invariant y[..j] == ReverseStep(X, w, Nr, i, last)[..j]
      {
        ReverseStepAt(X, w, Nr, i, last, j);
        y[j] := ReverseColumn(x, rkey[k], j, last);
        k := k + 1;
      }
    }

    /** y is not one of the tables or key schedules. */
    ghost predicate Own(y: array<word>) {
      y !in Repr()
    }

    method NewState() returns (a: array<word>)
      ensures fresh(a) && a.Length == 8 && Own(a)
    {
      a := new word[8];
    }

    /** The columns of buff plus the first group of a key schedule. */
    method LoadState(buff: array<byte>, key: array<word>, a: array<word>)
      requires Keyed() && a.Length == 8 && buff.Length >= 4 * Nb && Own(a) && (key == fkey || key == rkey)
      modifies a
      ensures a[..Nb] == AddKey(Columns(buff[..], Nb), Section(key[..], Nb, Nr), Nr, 0)
    {
      hide Keyed, Xd, Pack, Columns, Section;
      KeyedFacts();
      KeyRoom(Nb, Nr, 0);
      ghost var s := Columns(buff[..], Nb);
      ghost var Y := AddKey(s, Section(key[..], Nb, Nr), Nr, 0);
      for i := 0 to Nb
        invariant forall j :: 0 <= j < i ==> a[j] == Y[j]
      {
        ColumnAt(buff[..], Nb, i);
        FirstKey(key[..], Nb, Nr, i);
        assert Y[i] == Xd(KeyWord(Section(key[..], Nb, Nr), Nb, Nr, 0, i), s[i]);
        a[i] := Pack(buff[4 * i], buff[4 * i + 1], buff[4 * i + 2], buff[4 * i + 3]);
        a[i] := Xd(key[i], a[i]);
      }
      assert a[..Nb] == Y;
    }

    /** The state unpacked into buff. */
    method StoreState(y: array<word>, buff: array<byte>)
      requires y.Length == 8 && Width(Nb) && buff.Length >= 4 * Nb
      modifies buff
      ensures Columns(buff[..], Nb) == y[..Nb] && buff[4 * Nb..] == old(buff[4 * Nb..])
    {
      hide Pack, B0, B1, B2, B3, Columns;
      for i := 0 to Nb
        invariant forall k :: 0 <= k < i ==> Columns(buff[..], Nb)[k] == y[k]
        invariant buff[4 * Nb..] == old(buff[4 * Nb..])
      {
        ghost var before := buff[..];
        buff[4 * i], buff[4 * i + 1], buff[4 * i + 2], buff[4 * i + 3] := B0(y[i]), B1(y[i]), B2(y[i]), B3(y[i]);
        PackOfBytes(y[i]);
        ColumnAt(buff[..], Nb, i);
        ColumnsKept(before, buff[..], Nb, i);
      }
    }

    /** The rounds of encrypt, between the loaded state a and a scratch state b. */
    method ForwardRounds(a: array<word>, b: array<word>, ghost s: State) returns (y: array<word>)
      requires Ready() && Keyed() && a.Length == b.Length == 8 && a != b && Own(a) && Own(b)
      requires |s| == Nb && a[..Nb] == AddKey(s, Section(fkey[..], Nb, Nr), Nr, 0)
      modifies a, b
      ensures y.Length == 8 && (y == a || y == b)
      ensures y[..Nb] == Cipher.Encrypt(s, Section(fkey[..], Nb, Nr), Nr)
    {
      hide Ready, Keyed, AddKey, SubShift, MixCols, Own, Repr, Section;
      KeyedFacts();
      ghost var w := Section(fkey[..], Nb, Nr);
      var x := a;
      y := b;
      for i := 1 to Nr
        modifies a, b
        invariant ((x == a && y == b) || (x == b && y == a)) && Ready() && Keyed()
        invariant fkey[..] == old(fkey[..])
        invariant x[..Nb] == Rounds(s, w, Nr, i - 1)
      {
        ForwardRound(x, y, i, false);
        x, y := y, x;
      }
      ForwardRound(x, y, Nr, true);
    }

    method Encrypt(buff: array<byte>)
      requires Ready() && Keyed() && buff.Length >= 4 * Nb && Foreign(buff)
      modifies buff
      ensures Columns(buff[..], Nb) == Cipher.Encrypt(Columns(old(buff[..]), Nb), Section(fkey[..], Nb, Nr), Nr)
      ensures buff[4 * Nb..] == old(buff[4 * Nb..])
    {
      hide Ready, Keyed, AddKey, Cipher.Encrypt, Own, Repr, Foreign, Section, Columns;
      KeyedFacts();
      ghost var s := Columns(buff[..], Nb);
      var a := NewState();
      var b := NewState();
      LoadState(buff, fkey, a);
      var y := ForwardRounds(a, b, s);
      StoreState(y, buff);
    }

    /** The rounds of decrypt. */
    method ReverseRounds(a: array<word>, b: array<word>, ghost s: State) returns (y: array<word>)
      requires Ready() && Keyed() && a.Length == b.Length == 8 && a != b && Own(a) && Own(b)
      requires |s| == Nb && a[..Nb] == AddKey(s, Section(rkey[..], Nb, Nr), Nr, 0)
      modifies a, b
      ensures y.Length == 8 && (y == a || y == b)
      ensures y[..Nb] == Cipher.Decrypt(s, Section(rkey[..], Nb, Nr), Nr)
    {
      hide Ready, Keyed, AddKey, InvSubShift, InvMixCols, Own, Repr, Section;
      KeyedFacts();
      ghost var v := Section(rkey[..], Nb, Nr);
      var x := a;
      y := b;
      for i := 1 to Nr
        modifies a, b
        invariant ((x == a && y == b) || (x == b && y == a)) && Ready() && Keyed()
        invariant rkey[..] == old(rkey[..])
        invariant x[..Nb] == InvRounds(s, v, Nr, i - 1)
      {
        ReverseRound(x, y, i, false);
        x, y := y, x;
      }
      ReverseRound(x, y, Nr, true);
    }

    method Decrypt(buff: array<byte>)
      requires Ready() && Keyed() && buff.Length >= 4 * Nb && Foreign(buff)
      modifies buff
      ensures Columns(buff[..], Nb) == Cipher.Decrypt(Columns(old(buff[..]), Nb), Section(rkey[..], Nb, Nr), Nr)
      ensures buff[4 * Nb..] == old(buff[4 * Nb..])
    {
      hide Ready, Keyed, AddKey, Cipher.Decrypt, Own, Repr, Foreign, Section, Columns;
      KeyedFacts();
      ghost var s := Columns(buff[..], Nb);
      var a := NewState();
      var b := NewState();
      LoadState(buff, rkey, a);
      var y := ReverseRounds(a, b, s);
      StoreState(y, buff);
    }

    /** buff is not one of the tables. */
    ghost predicate Foreign(buff: array<byte>) {
      buff !in Repr()
    }

    lemma ReadyAllocated()
      requires Ready()
      ensures Allocated()
    {
    }
  }

  lemma TableSizes(p: seq<byte>, l: seq<byte>)
    requires PowerTable(p) && LogTable(l)
    ensures |p| == |l| == 256
  {
  }

  /** The key expansion of section 5.2 of FIPS 197. */
  ghost function ScheduleWord(key: seq<byte>, nk: nat, i: nat): word
    requires Width(nk) && |key| >= 4 * nk
  {
    if i < nk then Pack(key[4 * i], key[4 * i + 1], key[4 * i + 2], key[4 * i + 3])
    else
      var back, last := ScheduleWord(key, nk, i - nk), ScheduleWord(key, nk, i - 1);
      if i % nk == 0 then Xd(Xd(back, SubWord(Rotl24(last))), Rcon(i / nk - 1))
      else if nk > 6 && i % nk == 4 then Xd(back, SubWord(last))
      else Xd(back, last)
  }

  /** The words of the k-th round of the expansion loop. */
  lemma ScheduleAt(key: seq<byte>, nk: nat, k: nat, i: nat)
    requires Width(nk) && |key| >= 4 * nk && i < nk
    ensures var j := nk * (k + 1) + i;
      j >= nk
      && ScheduleWord(key, nk, j)
         == var back, last := ScheduleWord(key, nk, j - nk), ScheduleWord(key, nk, j - 1);
            if i == 0 then Xd(Xd(back, SubWord(Rotl24(last))), Rcon(k))
            else if nk > 6 && i == 4 then Xd(back, SubWord(last))
            else Xd(back, last)
  {
    hide Xd, SubWord, Rotl24, Pack;
    var j := nk * (k + 1) + i;
    assert nk * (k + 1) == (k + 1) * nk >= nk;
    Arith.DivModUnique(j, k + 1, nk, i);
  }

  ghost predicate Scheduled(w: seq<word>, key: seq<byte>, nk: nat, n: nat)
    requires Width(nk) && |key| >= 4 * nk
  {
    n <= |w| && forall i :: 0 <= i < n ==> w[i] == ScheduleWord(key, nk, i)
  }

  /** One more word without substitution. */
  lemma ChainStep(w: seq<word>, key: seq<byte>, nk: nat, k: nat, i: nat)
    requires Width(nk) && |key| >= 4 * nk && 1 <= i < nk && (nk <= 6 || i != 4)
    requires Scheduled(w, key, nk, nk * (k + 1) + i) && nk * (k + 1) + i < |w|
    ensures var j := nk * (k + 1) + i;
      j >= nk && Scheduled(w[j := Xd(w[j - nk], w[j - 1])], key, nk, j + 1)
  {
    hide Xd, SubWord, Rotl24;
    ScheduleAt(key, nk, k, i);
  }

  function Capped(x: nat, n: nat): nat { if x <= n then x else n }

  function RoundCount(nb: nat, nk: nat): nat {
    if nb >= nk then 6 + nb else 6 + nk
  }

  ghost predicate Offsets(f: seq<nat>, nb: nat, right: bool)
    requires Width(nb)
  {
    |f| == 24 && forall j :: 0 <= j < nb ==> OffsetsAt(f, nb, right, j)
  }

  ghost predicate OffsetsAt(f: seq<nat>, nb: nat, right: bool, j: nat)
    requires Width(nb) && |f| == 24 && j < nb
  {
    && f[3 * j] == (if right then Right(j, nb, 1) else Left(j, nb, 1))
    && f[3 * j + 1] == (if right then Right(j, nb, 2) else Left(j, nb, 2))
    && f[3 * j + 2] == (if right then Right(j, nb, 3) else Left(j, nb, 3))
  }

  lemma OffsetsKept(f: seq<nat>, g: seq<nat>, nb: nat, right: bool, j: nat)
    requires Width(nb) && |f| == |g| == 24 && j < nb
    requires forall i :: 0 <= i < j ==> OffsetsAt(f, nb, right, i)
    requires forall i :: 0 <= i < 3 * j ==> g[i] == f[i]
    ensures forall i :: 0 <= i < j ==> OffsetsAt(g, nb, right, i)
  {
    hide Left, Right;
    forall i | 0 <= i < j
      ensures OffsetsAt(g, nb, right, i)
    {
      assert OffsetsAt(f, nb, right, i);
    }
  }

  lemma KeyRounds(nk: nat, k: nat, n: nat)
    requires Width(nk) && nk * (k + 1) < n <= 120
    ensures k < 30
  {
    assert 4 * (k + 1) <= nk * (k + 1);
  }

  /** The part of a key array that a schedule for nb columns and nr rounds fills. */
  function Section(a: seq<word>, nb: nat, nr: nat): (w: seq<word>)
    requires nb * (nr + 1) <= |a|
    ensures |w| == nb * (nr + 1)
  {
    a[..nb * (nr + 1)]
  }

  lemma FirstKey(a: seq<word>, nb: nat, nr: nat, i: nat)
    requires Width(nb) && nb * (nr + 1) <= |a| && i < nb && Keys(Section(a, nb, nr), nb, nr)
    ensures i < |a| && KeyWord(Section(a, nb, nr), nb, nr, 0, i) == a[i]
  {
    assert nb * (nr + 1) == nb * nr + nb;
  }

  lemma GroupsKept(u: seq<word>, v: seq<word>, nb: nat, nr: nat, to: nat)
    requires Width(nb) && nr >= 1 && |u| == |v| && nb * (nr + 1) <= |u| && to <= nr && to * nb + nb <= |u|
    requires u[..to * nb] == v[..to * nb] && u[to * nb + nb..] == v[to * nb + nb..]
    ensures forall g, j :: 0 <= g <= nr && g != to && 0 <= j < nb ==>
              KeyWord(Section(v, nb, nr), nb, nr, g, j) == KeyWord(Section(u, nb, nr), nb, nr, g, j)
  {
    forall g, j | 0 <= g <= nr && g != to && 0 <= j < nb
      ensures KeyWord(Section(v, nb, nr), nb, nr, g, j) == KeyWord(Section(u, nb, nr), nb, nr, g, j)
    {
      KeyRoom(nb, nr, g);
      var t := g * nb + j;
      if g < to {
        assert g * nb + nb <= to * nb;
        assert u[..to * nb][t] == v[..to * nb][t];
      } else {
        assert to * nb + nb <= g * nb;
        assert u[to * nb + nb..][t - (to * nb + nb)] == v[to * nb + nb..][t - (to * nb + nb)];
      }
    }
  }

  /** The first nb columns of a byte buffer. */
  function Columns(b: seq<byte>, nb: nat): (s: State)
    requires |b| >= 4 * nb
    ensures |s| == nb
  {
    seq(nb, i requires 0 <= i < nb => Pack(b[4 * i], b[4 * i + 1], b[4 * i + 2], b[4 * i + 3]))
  }

  lemma ColumnAt(b: seq<byte>, nb: nat, i: nat)
    requires |b| >= 4 * nb && i < nb
    ensures Columns(b, nb)[i] == Pack(b[4 * i], b[4 * i + 1], b[4 * i + 2], b[4 * i + 3])
  {
    hide Pack;
  }

  lemma ColumnsKept(b: seq<byte>, c: seq<byte>, nb: nat, i: nat)
    requires |b| == |c| >= 4 * nb && i <= nb && forall t :: 0 <= t < 4 * i ==> b[t] == c[t]
    ensures forall k :: 0 <= k < i ==> Columns(c, nb)[k] == Columns(b, nb)[k]
  {
    hide Pack;
  }

  lemma SBoxZero()
    ensures SBox(0) == 0x63
  {
  }

  ghost function SubWord(a: word): word {
    Pack(SBox(B0(a)), SBox(B1(a)), SBox(B2(a)), SBox(B3(a)))
  }

  lemma PowerNext(i: nat)
    requires i > 0
    ensures Power(i) == Xb(Power(i - 1), Xtime(Power(i - 1)))
  {
  }

  lemma SmallIndices()
    ensures Index(0) == 0 && Index(1) == 1 && Index(3) == 3 && Octet(0) == 0 && Octet(1) == 1 && Index(0x63) == 0x63
  {
  }
}
