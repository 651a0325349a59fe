/** The cipher and the equivalent inverse cipher on whole states, section 5 of FIPS 197, for blocks of
    4, 6 or 8 columns. */
module Cipher {
  import opened Octets
  import opened Aes

  type State = seq<word>

  predicate Width(n: nat) {
    n == 4 || n == 6 || n == 8
  }

  /** How far ShiftRows turns row r. */
  function Offset(nb: nat, r: nat): nat
    requires r < 4
  {
    if r < 2 || nb < 8 then r else r + 1
  }

  function Left(j: nat, nb: nat, r: nat): nat
    requires Width(nb) && r < 4
  {
    (j + Offset(nb, r)) % nb
  }

  function Right(j: nat, nb: nat, r: nat): nat
    requires Width(nb) && r < 4 && j < nb
  {
    (nb + j - Offset(nb, r)) % nb
  }

  lemma Wrap(x: nat, nb: nat)
    requires Width(nb) && x < 2 * nb
    ensures x % nb == if x < nb then x else x - nb
  {
    if nb == 4 {
    } else if nb == 6 {
    } else {
    }
  }

  lemma LeftRight(j: nat, nb: nat, r: nat)
    requires Width(nb) && r < 4 && j < nb
    ensures Left(Right(j, nb, r), nb, r) == j
  {
    var o := Offset(nb, r);
    Wrap(nb + j - o, nb);
    Wrap(Right(j, nb, r) + o, nb);
  }

  /** SubBytes and ShiftRows. */
  ghost function SubShift(x: State): (y: State)
    requires Width(|x|)
    ensures |y| == |x|
  {
    var nb := |x|;
    seq(nb, j requires 0 <= j < nb =>
      Pack(SBox(B0(x[j])), SBox(B1(x[Left(j, nb, 1)])), SBox(B2(x[Left(j, nb, 2)])), SBox(B3(x[Left(j, nb, 3)]))))
  }

  /** InvShiftRows and InvSubBytes. */
  ghost function InvSubShift(x: State): (y: State)
    requires Width(|x|)
    ensures |y| == |x|
  {
    var nb := |x|;
    seq(nb, j requires 0 <= j < nb =>
      Pack(InvSBox(B0(x[j])), InvSBox(B1(x[Right(j, nb, 1)])),
           InvSBox(B2(x[Right(j, nb, 2)])), InvSBox(B3(x[Right(j, nb, 3)]))))
  }

  lemma SubShiftAt(x: State, j: nat)
    requires Width(|x|) && j < |x|
    ensures Left(j, |x|, 1) < |x| && Left(j, |x|, 2) < |x| && Left(j, |x|, 3) < |x|
    ensures SubShift(x)[j] == Pack(SBox(B0(x[j])), SBox(B1(x[Left(j, |x|, 1)])), SBox(B2(x[Left(j, |x|, 2)])),
                                   SBox(B3(x[Left(j, |x|, 3)])))
  {
    hide Pack, B0, B1, B2, B3, SBox, Left;
    Bounds(j, |x|);
  }

  lemma InvSubShiftAt(x: State, j: nat)
    requires Width(|x|) && j < |x|
    ensures Right(j, |x|, 1) < |x| && Right(j, |x|, 2) < |x| && Right(j, |x|, 3) < |x|
    ensures InvSubShift(x)[j] == Pack(InvSBox(B0(x[j])), InvSBox(B1(x[Right(j, |x|, 1)])),
                                      InvSBox(B2(x[Right(j, |x|, 2)])), InvSBox(B3(x[Right(j, |x|, 3)])))
  {
    hide Pack, B0, B1, B2, B3, InvSBox, Right;
    Bounds(j, |x|);
  }

  lemma SubShiftInverse(x: State)
    requires Width(|x|)
    ensures InvSubShift(SubShift(x)) == x
  {
    hide Pack, B0, B1, B2, B3, SBox, InvSBox, Left, Right;
    var nb, y := |x|, SubShift(x);
    forall j | 0 <= j < nb
      ensures InvSubShift(y)[j] == x[j]
    {
      Bounds(j, nb);
      SubShiftBytes(x, j);
      SubShiftBytes(x, Right(j, nb, 1));
      SubShiftBytes(x, Right(j, nb, 2));
      SubShiftBytes(x, Right(j, nb, 3));
      LeftRight(j, nb, 1); LeftRight(j, nb, 2); LeftRight(j, nb, 3);
      PackOfBytes(x[j]);
      SBoxInverse(B0(x[j])); SBoxInverse(B1(x[j])); SBoxInverse(B2(x[j])); SBoxInverse(B3(x[j]));
    }
  }

  lemma Bounds(j: nat, nb: nat)
    requires Width(nb) && j < nb
    ensures forall r :: 0 <= r < 4 ==> 0 <= Left(j, nb, r) < nb && 0 <= Right(j, nb, r) < nb
  {
  }

  lemma SubShiftBytes(x: State, j: nat)
    requires Width(|x|) && j < |x|
    ensures Left(j, |x|, 1) < |x| && Left(j, |x|, 2) < |x| && Left(j, |x|, 3) < |x|
    ensures var w := SubShift(x)[j];
      B0(w) == SBox(B0(x[j])) && B1(w) == SBox(B1(x[Left(j, |x|, 1)]))
      && B2(w) == SBox(B2(x[Left(j, |x|, 2)])) && B3(w) == SBox(B3(x[Left(j, |x|, 3)]))
  {
    hide Pack, B0, B1, B2, B3, SBox, Left;
    Bounds(j, |x|);
    BytesOfPack(SBox(B0(x[j])), SBox(B1(x[Left(j, |x|, 1)])), SBox(B2(x[Left(j, |x|, 2)])),
        SBox(B3(x[Left(j, |x|, 3)])));
  }

  function MixCols(x: State): (y: State)
    ensures |y| == |x|
  {
    seq(|x|, j requires 0 <= j < |x| => MixCol(x[j]))
  }

  function InvMixCols(x: State): (y: State)
    ensures |y| == |x|
  {
    seq(|x|, j requires 0 <= j < |x| => InvMixCol(x[j]))
  }

  predicate Keys(w: seq<word>, nb: nat, nr: nat) {
    Width(nb) && nr >= 1 && |w| == nb * (nr + 1)
  }

  lemma KeyRoom(nb: nat, nr: nat, r: nat)
    requires r <= nr
    ensures r * nb + nb <= nb * (nr + 1)
  {
    assert (nr - r) * nb >= 0;
    assert nb * (nr + 1) == r * nb + nb + (nr - r) * nb;
  }

  /** Word j of group r of a key schedule. */
  function KeyWord(w: seq<word>, nb: nat, nr: nat, r: nat, j: nat): word
    requires Keys(w, nb, nr) && r <= nr && j < nb
  {
    KeyRoom(nb, nr, r);
    w[r * nb + j]
  }

  /** Group r of the key schedule, added to the state. */
  function AddKey(x: State, w: seq<word>, nr: nat, r: nat): (y: State)
    requires Keys(w, |x|, nr) && r <= nr
    ensures |y| == |x|
  {
    seq(|x|, j requires 0 <= j < |x| => Xd(KeyWord(w, |x|, nr, r, j), x[j]))
  }

  /** One round of the cipher; the last one does not mix. */
  ghost function ForwardStep(x: State, w: seq<word>, nr: nat, r: nat, last: bool): (y: State)
    requires Keys(w, |x|, nr) && r <= nr
    ensures |y| == |x|
  {
    if last then AddKey(SubShift(x), w, nr, r) else AddKey(MixCols(SubShift(x)), w, nr, r)
  }

  lemma ForwardStepAt(x: State, w: seq<word>, nr: nat, r: nat, last: bool, j: nat)
    requires Keys(w, |x|, nr) && r <= nr && j < |x|
    ensures r * |x| + j < |w|
    ensures ForwardStep(x, w, nr, r, last)[j]
         == Xd(w[r * |x| + j], if last then SubShift(x)[j] else MixCol(SubShift(x)[j]))
  {
    hide SubShift, MixCol, Xd;
    KeyRoom(|x|, nr, r);
  }

  /** One round of the equivalent inverse cipher. */
  ghost function ReverseStep(x: State, w: seq<word>, nr: nat, r: nat, last: bool): (y: State)
    requires Keys(w, |x|, nr) && r <= nr
    ensures |y| == |x|
  {
    if last then AddKey(InvSubShift(x), w, nr, r) else AddKey(InvMixCols(InvSubShift(x)), w, nr, r)
  }

  lemma ReverseStepAt(x: State, w: seq<word>, nr: nat, r: nat, last: bool, j: nat)
    requires Keys(w, |x|, nr) && r <= nr && j < |x|
    ensures r * |x| + j < |w|
    ensures ReverseStep(x, w, nr, r, last)[j]
         == Xd(w[r * |x| + j], if last then InvSubShift(x)[j] else InvMixCol(InvSubShift(x)[j]))
  {
    hide InvSubShift, InvMixCol, Xd;
    KeyRoom(|x|, nr, r);
  }

  /** The state after round r < nr of the cipher. */
  ghost function Rounds(s: State, w: seq<word>, nr: nat, r: nat): (y: State)
    requires Keys(w, |s|, nr) && r < nr
    ensures |y| == |s|
  {
    if r == 0 then AddKey(s, w, nr, 0) else AddKey(MixCols(SubShift(Rounds(s, w, nr, r - 1))), w, nr, r)
  }

  ghost function Encrypt(s: State, w: seq<word>, nr: nat): (y: State)
    requires Keys(w, |s|, nr)
    ensures |y| == |s|
  {
    AddKey(SubShift(Rounds(s, w, nr, nr - 1)), w, nr, nr)
  }

  /** The state after round r < nr of the equivalent inverse cipher. */
  ghost function InvRounds(s: State, v: seq<word>, nr: nat, r: nat): (y: State)
    requires Keys(v, |s|, nr) && r < nr
    ensures |y| == |s|
  {
    if r == 0 then AddKey(s, v, nr, 0) else AddKey(InvMixCols(InvSubShift(InvRounds(s, v, nr, r - 1))), v, nr, r)
  }

  ghost function Decrypt(s: State, v: seq<word>, nr: nat): (y: State)
    requires Keys(v, |s|, nr)
    ensures |y| == |s|
  {
    AddKey(InvSubShift(InvRounds(s, v, nr, nr - 1)), v, nr, nr)
  }

  /** The decryption schedule v: the groups of the encryption schedule w in reverse order, the inner ones
      passed through InvMixColumns, section 5.3.5 of FIPS 197. */
  predicate Equivalent(w: seq<word>, v: seq<word>, nb: nat, nr: nat) {
    && Keys(w, nb, nr) && Keys(v, nb, nr)
    && forall r, j :: 0 <= r <= nr && 0 <= j < nb ==>
         KeyWord(v, nb, nr, r, j)
         == if r == 0 || r == nr then KeyWord(w, nb, nr, nr - r, j) else InvMixCol(KeyWord(w, nb, nr, nr - r, j))
  }

  lemma KeyCancels(x: State, w: seq<word>, v: seq<word>, nr: nat, r: nat)
    requires Equivalent(w, v, |x|, nr) && (r == 0 || r == nr)
    ensures AddKey(AddKey(x, w, nr, nr - r), v, nr, r) == x
  {
    hide Xd, KeyWord;
    var y := AddKey(x, w, nr, nr - r);
    forall j | 0 <= j < |x|
      ensures AddKey(y, v, nr, r)[j] == x[j]
    {
      var k := KeyWord(w, |x|, nr, nr - r, j);
      XdComm(k, x[j]);
      XdComm(k, Xd(x[j], k));
      XdSelf(x[j], k);
    }
  }

  /** An inner round of the inverse cipher takes back a round of the cipher. */
  lemma RoundCancels(x: State, w: seq<word>, v: seq<word>, nr: nat, r: nat)
    requires Equivalent(w, v, |x|, nr) && 0 < r < nr
    ensures AddKey(InvMixCols(AddKey(MixCols(x), w, nr, nr - r)), v, nr, r) == x
  {
    hide Xd, KeyWord, MixCol, InvMixCol;
    var y := AddKey(MixCols(x), w, nr, nr - r);
    forall j | 0 <= j < |x|
      ensures AddKey(InvMixCols(y), v, nr, r)[j] == x[j]
    {
      var k := KeyWord(w, |x|, nr, nr - r, j);
      InvMixColXor(k, MixCol(x[j]));
      InvMixMix(x[j]);
      XdComm(InvMixCol(k), x[j]);
      XdComm(InvMixCol(k), Xd(x[j], InvMixCol(k)));
      XdSelf(x[j], InvMixCol(k));
    }
  }

  /** After r rounds the inverse cipher has reached the substituted state of round nr - 1 - r. */
  lemma {:induction false} InverseRound(s: State, w: seq<word>, v: seq<word>, nr: nat, r: nat)
    requires Equivalent(w, v, |s|, nr) && r < nr
    ensures InvRounds(Encrypt(s, w, nr), v, nr, r) == SubShift(Rounds(s, w, nr, nr - 1 - r))
  {
    hide AddKey, SubShift, InvSubShift, MixCols, InvMixCols, Equivalent;
    EquivalentKeys(w, v, |s|, nr);
    if r == 0 {
      KeyCancels(SubShift(Rounds(s, w, nr, nr - 1)), w, v, nr, 0);
    } else {
      InverseRound(s, w, v, nr, r - 1);
      SubShiftInverse(Rounds(s, w, nr, nr - r));
      RoundCancels(SubShift(Rounds(s, w, nr, nr - r - 1)), w, v, nr, r);
    }
  }

  lemma EquivalentKeys(w: seq<word>, v: seq<word>, nb: nat, nr: nat)
    requires Equivalent(w, v, nb, nr)
    ensures Keys(w, nb, nr) && Keys(v, nb, nr)
  {
  }

  /** Decryption undoes encryption, for every block width and number of rounds. */
  lemma DecryptEncrypt(s: State, w: seq<word>, v: seq<word>, nr: nat)
    requires Equivalent(w, v, |s|, nr)
    ensures Decrypt(Encrypt(s, w, nr), v, nr) == s
  {
    hide AddKey, SubShift, InvSubShift, Equivalent;
    EquivalentKeys(w, v, |s|, nr);
    InverseRound(s, w, v, nr, nr - 1);
    SubShiftInverse(Rounds(s, w, nr, 0));
    KeyCancels(s, w, v, nr, nr);
  }
}
