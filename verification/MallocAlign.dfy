/** Alignment arithmetic of memalign in wiinandfuse/geckonand/malloc.c. */
module Aligning {
  import opened Arith
  import opened Sizes

  /** x & y */
  function BitAnd(x: nat, y: nat): (r: nat)
    ensures r <= x
  {
    if x == 0 then 0 else (if x % 2 == 1 && y % 2 == 1 then 1 else 0) + 2 * BitAnd(x / 2, y / 2)
  }

  /** BitAnd of numbers given by their last bit and the rest. */
  lemma BitAndStep(x: nat, b: nat, y: nat, c: nat)
    requires b <= 1 && c <= 1
    ensures BitAnd(2 * x + b, 2 * y + c) == b * c + 2 * BitAnd(x, y)
  {
    assert (2 * x + b) / 2 == x && (2 * y + c) / 2 == y;
    if 2 * x + b == 0 { assert BitAnd(x, y) == 0; }
  }

  lemma {:induction false} BitAndSelf(x: nat)
    ensures BitAnd(x, x) == x
  {
    hide BitAnd;
    if x == 0 {
    } else {
      BitAndSelf(x / 2);
      BitAndStep(x / 2, x % 2, x / 2, x % 2);
      assert (x % 2) * (x % 2) == x % 2;
    }
  }

  ghost predicate IsPower(a: nat) {
    exists k: nat :: a == Pow2(k)
  }

  lemma PowerDoubles(a: nat)
    ensures IsPower(2 * a) <==> IsPower(a)
  {
    if IsPower(a) {
      var k: nat :| a == Pow2(k);
      assert 2 * a == Pow2(k + 1);
    }
    if IsPower(2 * a) {
      var k: nat :| 2 * a == Pow2(k);
      assert k > 0 && a == Pow2(k - 1);
    }
  }

  lemma OddPower(a: nat)
    requires a % 2 == 1
    ensures IsPower(a) <==> a == 1
  {
    assert Pow2(0) == 1;
    if IsPower(a) {
      var k: nat :| a == Pow2(k);
      assert k > 0 ==> a == 2 * Pow2(k - 1);
    }
  }

  /** a & (a - 1) is zero exactly for the powers of two. */
  lemma {:induction false} PowerTest(a: nat)
    requires a > 0
    ensures BitAnd(a, a - 1) == 0 <==> IsPower(a)
  {
    hide BitAnd, IsPower;
    var h := a / 2;
    if a % 2 == 1 {
      OddPower(a);
      BitAndSelf(h);
      BitAndStep(h, 1, h, 0);
    } else {
      PowerTest(h);
      PowerDoubles(h);
      BitAndStep(h, 0, h - 1, 1);
    }
  }

  // ---------- the loop that rounds an alignment up ----------

  /** a <<= 1 */
  function Doubled(a: nat): nat { a * 2 % WORD }

  /** The 32-bit loop variable after k turns. */
  function Turned(k: nat): (a: nat)
    ensures a < WORD
  {
    if k == 0 then 16 else Doubled(Turned(k - 1))
  }

  lemma {:induction false} TurnedValue(k: nat)
    ensures Turned(k) == if k < 28 then Pow2(k + 4) else 0
    ensures k < 28 ==> 16 <= Turned(k) <= 0x8000_0000
  {
    hide Pow2, Turned;
    Pow2Values();
    Pow2Less(4, k + 4);
    if k < 28 { Pow2Less(k + 4, 31); }
    TurnedStep(k);
    if k > 0 {
      TurnedValue(k - 1);
      Pow2Double(k + 3);
    }
  }

  lemma TurnedStep(k: nat)
    ensures k == 0 ==> Turned(k) == 16
    ensures k > 0 ==> Turned(k) == Doubled(Turned(k - 1))
    ensures k > 0 && Turned(k - 1) < 0x8000_0000 ==> Turned(k) == 2 * Turned(k - 1)
    ensures k > 0 && Turned(k - 1) == 0x8000_0000 ==> Turned(k) == 0
  {
  }

  lemma Pow2Double(k: nat)
    ensures Pow2(k + 1) == 2 * Pow2(k)
  {
  }

  /** memalign gets past its rounding: the alignment is a power of two, or the loop variable reaches it. */
  ghost predicate RoundingEnds(a: nat)
    requires a > 0
  {
    BitAnd(a, a - 1) == 0 || exists k {:trigger Turned(k)} :: Turned(k) >= a
  }

  lemma PowersBelowWord(k: nat)
    requires Pow2(k) < WORD
    ensures Pow2(k) <= 0x8000_0000
  {
    hide Pow2;
    Pow2Values();
    if k >= 32 { Pow2Less(32, k); }
    Pow2Grows(k, 31);
  }

  /** Rounding ends exactly for the alignments up to 2^31: above that nothing is a power of two, and the loop variable
      goes from 2^31 to 0 and stays there. */
  lemma RoundingLoop(a: nat)
    requires 0 < a < WORD
    ensures RoundingEnds(a) <==> a <= 0x8000_0000
  {
    hide BitAnd, Pow2, Turned;
    PowerTest(a);
    if a <= 0x8000_0000 {
      TurnedValue(27);
      Pow2Values();
      assert Turned(27) >= a;
    } else {
      if IsPower(a) {
        var k: nat :| a == Pow2(k);
        PowersBelowWord(k);
      }
      forall k: nat
        ensures Turned(k) < a
      {
        TurnedValue(k);
      }
    }
  }

  /** The first value of the loop variable, from turn k on, that reaches a. */
  function FirstTurn(a: nat, k: nat): nat
    requires k <= 27
    decreases 27 - k
  {
    if Turned(k) >= a || k == 27 then Turned(k) else FirstTurn(a, k + 1)
  }

  /** The alignment that memalign works with: the first of 16, 32, and so on that reaches the one asked for. */
  function Rounded(a: nat): nat {
    FirstTurn(a, 0)
  }

  lemma TurnedGrows(i: nat, j: nat)
    requires i <= j <= 27
    ensures Turned(i) <= Turned(j)
  {
    hide Turned, Pow2;
    TurnedValue(i);
    TurnedValue(j);
    Pow2Less(i + 4, j + 4);
  }

  lemma {:induction false} FirstTurnIs(a: nat, k: nat, j: nat)
    requires k <= j <= 27 && Turned(j) >= a && (j == 0 || Turned(j - 1) < a)
    ensures FirstTurn(a, k) == Turned(j)
    decreases j - k
  {
    hide Turned;
    if k < j {
      TurnedGrows(k, j - 1);
      FirstTurnIs(a, k + 1, j);
    }
  }

  /** The result of the rounding is a power of two from 16 to 2^31 that reaches the alignment, and is below twice it
      or 16. */
  lemma RoundedPower(a: nat, k: nat)
    requires a <= 0x8000_0000 && 4 <= k <= 31 && Pow2(k) >= a && (k == 4 || Pow2(k - 1) < a)
    ensures Rounded(a) == Pow2(k)
  {
    hide Turned, Pow2;
    TurnedValue(k - 4);
    if k > 4 { TurnedValue(k - 5); }
    FirstTurnIs(a, 0, k - 4);
  }

  lemma RoundingHangs()
    ensures !RoundingEnds(0x8000_0001) && RoundingEnds(0x8000_0000)
  {
    RoundingLoop(0x8000_0001);
    RoundingLoop(0x8000_0000);
  }

  function RoundedDown(x: nat, m: nat): nat
    requires m > 0
  {
    x - x % m
  }

  /** Masking with the negative of a power of two rounds down to a multiple of it. */
  lemma {:induction false} MaskRounds(x: nat, k: nat, n: nat)
    requires k <= n && x < Pow2(n)
    ensures Pow2(n) >= Pow2(k) && BitAnd(x, Pow2(n) - Pow2(k)) == RoundedDown(x, Pow2(k))
    decreases k, n
  {
    hide BitAnd, Pow2, RoundedDown;
    Pow2Values();
    Pow2Less(k, n);
    if n == 0 {
      ByOne(x);
      BitAndNothing(0);
    } else {
      var p := Pow2(n - 1);
      Pow2Double(n - 1);
      HalfBelow(x, p);
      if k > 0 {
        Pow2Double(k - 1);
        MaskRounds(x / 2, k - 1, n - 1);
        MaskStep(x, p, Pow2(k - 1));
      } else {
        MaskRounds(x / 2, 0, n - 1);
        ByOne(x);
        ByOne(x / 2);
        MaskOnes(x, p);
      }
    }
  }

  lemma HalfBelow(x: nat, p: nat)
    requires x < 2 * p
    ensures x / 2 < p
  {
  }

  lemma ByOne(x: nat)
    ensures RoundedDown(x, 1) == x
  {
  }

  lemma MaskStep(x: nat, p: nat, q: nat)
    requires p >= q > 0 && BitAnd(x / 2, p - q) == RoundedDown(x / 2, q)
    ensures BitAnd(x, 2 * p - 2 * q) == RoundedDown(x, 2 * q)
  {
    hide BitAnd;
    BitAndStep(x / 2, x % 2, p - q, 0);
    HalfMod(x, q);
  }

  lemma MaskOnes(x: nat, p: nat)
    requires p >= 1 && BitAnd(x / 2, p - 1) == x / 2
    ensures BitAnd(x, 2 * p - 1) == x
  {
    hide BitAnd;
    BitAndStep(x / 2, x % 2, p - 1, 1);
  }

  lemma BitAndNothing(y: nat)
    ensures BitAnd(0, y) == 0
  {
  }

  lemma HalfMod(x: nat, m: nat)
    requires m > 0
    ensures 2 * (x / 2 - (x / 2) % m) == x - x % (2 * m)
  {
    var h := x / 2;
    var q, r := h / m, h % m;
    assert h == q * m + r;
    assert x == q * (2 * m) + (2 * r + x % 2);
    DivModUnique(x, q, 2 * m, 2 * r + x % 2);
  }

  /** The first multiple of 2^k at or above x. */
  lemma RoundsUp(x: nat, k: nat)
    requires 3 <= k <= 31 && x + Pow2(k) - 1 < WORD
    ensures var a: int := Pow2(k);
      var r := BitAnd(x + a - 1, W32(-a));
      x <= r < x + a && r % a == 0 && r % 8 == 0 && a % 8 == 0
  {
    var a := Pow2(k);
    Pow2Values();
    Pow2Less(k, 31);
    Pow2Add(3, k - 3);
    assert Pow2(3) == 8;
    hide Pow2, BitAnd;
    MaskRounds(x + a - 1, k, 32);
    Wrapped(a);
    Floored(x + a - 1, a);
    EightDivides(x + a - 1 - (x + a - 1) % a, a, Pow2(k - 3));
  }

  lemma Wrapped(a: int)
    requires 0 < a < WORD
    ensures W32(-a) == WORD - a
  {
  }

  lemma Floored(y: int, a: int)
    requires a > 0
    ensures (y - y % a) % a == 0 && 0 <= y % a < a
  {
    assert y == (y / a) * a + y % a;
    ModOfMultiple(y / a, a);
  }

  lemma EightDivides(r: int, a: int, c: int)
    requires a == 8 * c && c > 0 && r % a == 0
    ensures r % 8 == 0 && a % 8 == 0
  {
    var q := r / a;
    assert r == q * a;
    assert q * a == (q * c) * 8;
    ModOfMultiple(q * c, 8);
  }
}
