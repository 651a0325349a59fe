/** Bytes of words in memory, most significant first, and memcpy on them: wiinandfuse/geckonand/malloc.c. */
module Copying {
  import opened Arith
  import opened Chunks

  /** Byte number k of a word: the PowerPC keeps the most significant byte first. */
  function ByteOf(w: int, k: int): int
    requires 0 <= k < 4
  {
    if k == 0 then w / 0x100_0000 % 256
    else if k == 1 then w / 0x1_0000 % 256
    else if k == 2 then w / 0x100 % 256
    else w % 256
  }

  /** The byte at address a. */
  function ByteAt(m: Mem, a: int): int {
    ByteOf(Get(m, a - a % 4), a % 4)
  }

  function Lesser(a: int, b: int): int { if a < b then a else b }

  function WordAt(a: int, k: int): int { a + 4 * k }

  ghost predicate WordsCopied(m0: Mem, m: Mem, dst: int, src: int, n: int) {
    forall k {:trigger WordAt(dst, k)} :: 0 <= k < n ==> Get(m, WordAt(dst, k)) == Get(m0, WordAt(src, k))
  }

  ghost predicate ByteCopied(m0: Mem, m: Mem, dst: int, src: int, i: int) {
    ByteAt(m, dst + i) == ByteAt(m0, src + i)
  }

  ghost predicate BytesCopied(m0: Mem, m: Mem, dst: int, src: int, n: int) {
    forall i {:trigger ByteCopied(m0, m, dst, src, i)} :: 0 <= i < n ==> ByteCopied(m0, m, dst, src, i)
  }

  /** The first r bytes of s and the rest of d. */
  function Spliced(s: int, d: int, r: int): int
    requires 0 < r < 4
  {
    if r == 1 then s - s % 0x100_0000 + d % 0x100_0000
    else if r == 2 then s - s % 0x1_0000 + d % 0x1_0000
    else s - s % 0x100 + d % 0x100
  }

  lemma SplicedBytes(s: int, d: int, r: int, k: int)
    requires 0 < r < 4 && 0 <= k < r
    ensures ByteOf(Spliced(s, d, r), k) == ByteOf(s, k)
  {
    var x := Spliced(s, d, r);
    if r == 1 {
      SameHigh(s, d % 0x100_0000, 0x100_0000, x);
    } else if r == 2 {
      SameHigh(s, d % 0x1_0000, 0x1_0000, x);
      HighParts(s);
      HighParts(x);
    } else {
      SameHigh(s, d % 0x100, 0x100, x);
      HighParts(s);
      HighParts(x);
    }
  }

  lemma SameHigh(s: int, t: int, m: int, x: int)
    requires m > 0 && 0 <= t < m && x == s - s % m + t
    ensures x / m == s / m
  {
    assert s == (s / m) * m + s % m;
    DivModUnique(x, s / m, m, t);
  }

  lemma HighParts(s: int)
    ensures s / 0x100_0000 == s / 0x1_0000 / 256 && s / 0x1_0000 == s / 0x100 / 256
  {
  }

  /** Whole words and the beginning of a last one make up the bytes. */
  lemma BytesOfWords(m0: Mem, m: Mem, dst: int, src: int, n: int, d: int)
    requires n >= 0 && dst % 4 == 0 && src % 4 == 0 && WordsCopied(m0, m, dst, src, n / 4)
    requires n % 4 != 0 ==> Get(m, WordAt(dst, n / 4)) == Spliced(Get(m0, WordAt(src, n / 4)), d, n % 4)
    ensures BytesCopied(m0, m, dst, src, n)
  {
    hide Spliced, Get, ByteOf;
    forall i | 0 <= i < n
      ensures ByteCopied(m0, m, dst, src, i)
    {
      var k, b := i / 4, i % 4;
      Position(dst, i);
      Position(src, i);
      if k < n / 4 {
        assert Get(m, WordAt(dst, k)) == Get(m0, WordAt(src, k));
      } else {
        SplicedBytes(Get(m0, WordAt(src, k)), d, n % 4, b);
      }
    }
  }

  lemma Position(a: int, i: int)
    requires a % 4 == 0 && i >= 0
    ensures (a + i) % 4 == i % 4 && a + i - (a + i) % 4 == WordAt(a, i / 4)
  {
  }

  /** Bytes of a block that has not been disturbed. */
  lemma BytesStay(m0: Mem, m: Mem, m': Mem, dst: int, src: int, n: int, size: int)
    requires BytesCopied(m0, m, dst, src, n) && dst % 4 == 0 && Undisturbed(m, m', dst - 8, size) && n <= size - 4
    ensures BytesCopied(m0, m', dst, src, n)
  {
    hide ByteOf;
    forall i | 0 <= i < n
      ensures ByteCopied(m0, m', dst, src, i)
    {
      assert ByteCopied(m0, m, dst, src, i);
      Position(dst, i);
    }
  }

  /** A block left alone has its own bytes. */
  lemma BytesSelf(m0: Mem, m: Mem, dst: int, n: int, size: int)
    requires dst % 4 == 0 && Undisturbed(m0, m, dst - 8, size) && n <= size - 4
    ensures BytesCopied(m0, m, dst, dst, n)
  {
    hide ByteOf;
    forall i | 0 <= i < n
      ensures ByteCopied(m0, m, dst, dst, i)
    {
      Position(dst, i);
    }
  }

  lemma BytesCompose(m0: Mem, m1: Mem, m2: Mem, dst: int, src: int, n: int)
    requires BytesCopied(m0, m1, src, src, n) && BytesCopied(m1, m2, dst, src, n)
    ensures BytesCopied(m0, m2, dst, src, n)
  {
    hide ByteAt;
    forall i | 0 <= i < n
      ensures ByteCopied(m0, m2, dst, src, i)
    {
      assert ByteCopied(m0, m1, src, src, i) && ByteCopied(m1, m2, dst, src, i);
    }
  }

  /** The last, partial, word is written behind the whole ones. */
  lemma LastWordCopied(m0: Mem, m1: Mem, m2: Mem, p: int, q: int, n: int, words: int, rest: int, d: int)
    requires Aligned(p) && Aligned(q) && words >= 0 && n == 4 * words + rest && 0 < rest < 4
      && WordsCopied(m0, m1, p + 8, q + 8, words)
    requires m2 == m1[WordAt(p + 8, words) := Spliced(Get(m0, WordAt(q + 8, words)), d, rest)]
    ensures BytesCopied(m0, m2, p + 8, q + 8, n)
  {
    Quarter(n, words, rest);
    Payload4(p);
    Payload4(q);
    hide Spliced, BytesCopied, Aligned;
    var dst, src := p + 8, q + 8;
    forall k {:trigger WordAt(dst, k)} | 0 <= k < words
      ensures Get(m2, WordAt(dst, k)) == Get(m0, WordAt(src, k))
    {
      assert Get(m1, WordAt(dst, k)) == Get(m0, WordAt(src, k));
    }
    BytesOfWords(m0, m2, dst, src, n, d);
  }

  /** Whole words only. */
  lemma AllWordsCopied(m0: Mem, m: Mem, p: int, q: int, n: int, words: int)
    requires Aligned(p) && Aligned(q) && words >= 0 && n == 4 * words && WordsCopied(m0, m, p + 8, q + 8, words)
    ensures BytesCopied(m0, m, p + 8, q + 8, n)
  {
    Quarter(n, words, 0);
    Payload4(p);
    Payload4(q);
    hide Spliced, BytesCopied, Aligned, WordsCopied;
    BytesOfWords(m0, m, p + 8, q + 8, n, 0);
  }

  lemma Quarter(n: int, words: int, rest: int)
    requires words >= 0 && n == 4 * words + rest && 0 <= rest < 4
    ensures n / 4 == words && n % 4 == rest
  {
    DivModUnique(n, words, 4, rest);
  }

  lemma Payload4(p: int)
    requires Aligned(p)
    ensures (p + 8) % 4 == 0
  {
    DivModUnique(p + 8, 2 * (p / 8) + 2, 4, 0);
  }
}
