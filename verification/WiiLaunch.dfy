/** The argument block of NANDBOOTINFO: libwc24/nandinftool/source/wiilaunch.c. */
module WiiLaunch {
  import opened Arith

  type byte = x: int | 0 <= x < 256

  /** A C string: no NUL inside. */
  type CString = s: seq<byte> | forall i :: 0 <= i < |s| ==> s[i] != 0 witness []

  const ARGS := 0x20
  const SIZE := 0x1020
  const ROOM := 0x1000

  datatype Code = Okay | NotInit | TooBig | BadChecksum

  // ---------- big-endian words ----------

  /** be32toh of the word at i. */
  function Word(b: seq<byte>, i: nat): nat
    requires i + 4 <= |b|
  {
    var b0: int, b1: int, b2: int, b3: int := b[i], b[i + 1], b[i + 2], b[i + 3];
    0x100_0000 * b0 + 0x1_0000 * b1 + 0x100 * b2 + b3
  }

  /** The bytes with htobe32 of v at i. */
  function WithWord(b: seq<byte>, i: nat, v: nat): (b': seq<byte>)
    requires i + 4 <= |b|
    ensures |b'| == |b| && forall k :: 0 <= k < |b| && !(i <= k < i + 4) ==> b'[k] == b[k]
  {
    b[i := v / 0x100_0000 % 0x100][i + 1 := v / 0x1_0000 % 0x100][i + 2 := v / 0x100 % 0x100][i + 3 := v % 0x100]
  }

  lemma WordStored(b: seq<byte>, i: nat, v: nat)
    requires i + 4 <= |b| && v < 0x1_0000_0000
    ensures Word(WithWord(b, i, v), i) == v
  {
    var u := v / 0x100;
    var t := u / 0x100;
    DivModUnique(v, t, 0x1_0000, u % 0x100 * 0x100 + v % 0x100);
    DivModUnique(v, t / 0x100, 0x100_0000, t % 0x100 * 0x1_0000 + u % 0x100 * 0x100 + v % 0x100);
  }

  lemma WordKept(b: seq<byte>, i: nat, v: nat, j: nat)
    requires i + 4 <= |b| && j + 4 <= |b| && (j + 4 <= i || i + 4 <= j)
    ensures Word(WithWord(b, i, v), j) == Word(b, j)
  {
  }

  // ---------- the checksum ----------

  /** The sum of words 1 to n - 1, modulo 2^32. */
  function SumTo(b: seq<byte>, n: nat): nat
    requires n >= 1 && 4 * n <= |b|
  {
    if n == 1 then 0 else (SumTo(b, n - 1) + Word(b, 4 * (n - 1))) % 0x1_0000_0000
  }

  lemma {:induction false} SumIgnoresFirst(b: seq<byte>, v: nat, n: nat)
    requires n >= 1 && 4 * n <= |b|
    ensures SumTo(WithWord(b, 0, v), n) == SumTo(b, n) < 0x1_0000_0000
    decreases n
  {
    hide Word, WithWord;
    if n > 1 {
      SumIgnoresFirst(b, v, n - 1);
      WordKept(b, 0, v, 4 * (n - 1));
    }
  }

  /** Changing one summed word by some amount changes the sum by that amount, modulo 2^32. */
  lemma {:induction false} SumMoves(b: seq<byte>, k: nat, v: nat, n: nat)
    requires 1 <= k < n && 4 * n <= |b| && v < 0x1_0000_0000
    ensures SumTo(WithWord(b, 4 * k, v), n) == (SumTo(b, n) - Word(b, 4 * k) + v) % 0x1_0000_0000
    decreases n
  {
    hide Word, WithWord, SumTo;
    var b' := WithWord(b, 4 * k, v);
    SumNext(b, n - 1);
    SumNext(b', n - 1);
    if k < n - 1 {
      SumMoves(b, k, v, n - 1);
      WordKept(b, 4 * k, v, 4 * (n - 1));
      Regroup(SumTo(b, n - 1), Word(b, 4 * k), v, Word(b, 4 * (n - 1)));
    } else {
      SumBefore(b, k, v, k);
      WordStored(b, 4 * k, v);
      ModAddLeft(SumTo(b, k) + Word(b, 4 * k), v - Word(b, 4 * k), 0x1_0000_0000);
    }
  }

  lemma SumNext(b: seq<byte>, n: nat)
    requires n >= 1 && 4 * n + 4 <= |b|
    ensures SumTo(b, n + 1) == (SumTo(b, n) + Word(b, 4 * n)) % 0x1_0000_0000
  {
  }

  lemma Regroup(s: int, w: int, v: int, x: int)
    ensures ((s - w + v) % 0x1_0000_0000 + x) % 0x1_0000_0000
         == ((s + x) % 0x1_0000_0000 - w + v) % 0x1_0000_0000
  {
    ModAddLeft(s - w + v, x, 0x1_0000_0000);
    ModAddLeft(s + x, v - w, 0x1_0000_0000);
  }

  lemma {:induction false} SumBefore(b: seq<byte>, k: nat, v: nat, n: nat)
    requires 1 <= n <= k && 4 * k + 4 <= |b|
    ensures SumTo(WithWord(b, 4 * k, v), n) == SumTo(b, n)
  {
    hide Word, WithWord;
    if n > 1 {
      SumBefore(b, k, v, n - 1);
      WordKept(b, 4 * k, v, 4 * (n - 1));
    }
  }

  /** A block that passes its checksum does not after a change of any one summed word. */
  lemma ChangeShows(b: seq<byte>, k: nat, v: nat)
    requires |b| == SIZE && 1 <= k < SIZE / 4 && v < 0x1_0000_0000 && v != Word(b, 4 * k)
    requires Word(b, 0) == SumTo(b, SIZE / 4)
    ensures var b' := WithWord(b, 4 * k, v); Word(b', 0) != SumTo(b', SIZE / 4)
  {
    SumMoves(b, k, v, SIZE / 4);
    WordKept(b, 4 * k, v, 0);
    var s, w := SumTo(b, SIZE / 4), Word(b, 4 * k);
    SumIgnoresFirst(b, 0, SIZE / 4);
    WordBound(b, 4 * k);
    hide SumTo, Word, WithWord;
    ShiftedAway(s, v - w);
  }

  lemma WordBound(b: seq<byte>, i: nat)
    requires i + 4 <= |b|
    ensures Word(b, i) < 0x1_0000_0000
  {
  }

  lemma ShiftedAway(s: int, d: int)
    requires 0 <= s < 0x1_0000_0000 && d != 0 && -0x1_0000_0000 < d < 0x1_0000_0000
    ensures (s + d) % 0x1_0000_0000 != s
  {
    if s + d < 0 {
      DivModUnique(s + d, -1, 0x1_0000_0000, s + d + 0x1_0000_0000);
    } else if s + d < 0x1_0000_0000 {
      DivModUnique(s + d, 0, 0x1_0000_0000, s + d);
    } else {
      DivModUnique(s + d, 1, 0x1_0000_0000, s + d - 0x1_0000_0000);
    }
  }

  // ---------- where things go ----------

  /** The bytes that the first n strings take, with their NULs. */
  function Length(args: seq<CString>, n: nat): nat
    requires n <= |args|
  {
    if n == 0 then 0 else Length(args, n - 1) + |args[n - 1]| + 1
  }

  /** The bytes that the whole block takes: strings rounded up to words, offsets, count and end mark. */
  function BlockLength(args: seq<CString>): nat {
    (Length(args, |args|) + 3) / 4 * 4 + 4 * |args| + 8
  }

  /** The place of string i in the argument buffer. */
  function StringPlace(args: seq<CString>, i: nat): int
    requires i <= |args|
  {
    ROOM - Length(args, |args|) + Length(args, i)
  }

  /** The place of the count; the offsets follow. */
  function CountPlace(args: seq<CString>): int {
    ROOM - BlockLength(args)
  }

  lemma {:induction false} LengthGrows(args: seq<CString>, i: nat, j: nat)
    requires i <= j <= |args|
    ensures Length(args, i) + (j - i) <= Length(args, j)
    ensures i < j ==> Length(args, i) + |args[i]| + 1 <= Length(args, j)
    decreases j
  {
    if i < j {
      LengthGrows(args, i, j - 1);
    }
  }

  /** The table of count and offsets ends before the strings, and string i ends before string j. */
  lemma PartsApart(args: seq<CString>, i: nat, j: nat)
    requires BlockLength(args) <= ROOM && i < j <= |args|
    ensures 0 <= CountPlace(args) && CountPlace(args) % 4 == 0
    ensures CountPlace(args) + 4 + 4 * |args| + 4 <= StringPlace(args, i)
    ensures StringPlace(args, i) + |args[i]| + 1 <= StringPlace(args, j) <= ROOM
  {
    LengthGrows(args, 0, i);
    LengthGrows(args, i, j);
    LengthGrows(args, j, |args|);
    TableEnds(args);
  }

  lemma TableEnds(args: seq<CString>)
    requires BlockLength(args) <= ROOM
    ensures 0 <= CountPlace(args) && CountPlace(args) % 4 == 0
    ensures CountPlace(args) + 8 + 4 * |args| <= ROOM - Length(args, |args|)
  {
    var w := (Length(args, |args|) + 3) / 4;
    ModOfMultiple(0x400 - w - |args| - 2, 4);
  }

  /** String i is in the buffer, with its NUL. */
  ghost predicate StringStored(b: seq<byte>, args: seq<CString>, i: nat) {
    && |b| == SIZE && i < |args| && var p := ARGS + StringPlace(args, i);
    0 <= p && p + |args[i]| < SIZE && b[p..p + |args[i]|] == args[i] && b[p + |args[i]|] == 0
  }

  /** The offset of string i is in the table. */
  ghost predicate OffsetStored(b: seq<byte>, args: seq<CString>, i: nat) {
    && |b| == SIZE && i < |args| && var p := ARGS + CountPlace(args) + 4 + 4 * i;
    0 <= p && p + 4 <= SIZE && Word(b, p) == ROOM + StringPlace(args, i)
  }

  /** The block holds the arguments. */
  ghost predicate Stored(b: seq<byte>, args: seq<CString>) {
    && |b| == SIZE && BlockLength(args) <= ROOM && 0 <= CountPlace(args) && CountPlace(args) + 8 + 4 * |args| <= ROOM
    && Word(b, 4) == ROOM + CountPlace(args) && Word(b, ARGS + CountPlace(args)) == |args|
    && (forall i: nat {:trigger StringStored(b, args, i)} :: i < |args| ==> StringStored(b, args, i))
    && (forall i: nat {:trigger OffsetStored(b, args, i)} :: i < |args| ==> OffsetStored(b, args, i))
  }

  /** The block for the one argument "ab", byte by byte: the place of the table in the second word, most significant
      byte
      first, the count, the place of the string, the end mark, and the string at the very end. */
  lemma StoredBytes(b: seq<byte>)
    requires Stored(b, [[0x61, 0x62]])
    ensures b[4..8] == [0, 0, 0x1F, 0xF0] && b[0x1010..0x1014] == [0, 0, 0, 1]
    ensures b[0x1014..0x1018] == [0, 0, 0x1F, 0xFD] && b[0x101D..] == [0x61, 0x62, 0]
  {
    var args: seq<CString> := [[0x61, 0x62]];
    assert Length(args, 1) == Length(args, 0) + 3 && StringPlace(args, 0) == 0xFFD && CountPlace(args) == 0xFF0;
    assert StringStored(b, args, 0) && OffsetStored(b, args, 0);
    assert b[0x101D..] == b[0x101D..0x101F] + [b[0x101F]];
  }

  /** The first 255 bytes of a string: what the 256-byte copies of the reader hold. */
  function Cut(s: CString): CString { if |s| <= 255 then s else s[..255] }

  /** The bytes with s at p. */
  function Put(b: seq<byte>, p: nat, s: seq<byte>): (b': seq<byte>)
    requires p + |s| <= |b|
    ensures |b'| == |b| && b'[p..p + |s|] == s
    ensures forall k :: 0 <= k < |b| && !(p <= k < p + |s|) ==> b'[k] == b[k]
  {
    b[..p] + s + b[p + |s|..]
  }

  /** The first n strings and their offsets are there, and the count, the block's place and the end mark. */
  ghost predicate Filled(b: seq<byte>, args: seq<CString>, n: nat) {
    && |b| == SIZE && n <= |args| && BlockLength(args) <= ROOM && 0 <= CountPlace(args)
    && CountPlace(args) + 8 + 4 * |args| <= ROOM
    && Word(b, 4) == ROOM + CountPlace(args) && Word(b, ARGS + CountPlace(args)) == |args|
    && (forall i: nat {:trigger StringStored(b, args, i)} :: i < n ==> StringStored(b, args, i))
    && (forall i: nat {:trigger OffsetStored(b, args, i)} :: i < n ==> OffsetStored(b, args, i))
  }

  /** Nothing of the first n strings, their offsets, or the head has changed. */
  ghost predicate PartsKept(b: seq<byte>, b': seq<byte>, args: seq<CString>, n: nat)
    requires |b| == |b'| == SIZE && n <= |args| && BlockLength(args) <= ROOM
  {
    && (forall k :: 4 <= k < 8 ==> b'[k] == b[k])
    && (forall k :: 0 <= k < SIZE && ARGS + CountPlace(args) <= k < ARGS + CountPlace(args) + 4 + 4 * n ==>
        b'[k] == b[k])
    && (forall k :: 0 <= k < SIZE && ARGS + StringPlace(args, 0) <= k < ARGS + StringPlace(args, n) ==> b'[k] == b[k])
  }

  lemma FilledKept(b: seq<byte>, b': seq<byte>, args: seq<CString>, n: nat)
    requires Filled(b, args, n) && |b'| == SIZE && PartsKept(b, b', args, n)
    ensures Filled(b', args, n)
  {
    TableEnds(args);
    forall i: nat {:trigger StringStored(b', args, i)} | i < n
      ensures StringStored(b', args, i)
    {
      assert StringStored(b, args, i);
      LengthGrows(args, 0, i);
      LengthGrows(args, i, n);
      var p := ARGS + StringPlace(args, i);
      assert b'[p..p + |args[i]|] == b[p..p + |args[i]|];
    }
    forall i: nat {:trigger OffsetStored(b', args, i)} | i < n
      ensures OffsetStored(b', args, i)
    {
      assert OffsetStored(b, args, i);
    }
  }

  /** The next string. */
  lemma StringNext(b: seq<byte>, args: seq<CString>, n: nat)
    requires Filled(b, args, n) && n < |args|
    ensures var p := ARGS + StringPlace(args, n);
      0 <= p && p + |args[n]| + 1 <= SIZE && var b1 := Put(b, p, args[n] + [0]);
          Filled(b1, args, n) && StringStored(b1, args, n)
  {
    hide Put, Word, BlockLength;
    TableEnds(args);
    LengthGrows(args, 0, n);
    PartsApart(args, n, n + 1);
    LengthGrows(args, n + 1, |args|);
    var p := ARGS + StringPlace(args, n);
    var b1 := Put(b, p, args[n] + [0]);
    FilledKept(b, b1, args, n);
    Ended(b1, p, args[n]);
  }

  lemma Ended(b: seq<byte>, p: nat, s: seq<byte>)
    requires p + |s| + 1 <= |b| && b[p..p + |s| + 1] == s + [0]
    ensures b[p..p + |s|] == s && b[p + |s|] == 0
  {
    var z := b[p..p + |s| + 1];
    assert b[p..p + |s|] == z[..|s|] && b[p + |s|] == z[|s|];
  }

  /** The next offset, once its string is there. */
  lemma OffsetNext(b: seq<byte>, args: seq<CString>, n: nat)
    requires Filled(b, args, n) && n < |args| && StringStored(b, args, n)
    ensures var q := ARGS + CountPlace(args) + 4 + 4 * n;
      0 <= q && q + 4 <= SIZE && StringPlace(args, n) >= 0
          && Filled(WithWord(b, q, ROOM + StringPlace(args, n)), args, n + 1)
  {
    hide WithWord, Word, BlockLength;
    TableEnds(args);
    PartsApart(args, n, n + 1);
    LengthGrows(args, 0, n);
    var q := ARGS + CountPlace(args) + 4 + 4 * n;
    var b2 := WithWord(b, q, ROOM + StringPlace(args, n));
    FilledKept(b, b2, args, n);
    WordStored(b, q, ROOM + StringPlace(args, n));
    var p := ARGS + StringPlace(args, n);
    assert b2[p..p + |args[n]|] == b[p..p + |args[n]|];
    assert StringStored(b2, args, n) && OffsetStored(b2, args, n);
  }

  // ---------- reading ----------

  /** A NUL comes at place e, not before. */
  ghost predicate EndsAt(b: seq<byte>, p: nat, e: nat) {
    p <= e < |b| && b[e] == 0 && forall k :: p <= k < e ==> b[k] != 0
  }

  /** The C string at p. */
  ghost predicate IsText(b: seq<byte>, p: nat, s: CString) {
    EndsAt(b, p, p + |s|) && b[p..p + |s|] == s
  }

  /** Where argument i starts, by the table. */
  function ArgPlace(b: seq<byte>, i: nat): int
    requires |b| == SIZE && ROOM <= Word(b, 4) && ARGS + (Word(b, 4) - ROOM) + 4 + 4 * i + 4 <= SIZE
  {
    ARGS + (Word(b, ARGS + (Word(b, 4) - ROOM) + 4 + 4 * i) - ROOM)
  }

  /** Argument i is text inside the block. */
  ghost predicate ArgReadable(b: seq<byte>, i: nat) {
    && |b| == SIZE && ROOM <= Word(b, 4) && ARGS + (Word(b, 4) - ROOM) + 4 + 4 * i + 4 <= SIZE
    && ArgPlace(b, i) >= ARGS && exists e: nat :: EndsAt(b, ArgPlace(b, i), e)
  }

  /** What the reader relies on: a count of at most 256, and that many offsets of strings, all inside the block. */
  ghost predicate Readable(b: seq<byte>) {
    && |b| == SIZE && ROOM <= Word(b, 4) && ARGS + (Word(b, 4) - ROOM) + 4 <= SIZE
    && Word(b, ARGS + (Word(b, 4) - ROOM)) <= 256
    && forall i: nat {:trigger ArgReadable(b, i)} :: i < Word(b, ARGS + (Word(b, 4) - ROOM)) ==> ArgReadable(b, i)
  }

  /** s is the first 255 bytes at most of argument i. */
  ghost predicate IsArg(b: seq<byte>, i: nat, s: CString) {
    && ArgReadable(b, i) && |s| <= 255
    && var p := ArgPlace(b, i);
    p + |s| < |b| && b[p..p + |s|] == s && (|s| < 255 ==> b[p + |s|] == 0)
  }

  lemma StoredReadable(b: seq<byte>, args: seq<CString>)
    requires Stored(b, args) && |args| <= 256
    ensures Readable(b)
  {
    hide Word;
    forall i: nat {:trigger ArgReadable(b, i)} | i < |args|
      ensures ArgReadable(b, i)
    {
      StoredArg(b, args, i);
    }
  }

  lemma StoredArg(b: seq<byte>, args: seq<CString>, i: nat)
    requires Stored(b, args) && i < |args|
    ensures ArgReadable(b, i)
    ensures var p := ARGS + StringPlace(args, i);
      p >= 0 && ArgPlace(b, i) == p && IsText(b, p, args[i])
  {
    hide Word;
    assert StringStored(b, args, i) && OffsetStored(b, args, i);
    PartsApart(args, i, |args|);
    var p := ARGS + StringPlace(args, i);
    forall k | p <= k < p + |args[i]|
      ensures b[k] != 0
    {
      assert b[k] == b[p..p + |args[i]|][k - p];
    }
    assert ArgPlace(b, i) == p;
    assert EndsAt(b, ArgPlace(b, i), p + |args[i]|);
  }

  /** What is read of a stored argument is its first 255 bytes: all of it, if it has no more. */
  lemma ReadsWhatWasStored(b: seq<byte>, args: seq<CString>, i: nat, s: CString)
    requires Stored(b, args) && i < |args| && IsArg(b, i, s)
    ensures s == Cut(args[i])
  {
    StoredArg(b, args, i);
    hide Word, Stored;
    var p := ARGS + StringPlace(args, i);
    var t := args[i];
    NoneZero(b, p, s);
    assert |s| == |Cut(t)|;
    assert b[p..p + |t|][..|s|] == b[p..p + |s|];
  }

  lemma NoneZero(b: seq<byte>, p: nat, s: CString)
    requires p + |s| <= |b| && b[p..p + |s|] == s
    ensures forall k :: p <= k < p + |s| ==> b[k] != 0
  {
    forall k | p <= k < p + |s|
      ensures b[k] != 0
    {
      CharAt(b, p, s, k - p);
    }
  }

  lemma CharAt(b: seq<byte>, p: nat, s: CString, k: nat)
    requires p + |s| <= |b| && b[p..p + |s|] == s && k < |s|
    ensures b[p + k] == s[k] != 0
  {
    assert b[p..p + |s|][k] == b[p + k];
  }

  class BootInfo {
    const buf: array<byte>
    var initialized: bool
    /** nandboot_argv and nandboot_argc */
    var argv: seq<CString>

    predicate Valid()
      reads this
    {
      buf.Length == SIZE
    }

    constructor ()
      ensures Valid() && fresh(buf)
    {
      buf, initialized, argv := new byte[SIZE](_ => 0), true, [];
    }

    method StoreWord(i: nat, v: nat)
      requires Valid() && i + 4 <= SIZE
      modifies buf
      ensures buf[..] == WithWord(old(buf[..]), i, v)
    {
      buf[i] := v / 0x100_0000 % 0x100;
      buf[i + 1] := v / 0x1_0000 % 0x100;
      buf[i + 2] := v / 0x100 % 0x100;
      buf[i + 3] := v % 0x100;
    }

    /** strcpy */
    method StoreString(p: nat, s: CString)
      requires Valid() && p + |s| + 1 <= SIZE
      modifies buf
      ensures buf[..] == Put(old(buf[..]), p, s + [0])
    {
      ghost var b := buf[..];
      for k := 0 to |s|
        invariant buf[..] == b[..p] + s[..k] + b[p + k..]
      {
        buf[p + k] := s[k];
      }
      buf[p + |s|] := 0;
    }

    /** memset of the argument buffer. */
    method ClearArgs()
      requires Valid()
      modifies buf
      ensures buf[..ARGS] == old(buf[..ARGS])
    {
      for k := ARGS to SIZE
        invariant buf[..ARGS] == old(buf[..ARGS])
      {
        buf[k] := 0;
      }
    }

    /** __WII_SetArgs */
    method SetArgs(args: seq<CString>) returns (r: Code)
      requires Valid()
      modifies buf
      ensures r == if !initialized then NotInit else if BlockLength(args) > ROOM then TooBig else Okay
      ensures if r == Okay then Stored(buf[..], args) else buf[..] == old(buf[..])
    {
      hide WithWord, Put, Word;
      if !initialized {
        return NotInit;
      }
      var argslen, argc := 0, 0;
      for i := 0 to |args|
        invariant argslen == Length(args, i) && argc == i
      {
        argslen := argslen + |args[i]| + 1;
        argc := argc + 1;
      }
      var buflen := (argslen + 3) / 4 * 4;
      buflen := buflen + 4 * argc;
      buflen := buflen + 8;
      if buflen > ROOM {
        return TooBig;
      }
      TableEnds(args);
      FillArgs(args, ROOM - argslen, ROOM - buflen);
      return Okay;
    }

    method FillArgs(args: seq<CString>, argp0: nat, argvp0: nat)
      requires Valid() && BlockLength(args) <= ROOM && argp0 == StringPlace(args, 0) && argvp0 == CountPlace(args)
      requires argvp0 + 8 + 4 * |args| <= argp0 <= ROOM
      modifies buf
      ensures Stored(buf[..], args)
    {
      hide WithWord, Put, Word, Filled, Stored, BlockLength;
      var argp, argvp := argp0, argvp0;
      ClearArgs();
      StoreWord(4, ROOM + argvp);
      ghost var b1 := buf[..];
      WordStored(b1, ARGS + argvp, |args|);
      StoreWord(ARGS + argvp, |args|);
      argvp := argvp + 4;
      FilledStart(args, b1, buf[..]);
      for i := 0 to |args|
        invariant argp == StringPlace(args, i) && argvp == CountPlace(args) + 4 + 4 * i
        invariant Filled(buf[..], args, i)
      {
        FillOne(args, i, argp, argvp);
        argvp := argvp + 4;
        argp := argp + |args[i]| + 1;
      }
      EndMark(args, buf[..], ARGS + argvp);
      StoreWord(ARGS + argvp, 0);
    }

    /** One turn of the loop: a string and its offset. */
    method FillOne(args: seq<CString>, i: nat, argp: nat, argvp: nat)
      requires Valid() && Filled(buf[..], args, i) && i < |args|
      requires argp == StringPlace(args, i) && argvp == CountPlace(args) + 4 + 4 * i
      modifies buf
      ensures Filled(buf[..], args, i + 1)
    {
      hide WithWord, Put, Word, Filled;
      StringNext(buf[..], args, i);
      StoreString(ARGS + argp, args[i]);
      OffsetNext(buf[..], args, i);
      StoreWord(ARGS + argvp, ROOM + argp);
    }

    static lemma FilledStart(args: seq<CString>, b1: seq<byte>, b2: seq<byte>)
      requires |b1| == SIZE && BlockLength(args) <= ROOM && 0 <= CountPlace(args)
        && CountPlace(args) + 8 + 4 * |args| <= ROOM
      requires exists b :: |b| == SIZE && b1 == WithWord(b, 4, ROOM + CountPlace(args))
      requires b2 == WithWord(b1, ARGS + CountPlace(args), |args|)
      ensures Filled(b2, args, 0)
    {
      hide WithWord, Word;
      var b :| |b| == SIZE && b1 == WithWord(b, 4, ROOM + CountPlace(args));
      WordStored(b, 4, ROOM + CountPlace(args));
      WordStored(b1, ARGS + CountPlace(args), |args|);
      WordKept(b1, ARGS + CountPlace(args), |args|, 4);
    }

    static lemma EndMark(args: seq<CString>, b: seq<byte>, i: nat)
      requires Filled(b, args, |args|) && i == ARGS + CountPlace(args) + 4 + 4 * |args|
      ensures i + 4 <= SIZE && Stored(WithWord(b, i, 0), args)
    {
      hide WithWord, Word;
      TableEnds(args);
      FilledKept(b, WithWord(b, i, 0), args, |args|);
    }

    /** strncpy of at most 255 bytes into a zeroed copy. */
    method CopyString(p: nat) returns (s: CString)
      requires Valid() && exists e: nat :: EndsAt(buf[..], p, e)
      ensures |s| <= 255 && p + |s| < SIZE && buf[p..p + |s|] == s && (|s| < 255 ==> buf[p + |s|] == 0)
    {
      s := [];
      ghost var e: nat :| EndsAt(buf[..], p, e);
      var k := 0;
      while k < 255 && buf[p + k] != 0
        invariant k <= 255 && p + k <= e && s == buf[p..p + k] && forall j :: 0 <= j < k ==> s[j] != 0
      {
        s := s + [buf[p + k]];
        k := k + 1;
      }
    }

    /** be32toh of a word of the block. */
    function At(i: nat): (w: nat)
      requires Valid() && i + 4 <= SIZE
      reads this, buf
      ensures w == Word(buf[..], i)
    {
      var b0: int, b1: int, b2: int, b3: int := buf[i], buf[i + 1], buf[i + 2], buf[i + 3];
      0x100_0000 * b0 + 0x1_0000 * b1 + 0x100 * b2 + b3
    }

    /** __WII_NANDBootInfoUpdateArgv: a block whose offset points before the buffer has no arguments. */
    method UpdateArgv()
      requires Valid() && (Word(buf[..], 4) < ROOM || Readable(buf[..]))
      modifies this`argv
      ensures Word(buf[..], 4) < ROOM ==> argv == old(argv)
      ensures Word(buf[..], 4) >= ROOM ==> |argv| == Word(buf[..], ARGS + (Word(buf[..], 4) - ROOM))
      ensures Word(buf[..], 4) >= ROOM ==> forall i: nat {:trigger IsArg(buf[..], i, argv[i])} :: i < |argv| ==>
        IsArg(buf[..], i, argv[i])
    {
      hide Word;
      if At(4) < ROOM {
        return;
      }
      argv := [];
      var argbuf := ARGS + (At(4) - ROOM);
      var argc := At(argbuf);
      argbuf := argbuf + 4;
      for i := 0 to argc
        invariant |argv| == i && argbuf == ARGS + (Word(buf[..], 4) - ROOM) + 4 + 4 * i
        invariant forall j: nat {:trigger IsArg(buf[..], j, argv[j])} :: j < i ==> IsArg(buf[..], j, argv[j])
      {
        assert ArgReadable(buf[..], i);
        ghost var before := argv;
        var s := CopyString(ARGS + (At(argbuf) - ROOM));
        assert IsArg(buf[..], i, s);
        argbuf := argbuf + 4;
        argv := argv + [s];
        forall j: nat {:trigger IsArg(buf[..], j, argv[j])} | j < i + 1
          ensures IsArg(buf[..], j, argv[j])
        {
          assert j < i ==> argv[j] == before[j] && IsArg(buf[..], j, before[j]);
        }
      }
    }

    // ---------- the checksum ----------

    /** __CalcChecksum over the whole block. */
    method CalcChecksum(len: nat) returns (sum: nat)
      requires Valid() && 4 <= len <= SIZE
      ensures sum == SumTo(buf[..], len / 4)
    {
      hide Word;
      sum := 0;
      for i := 1 to len / 4
        invariant sum == SumTo(buf[..], i)
      {
        sum := (sum + At(4 * i)) % 0x1_0000_0000;
      }
    }

    method SetChecksum()
      requires Valid()
      modifies buf
      ensures buf[..] == WithWord(old(buf[..]), 0, SumTo(old(buf[..]), SIZE / 4))
    {
      hide Word, WithWord;
      var sum := CalcChecksum(SIZE);
      StoreWord(0, sum);
    }

    method ValidChecksum() returns (ok: bool)
      requires Valid()
      ensures ok == (Word(buf[..], 0) == SumTo(buf[..], SIZE / 4))
    {
      hide Word;
      var sum := CalcChecksum(SIZE);
      ok := At(0) == sum;
    }
  }

  /** Setting the checksum keeps the arguments and makes the block valid. */
  lemma ChecksumValid(b: seq<byte>, args: seq<CString>)
    requires Stored(b, args)
    ensures var b' := WithWord(b, 0, SumTo(b, SIZE / 4)); Stored(b', args) && Word(b', 0) == SumTo(b', SIZE / 4)
  {
    hide Word, WithWord;
    SumIgnoresFirst(b, SumTo(b, SIZE / 4), SIZE / 4);
    WordStored(b, 0, SumTo(b, SIZE / 4));
    TableEnds(args);
    LengthGrows(args, 0, |args|);
    StoredIsFilled(b, args);
    FilledKept(b, WithWord(b, 0, SumTo(b, SIZE / 4)), args, |args|);
  }

  lemma StoredIsFilled(b: seq<byte>, args: seq<CString>)
    requires Stored(b, args)
    ensures Filled(b, args, |args|)
  {
  }

  /** Arguments that fit, at most 256 of them, come back from the block as they were set, up to 255 bytes each,
      and the block passes its checksum. */
  method SetThenRead(info: BootInfo, args: seq<CString>) returns (ok: bool)
    requires info.Valid() && info.initialized && BlockLength(args) <= ROOM && |args| <= 256
    modifies info`argv, info.buf
    ensures ok && |info.argv| == |args| && forall i :: 0 <= i < |args| ==> info.argv[i] == Cut(args[i])
  {
    hide Word, WithWord, Stored, Readable;
    var r := info.SetArgs(args);
    ChecksumValid(info.buf[..], args);
    info.SetChecksum();
    ok := info.ValidChecksum();
    StoredReadable(info.buf[..], args);
    StoredCount(info.buf[..], args);
    info.UpdateArgv();
    forall i | 0 <= i < |args|
      ensures info.argv[i] == Cut(args[i])
    {
      assert IsArg(info.buf[..], i, info.argv[i]);
      ReadsWhatWasStored(info.buf[..], args, i, info.argv[i]);
    }
  }

  lemma StoredCount(b: seq<byte>, args: seq<CString>)
    requires Stored(b, args)
    ensures |b| == SIZE && ROOM <= Word(b, 4) && ARGS + (Word(b, 4) - ROOM) + 4 <= SIZE
      && Word(b, ARGS + (Word(b, 4) - ROOM)) == |args|
  {
  }
}
