/** The MD5 of the browser: padding and words in buffers, four registers rotated in place. */
module Md5 {
  import opened Base
  import opened Words
  import opened Rfc1321

  // ---- the tables of the inner loop ----

  /** The shift table: each of its rows stands four times in a row. */
  const SHIFT_ROWS: seq<seq<nat>> := [[7, 12, 17, 22], [5, 9, 14, 20], [4, 11, 16, 23], [6, 10, 15, 21]]

  lemma ShiftRowsShape(row: nat)
    requires row < 4
    ensures |SHIFT_ROWS| == 4 && |SHIFT_ROWS[row]| == 4
  {}

  function S(i: nat): nat
    requires i < 64
  {
    ShiftRowsShape(i / 16);
    SHIFT_ROWS[i / 16][i % 4]
  }

  function GAt(i: nat): nat {
    if i < 16 then i
    else if i < 32 then (5 * i + 1) % 16
    else if i < 48 then (3 * i + 5) % 16
    else (7 * i) % 16
  }

  function RoleAt(i: nat): Roles {
    if i % 4 == 0 then ABCD else if i % 4 == 1 then DABC else if i % 4 == 2 then CDAB else BCDA
  }

  predicate Agrees(i: nat)
    requires i < 64
  {
    OperationAt(i) == Operation(RoleAt(i), GAt(i), S(i), i + 1)
  }

  lemma Table1(i: nat)
    requires i < 16
    ensures Agrees(i)
  {}

  lemma Table2(i: nat)
    requires 16 <= i < 32
    ensures Agrees(i)
  {}

  lemma Table3(i: nat)
    requires 32 <= i < 48
    ensures Agrees(i)
  {}

  lemma Table4(i: nat)
    requires 48 <= i < 64
    ensures Agrees(i)
  {}

  /** The computed indices and the shift table are those of the 64 listed operations. */
  lemma TableAgrees(i: nat)
    requires i < 64
    ensures Agrees(i)
  {
    if i < 16 {
      Table1(i);
    } else if i < 32 {
      Table2(i);
    } else if i < 48 {
      Table3(i);
    } else {
      Table4(i);
    }
  }

  // ---- one step ----

  function Rotl(x: int, c: nat): int
    requires c <= 32
  {
    JsOr(JsShiftLeft(x, c), JsShiftRight(x, 32 - c))
  }

  function FAt(i: nat, b: int, c: int, d: int): int {
    if i < 16 then JsOr(JsAnd(b, c), JsAnd(JsNot(b), d))
    else if i < 32 then JsOr(JsAnd(d, b), JsAnd(JsNot(d), c))
    else if i < 48 then JsXor(JsXor(b, c), d)
    else JsXor(c, JsOr(b, JsNot(d)))
  }

  /** The signed intermediate value has the bits of the auxiliary function of the round. */
  lemma FAtMixes(i: nat, b: Word, c: Word, d: Word)
    ensures ToUint32(FAt(i, b, c, d)) == Mix(i, b, c, d)
  {
    if i < 16 {
      PatternOfAnd(b, c);
      PatternOfNot(b);
      PatternOfAnd(JsNot(b), d);
      PatternOfOr(JsAnd(b, c), JsAnd(JsNot(b), d));
    } else if i < 32 {
      GatesCommute(AND, 32, d, b);
      GatesCommute(AND, 32, Not(d), c);
      PatternOfAnd(d, b);
      PatternOfNot(d);
      PatternOfAnd(JsNot(d), c);
      PatternOfOr(JsAnd(d, b), JsAnd(JsNot(d), c));
    } else if i < 48 {
      PatternOfXor(b, c);
      PatternOfXor(JsXor(b, c), d);
    } else {
      PatternOfNot(d);
      PatternOfOr(b, JsNot(d));
      PatternOfXor(c, JsOr(b, JsNot(d)));
    }
    PatternOfWord(b);
    PatternOfWord(c);
    PatternOfWord(d);
  }

  /** The registers as the loop holds them after `i` steps. */
  function Turned(r: Registers, i: nat): (Word, Word, Word, Word) {
    if i % 4 == 0 then (r.A, r.B, r.C, r.D)
    else if i % 4 == 1 then (r.D, r.A, r.B, r.C)
    else if i % 4 == 2 then (r.C, r.D, r.A, r.B)
    else (r.B, r.C, r.D, r.A)
  }

  lemma SumOfPatterns(f: int, a: Word, k: Word, m: Word)
    ensures ToUint32(f + a + k + m) == Sum(a, ToUint32(f), m, k)
  {}

  lemma AddOfRotation(b: Word, x: Word, c: nat)
    requires c <= 32
    ensures ToUint32(b + Rotl(x, c)) == Add(b, RotateLeft(x, c))
  {
    ShiftsJoin(x, c);
    PatternOfSum(b, Rotl(x, c));
    PatternOfWord(b);
    PatternOfSigned(RotateLeft(x, c));
  }

  /** The value the loop body assigns to `b`, for the constant `k`, the word `m` and the shift `s` of its step. */
  function NewB(f: int, a: Word, b: Word, k: Word, m: Word, s: nat): Word
    requires s <= 32
  {
    ToUint32(b + Rotl(ToUint32(f + a + k + m), s))
  }

  lemma NewBIsRotated(f: int, mix: Word, a: Word, b: Word, k: Word, m: Word, s: nat)
    requires s <= 32 && ToUint32(f) == mix
    ensures NewB(f, a, b, k, m, s) == Add(b, RotateLeft(Sum(a, mix, m, k), s))
  {
    SumOfPatterns(f, a, k, m);
    AddOfRotation(b, ToUint32(f + a + k + m), s);
  }

  /** The registers turn by one place, and the operation writes the one that comes to stand second. */
  lemma TurnedPerform(r: Registers, M: seq<Word>, i: nat, op: Operation)
    requires |M| == 16 && Usable(op) && op.roles == RoleAt(i)
    ensures var (a, b, c, d) := Turned(r, i);
            Turned(PerformAs(r, M, i, op), i + 1) == (d, Rotated(b, a, Mix(i, b, c, d), M, op), b, c)
  {
    assert (i + 1) % 4 == if i % 4 == 3 then 0 else i % 4 + 1;
  }

  /** The step's indices are within their tables. */
  lemma StepIsUsable(i: nat)
    requires i < 64
    ensures GAt(i) < 16 && 0 < S(i) < 32
  {
    TableAgrees(i);
    OperationsAreUsable(i);
  }

  /** One turn of the loop performs the listed operation, seen through the turned registers. */
  lemma StepPerforms(r: Registers, M: seq<Word>, i: nat, f: int)
    requires i < 64 && |M| == 16 && GAt(i) < 16 && S(i) < 32
    requires var (a, b, c, d) := Turned(r, i); ToUint32(f) == Mix(i, b, c, d)
    ensures var (a, b, c, d) := Turned(r, i);
            Turned(Perform(r, M, i), i + 1) == (d, NewB(f, a, b, T(i + 1), M[GAt(i)], S(i)), b, c)
  {
    TableAgrees(i);
    OperationsAreUsable(i);
    var op, q := OperationAt(i), Turned(r, i);
    TurnedPerform(r, M, i, op);
    NewBIsRotated(f, Mix(i, q.1, q.2, q.3), q.0, q.1, T(i + 1), M[GAt(i)], S(i));
  }

  // ---- padding ----

  /** `Math.ceil((n + 9) / 64) * 64`. */
  function PaddedLength(n: nat): nat {
    (n + 9 + 63) / 64 * 64
  }

  /** The padded length is the least multiple of 64 that holds the message, the 1 bit and the length. */
  lemma PaddedLengthIsLeast(n: nat)
    ensures PaddedLength(n) == n + 9 + ZeroCount(n)
    ensures PaddedLength(n) % 64 == 0 && PaddedLength(n) >= n + 9
    ensures forall k: nat :: 64 * k >= n + 9 ==> 64 * k >= PaddedLength(n)
  {}

  lemma Quarters(v: nat)
    ensures v / 256 / 256 == v / 0x1_0000 && v / 256 / 256 / 256 == v / 0x100_0000
    ensures v / 256 / 256 / 256 / 256 == v / 0x1_0000_0000
  {}

  lemma UnrollFour(v: nat, rest: nat)
    ensures LittleEndian(v, 4 + rest) ==
            [(v % 256) as Byte, (v / 256 % 256) as Byte, (v / 0x1_0000 % 256) as Byte, (v / 0x100_0000 % 256) as Byte]
            + LittleEndian(v / 0x1_0000_0000, rest)
  {
    Quarters(v);
    var v1 := v / 256;
    var v2 := v1 / 256;
    var v3 := v2 / 256;
    UnrollOne(v, 3 + rest);
    UnrollOne(v1, 2 + rest);
    UnrollOne(v2, 1 + rest);
    UnrollOne(v3, rest);
  }

  lemma UnrollOne(v: nat, rest: nat)
    ensures LittleEndian(v, 1 + rest) == [(v % 256) as Byte] + LittleEndian(v / 256, rest)
  {}

  lemma LowDigits(v: nat, q: nat, w: nat)
    requires v == q * 0x1_0000_0000 + w
    ensures w % 256 == v % 256 && w / 256 % 256 == v / 256 % 256
    ensures w / 0x1_0000 % 256 == v / 0x1_0000 % 256 && w / 0x100_0000 % 256 == v / 0x100_0000 % 256
  {
    LowDigit(q, 0x100_0000, 256, w);
    LowDigit(q, 0x1_0000, 0x1_0000, w);
    LowDigit(q, 0x100, 0x100_0000, w);
    QuotientOfSum(q * 0x100_0000, 256, w);
  }

  lemma LowDigit(q: int, high: int, low: int, w: int)
    requires low > 0 && high % 256 == 0
    ensures (q * (high * low) + w) / low % 256 == w / low % 256
  {
    var h := high / 256;
    assert high == h * 256;
    assert q * (high * low) == q * high * low;
    QuotientOfSum(q * high, low, w);
    assert q * high == q * h * 256;
    QuotientOfSum(q * h, 256, w / low);
  }

  /** The low 32 bits decide the low four bytes. */
  lemma LowBytes(v: nat)
    ensures LittleEndian(ToUint32(v), 4) == LittleEndian(v, 4)
  {
    UnrollFour(v, 0);
    UnrollFour(ToUint32(v), 0);
    LowDigits(v, v / 0x1_0000_0000, ToUint32(v));
  }

  lemma LengthBytesSplit(v: nat)
    ensures LittleEndian(v, 8) == LittleEndian(v, 4) + LittleEndian(v / 0x1_0000_0000, 4)
  {
    UnrollFour(v, 0);
    UnrollFour(v, 4);
  }

  /** Padding loses nothing: two messages padded alike are the same message. */
  lemma PadIsInjective(m1: Bytes, m2: Bytes)
    requires Pad(m1) == Pad(m2)
    ensures m1 == m2
  {
    var n1, n2, len := |m1|, |m2|, |Pad(m1)|;
    assert Pad(m1)[len - 8..] == LittleEndian(8 * n1, 8);
    assert Pad(m2)[len - 8..] == LittleEndian(8 * n2, 8);
    SameLowBytes(8 * n1, 8 * n2);
    assert Pad(m1)[..n1] == m1;
    assert Pad(m2)[..n2] == m2;
  }

  lemma TwoDigitsDecide(u: nat, v: nat)
    requires u % 256 == v % 256 && u / 256 % 256 == v / 256 % 256 && -0x1_0000 < u - v < 0x1_0000
    ensures u == v
  {
    assert u == u / 0x1_0000 * 0x1_0000 + u / 256 % 256 * 256 + u % 256;
    assert v == v / 0x1_0000 * 0x1_0000 + v / 256 % 256 * 256 + v % 256;
  }

  lemma SameLowBytes(u: nat, v: nat)
    requires LittleEndian(u, 8) == LittleEndian(v, 8) && -0x1_0000 < u - v < 0x1_0000
    ensures u == v
  {
    UnrollOne(u, 7);
    UnrollOne(v, 7);
    UnrollOne(u / 256, 6);
    UnrollOne(v / 256, 6);
    assert LittleEndian(u, 8)[0] == LittleEndian(v, 8)[0] && LittleEndian(u, 8)[1] == LittleEndian(v, 8)[1];
    TwoDigitsDecide(u, v);
  }

  /** `DataView.setUint32(at, value, true)`. */
  method SetUint32(view: array<Byte>, at: nat, value: nat)
    requires at + 4 <= view.Length
    modifies view
    ensures view[..] == old(view[..at]) + LittleEndian(value, 4) + old(view[at + 4..])
  {
    var w := ToUint32(value);
    UnrollFour(w, 0);
    LowBytes(value);
    view[at] := (w % 256) as Byte;
    view[at + 1] := (w / 256 % 256) as Byte;
    view[at + 2] := (w / 0x1_0000 % 256) as Byte;
    view[at + 3] := (w / 0x100_0000 % 256) as Byte;
    assert view[at..at + 4] == LittleEndian(w, 4);
    assert view[..] == view[..at] + view[at..at + 4] + view[at + 4..];
  }

  /** A zeroed buffer with the bytes at its start. */
  method Copied(bytes: array<Byte>, paddedLen: nat) returns (padded: array<Byte>)
    requires bytes.Length <= paddedLen
    ensures fresh(padded) && padded[..] == bytes[..] + Zeros(paddedLen - bytes.Length)
  {
    padded := new Byte[paddedLen](_ => 0);
    for i := 0 to bytes.Length
      invariant padded[..i] == bytes[..i]
      invariant forall j :: i <= j < paddedLen ==> padded[j] == 0
    {
      padded[i] := bytes[i];
    }
  }

  /** 0x80, zeros, and the bit length in two little-endian words. */
  method PadBuffer(bytes: array<Byte>) returns (padded: array<Byte>)
    ensures fresh(padded)
    ensures padded[..] == Pad(bytes[..])
  {
    var n := bytes.Length;
    var bitLen := n * 8;
    var paddedLen := PaddedLength(n);
    PaddedLengthIsLeast(n);
    ZerosFillBlock(n);
    padded := Copied(bytes, paddedLen);
    padded[n] := 0x80;
    ghost var head := bytes[..] + [0x80] + Zeros(ZeroCount(n));
    assert padded[..|head|] == head;
    WriteLength(padded, head, bitLen);
  }

  method WriteLength(padded: array<Byte>, ghost head: Bytes, bitLen: nat)
    requires padded.Length == |head| + 8 && padded[..|head|] == head
    modifies padded
    ensures padded[..] == head + LittleEndian(bitLen, 8)
  {
    var high := bitLen / 0x1_0000_0000;
    LengthBytesSplit(bitLen);
    SetUint32(padded, padded.Length - 8, bitLen);
    assert padded[..|head| + 4] == head + LittleEndian(bitLen, 4);
    SetUint32(padded, padded.Length - 4, high);
  }

  // ---- the loops ----

  /** The branches of the loop body: the mixed value, still signed, and the index of the word. */
  method MixAndIndex(i: nat, b: Word, c: Word, d: Word) returns (f: int, g: nat)
    ensures ToUint32(f) == Mix(i, b, c, d) && g == GAt(i)
  {
    FAtMixes(i, b, c, d);
    if i < 16 {
      f := JsOr(JsAnd(b, c), JsAnd(JsNot(b), d));
      g := i;
    } else if i < 32 {
      f := JsOr(JsAnd(d, b), JsAnd(JsNot(d), c));
      g := (5 * i + 1) % 16;
    } else if i < 48 {
      f := JsXor(JsXor(b, c), d);
      g := (3 * i + 5) % 16;
    } else {
      f := JsXor(c, JsOr(b, JsNot(d)));
      g := (7 * i) % 16;
    }
  }

  /** The sum of the step, rotated and added to `b`. */
  method MixIn(f: int, a: Word, b: Word, k: Word, m: Word, s: nat) returns (mixed: Word)
    requires s <= 32
    ensures mixed == NewB(f, a, b, k, m, s)
  {
    var sum := ToUint32(f + a + k + m);
    mixed := ToUint32(b + Rotl(sum, s));
  }

  lemma OperationsGrow(r: Registers, X: seq<Word>, i: nat)
    requires i < 64 && |X| == 16
    ensures Operations(r, X, i + 1) == Perform(Operations(r, X, i), X, i)
  {}

  /** The inner loop over one block. */
  method Rounds(M: array<Word>, a0: Word, b0: Word, c0: Word, d0: Word)
    returns (a: Word, b: Word, c: Word, d: Word)
    requires M.Length == 16
    ensures Registers(a, b, c, d) == Operations(Registers(a0, b0, c0, d0), M[..], 64)
  {
    ghost var r, X := Registers(a0, b0, c0, d0), M[..];
    a, b, c, d := a0, b0, c0, d0;
    for i := 0 to 64
      invariant (a, b, c, d) == Turned(Operations(r, X, i), i)
    {
      var f, g := MixAndIndex(i, b, c, d);
      StepIsUsable(i);
      var k, s := T(i + 1), S(i);
      StepPerforms(Operations(r, X, i), X, i, f);
      OperationsGrow(r, X, i);
      var mixed := MixIn(f, a, b, k, M[g], s);
      a, b, c, d := d, mixed, b, c;
    }
  }

  /** The rounds, then each register incremented by its value before the block. */
  method ProcessBlock(M: array<Word>, a0: Word, b0: Word, c0: Word, d0: Word)
    returns (a1: Word, b1: Word, c1: Word, d1: Word)
    requires M.Length == 16
    ensures Registers(a1, b1, c1, d1) == Block(Registers(a0, b0, c0, d0), M[..])
  {
    var a, b, c, d := Rounds(M, a0, b0, c0, d0);
    a1, b1, c1, d1 := ToUint32(a0 + a), ToUint32(b0 + b), ToUint32(c0 + c), ToUint32(d0 + d);
  }

  /** The sixteen words of the block at `chunkStart`. */
  method LoadBlock(view: array<Byte>, chunkStart: nat) returns (M: array<Word>)
    requires chunkStart + 64 <= view.Length
    ensures fresh(M) && M[..] == WordsOf(view[chunkStart..chunkStart + 64])
  {
    M := new Word[16](_ => 0);
    ghost var words := WordsOf(view[chunkStart..chunkStart + 64]);
    for i := 0 to 16
      invariant M[..i] == words[..i]
    {
      M[i] := WordAt(view[..], chunkStart + i * 4);
    }
  }

  /** The loop over the blocks of a padded buffer. */
  method FoldBlocks(padded: array<Byte>, ghost blocks: nat) returns (a0: Word, b0: Word, c0: Word, d0: Word)
    requires padded.Length == 64 * blocks
    ensures Registers(a0, b0, c0, d0) == Fold(INITIAL, padded[..])
  {
    ghost var all := padded[..];
    a0, b0, c0, d0 := 0x67452301, 0xefcdab89, 0x98badcfe, 0x10325476;
    var chunkStart := 0;
    ghost var left := blocks;
    assert all[0..] == all;
    while chunkStart < padded.Length
      invariant padded.Length - chunkStart == 64 * left && padded[..] == all && 0 <= left
      invariant Fold(Registers(a0, b0, c0, d0), all[chunkStart..]) == Fold(INITIAL, all)
    {
      var M := LoadBlock(padded, chunkStart);
      NextBlock(Registers(a0, b0, c0, d0), all, chunkStart);
      a0, b0, c0, d0 := ProcessBlock(M, a0, b0, c0, d0);
      chunkStart, left := chunkStart + 64, left - 1;
    }
    assert |all[chunkStart..]| == 0;
  }

  /** The digest as the browser computes it is that of RFC 1321, for every buffer. */
  method Md5HexOf(bytes: array<Byte>) returns (hex: string)
    ensures hex == Md5Hex(bytes[..])
  {
    var padded := PadBuffer(bytes);
    var a0, b0, c0, d0 := FoldBlocks(padded, padded.Length / 64);
    hex := JoinRegisters(a0, b0, c0, d0);
  }

  /** `[a0, b0, c0, d0].map(toLittleEndianHex).join('')`. */
  method JoinRegisters(a0: Word, b0: Word, c0: Word, d0: Word) returns (hex: string)
    ensures hex == Hex(Output(Registers(a0, b0, c0, d0)))
  {
    OutputIsJoined(Registers(a0, b0, c0, d0));
    hex := ToLittleEndianHex(a0) + ToLittleEndianHex(b0) + ToLittleEndianHex(c0) + ToLittleEndianHex(d0);
  }

  lemma NextBlock(r: Registers, all: Bytes, chunkStart: nat)
    requires chunkStart + 64 <= |all|
    ensures Fold(r, all[chunkStart..])
            == Fold(Block(r, WordsOf(all[chunkStart..chunkStart + 64])), all[chunkStart + 64..])
  {
    assert all[chunkStart..][..64] == all[chunkStart..chunkStart + 64];
    assert all[chunkStart..][64..] == all[chunkStart + 64..];
  }

  // ---- output ----

  /** `toString(16)`. */
  function ToString16(n: nat): string {
    if n < 16 then [Digit(n)] else ToString16(n / 16) + [Digit(n % 16)]
  }

  /** `padStart(2, '0')`. */
  function PadStart2(s: string): string {
    if |s| >= 2 then s else if |s| == 1 then "0" + s else "00"
  }

  function HexByte(b: nat): string {
    PadStart2(ToString16(b))
  }

  lemma HexByteIsTwoDigits(b: nat)
    requires b < 256
    ensures HexByte(b) == [Digit(b / 16), Digit(b % 16)]
  {
    assert DIGITS[0] == '0';
    if b < 16 {
      assert HexByte(b) == "0" + [Digit(b)];
    } else {
      assert ToString16(b) == [Digit(b / 16)] + [Digit(b % 16)];
    }
  }

  /** `(word >>> k) & 0xff`. */
  function ByteOf(word: Word, k: nat): int
    requires k < 32
  {
    JsAnd(JsShiftRight(word, k), 0xff)
  }

  lemma PowersOfBytes()
    ensures Pow2(0) == 1 && Pow2(8) == 0x100 && Pow2(16) == 0x1_0000 && Pow2(24) == 0x100_0000
  {
    assert Pow2(8) == 256;
    Pow2Adds(8, 8);
    Pow2Adds(8, 16);
  }

  lemma MaskedByte(x: Word)
    ensures JsAnd(x, 0xff) == x % 256
  {
    PatternOfWord(x);
    PatternOfWord(0xff);
    PowersOfBytes();
    AndOfMask(32, x, 8);
  }

  lemma ByteOfWord(word: Word, k: nat, p: nat)
    requires k < 32 && p == Pow2(k) && p in {1, 0x100, 0x1_0000, 0x100_0000}
    ensures ByteOf(word, k) == word / p % 256
  {
    ShiftRightDivides(word, k, p);
    MaskedByte(word / p);
  }

  lemma BytesOfWord(word: Word)
    ensures LittleEndian(word, 4) == [(word % 256) as Byte, (word / 256 % 256) as Byte,
                                      (word / 0x1_0000 % 256) as Byte, (word / 0x100_0000 % 256) as Byte]
    ensures ByteOf(word, 0) == word % 256 && ByteOf(word, 8) == word / 256 % 256
    ensures ByteOf(word, 16) == word / 0x1_0000 % 256 && ByteOf(word, 24) == word / 0x100_0000 % 256
  {
    UnrollFour(word, 0);
    PowersOfBytes();
    ByteOfWord(word, 0, 1);
    ByteOfWord(word, 8, 0x100);
    ByteOfWord(word, 16, 0x1_0000);
    ByteOfWord(word, 24, 0x100_0000);
  }

  function ToLittleEndianHex(word: Word): string {
    BytesOfWord(word);
    HexByte(ByteOf(word, 0)) + HexByte(ByteOf(word, 8)) + HexByte(ByteOf(word, 16)) + HexByte(ByteOf(word, 24))
  }

  lemma HexOfFour(b0: Byte, b1: Byte, b2: Byte, b3: Byte)
    ensures Hex([b0, b1, b2, b3]) == HexByte(b0 as int) + HexByte(b1 as int) + HexByte(b2 as int) + HexByte(b3 as int)
  {
    HexByteIsTwoDigits(b0 as int);
    HexByteIsTwoDigits(b1 as int);
    HexByteIsTwoDigits(b2 as int);
    HexByteIsTwoDigits(b3 as int);
    HexOfConcat([b0], [b1, b2, b3]);
    HexOfConcat([b1], [b2, b3]);
    HexOfConcat([b2], [b3]);
    assert [b0] + [b1, b2, b3] == [b0, b1, b2, b3] && [b1] + [b2, b3] == [b1, b2, b3] && [b2] + [b3] == [b2, b3];
  }

  lemma {:induction false} HexOfConcat(x: Bytes, y: Bytes)
    ensures Hex(x + y) == Hex(x) + Hex(y)
  {
    if x == [] {
      assert x + y == y;
    } else {
      assert (x + y)[0] == x[0] && (x + y)[1..] == x[1..] + y;
      HexOfConcat(x[1..], y);
    }
  }

  /** The masks and shifts of the output write the word low-order byte first. */
  lemma HexOfWord(word: Word)
    ensures ToLittleEndianHex(word) == Hex(LittleEndian(word, 4))
  {
    BytesOfWord(word);
    var b := LittleEndian(word, 4);
    HexOfFour(b[0], b[1], b[2], b[3]);
  }

  lemma OutputIsJoined(r: Registers)
    ensures Hex(Output(r)) ==
            ToLittleEndianHex(r.A) + ToLittleEndianHex(r.B) + ToLittleEndianHex(r.C) + ToLittleEndianHex(r.D)
  {
    var a, b, c, d := LittleEndian(r.A, 4), LittleEndian(r.B, 4), LittleEndian(r.C, 4), LittleEndian(r.D, 4);
    HexOfWord(r.A);
    HexOfWord(r.B);
    HexOfWord(r.C);
    HexOfWord(r.D);
    HexOfConcat(a + b + c, d);
    HexOfConcat(a + b, c);
    HexOfConcat(a, b);
  }

  /** Equal strings mean equal digests: the encoding loses nothing. */
  lemma SameHexSameDigest(m1: Bytes, m2: Bytes)
    ensures Md5Hex(m1) == Md5Hex(m2) <==> Digest(m1) == Digest(m2)
  {
    if Md5Hex(m1) == Md5Hex(m2) {
      HexIsInjective(Output(Digest(m1)), Output(Digest(m2)));
      OutputIsInjective(Digest(m1), Digest(m2));
    }
  }

  lemma DigitsDiffer(m: nat, n: nat)
    requires m < 16 && n < 16 && Digit(m) == Digit(n)
    ensures m == n
  {}

  lemma {:induction false} HexIsInjective(x: Bytes, y: Bytes)
    requires Hex(x) == Hex(y)
    ensures x == y
  {
    if x != [] {
      assert |x| == |y|;
      assert Hex(x)[0] == Hex(y)[0] && Hex(x)[1] == Hex(y)[1];
      DigitsDiffer(x[0] as int / 16, y[0] as int / 16);
      DigitsDiffer(x[0] as int % 16, y[0] as int % 16);
      assert Hex(x[1..]) == Hex(x)[2..] && Hex(y[1..]) == Hex(y)[2..];
      HexIsInjective(x[1..], y[1..]);
      assert x == [x[0]] + x[1..] && y == [y[0]] + y[1..];
    }
  }

  lemma WordOfDigits(v: Word)
    ensures v == v % 256 + 256 * (v / 256 % 256) + 0x1_0000 * (v / 0x1_0000 % 256)
                 + 0x100_0000 * (v / 0x100_0000 % 256)
  {
    var v1, v2, v3 := v / 256, v / 0x1_0000, v / 0x100_0000;
    assert v1 / 256 == v2 && v2 / 256 == v3 && v3 < 256;
  }

  lemma WordIsItsBytes(v: Word, w: Word)
    requires LittleEndian(v, 4) == LittleEndian(w, 4)
    ensures v == w
  {
    UnrollFour(v, 0);
    UnrollFour(w, 0);
    var x, y := LittleEndian(v, 4), LittleEndian(w, 4);
    assert x[0] == y[0] && x[1] == y[1] && x[2] == y[2] && x[3] == y[3];
    WordOfDigits(v);
    WordOfDigits(w);
  }

  lemma OutputIsInjective(r: Registers, q: Registers)
    requires Output(r) == Output(q)
    ensures r == q
  {
    assert Output(r)[..4] == LittleEndian(r.A, 4) && Output(q)[..4] == LittleEndian(q.A, 4);
    assert Output(r)[4..8] == LittleEndian(r.B, 4) && Output(q)[4..8] == LittleEndian(q.B, 4);
    assert Output(r)[8..12] == LittleEndian(r.C, 4) && Output(q)[8..12] == LittleEndian(q.C, 4);
    assert Output(r)[12..] == LittleEndian(r.D, 4) && Output(q)[12..] == LittleEndian(q.D, 4);
    WordIsItsBytes(r.A, q.A);
    WordIsItsBytes(r.B, q.B);
    WordIsItsBytes(r.C, q.C);
    WordIsItsBytes(r.D, q.D);
  }
}
