/** The MD5 message digest as RFC 1321 states it, section by section. */
module Rfc1321 {
  import opened Base
  import opened Words

  // ---- sections 3.1 and 3.2: padding ----

  /** The low-order `n` bytes of a number, low-order byte first. */
  function LittleEndian(v: nat, n: nat): (b: Bytes)
    ensures |b| == n
  {
    if n == 0 then [] else [(v % 256) as Byte] + LittleEndian(v / 256, n - 1)
  }

  function Zeros(n: nat): Bytes {
    seq(n, _ => 0)
  }

  /** The zero bytes appended after the 1 bit: the length must become 56 modulo 64. */
  function ZeroCount(n: nat): nat {
    (55 - n) % 64
  }

  lemma ZerosFillBlock(n: nat)
    ensures 0 <= ZeroCount(n) < 64 && (n + 9 + ZeroCount(n)) % 64 == 0
  {}

  /** A single 1 bit, zeros up to 448 bits modulo 512, then the low 64 bits of the bit length. */
  function Pad(message: Bytes): (padded: Bytes)
    ensures |padded| == |message| + 9 + ZeroCount(|message|)
    ensures |padded| % 64 == 0
  {
    ZerosFillBlock(|message|);
    message + [0x80] + Zeros(ZeroCount(|message|)) + LittleEndian(8 * |message|, 8)
  }

  // ---- section 3.4: processing in 16-word blocks ----

  function F(x: Word, y: Word, z: Word): Word {
    Or(And(x, y), And(Not(x), z))
  }

  function G(x: Word, y: Word, z: Word): Word {
    Or(And(x, z), And(y, Not(z)))
  }

  function H(x: Word, y: Word, z: Word): Word {
    Xor(Xor(x, y), z)
  }

  function I(x: Word, y: Word, z: Word): Word {
    Xor(y, Or(x, Not(z)))
  }

  /** Bit by bit, F chooses y or z by x. */
  lemma FChooses(x: Word, y: Word, z: Word, i: nat)
    requires i < 32
    ensures Bit(F(x, y, z), i) == if Bit(x, i) == 1 then Bit(y, i) else Bit(z, i)
  {
    BitOfNot(x, i);
    BitOfBitwise(AND, 32, x, y, i);
    BitOfBitwise(AND, 32, Not(x), z, i);
    BitOfBitwise(OR, 32, And(x, y), And(Not(x), z), i);
  }

  /** G chooses x or y by z. */
  lemma GChooses(x: Word, y: Word, z: Word, i: nat)
    requires i < 32
    ensures Bit(G(x, y, z), i) == if Bit(z, i) == 1 then Bit(x, i) else Bit(y, i)
  {
    BitOfNot(z, i);
    BitOfBitwise(AND, 32, x, z, i);
    BitOfBitwise(AND, 32, y, Not(z), i);
    BitOfBitwise(OR, 32, And(x, z), And(y, Not(z)), i);
  }

  /** H is the parity. */
  lemma HIsParity(x: Word, y: Word, z: Word, i: nat)
    requires i < 32
    ensures Bit(H(x, y, z), i) == (Bit(x, i) + Bit(y, i) + Bit(z, i)) % 2
  {
    BitOfBitwise(XOR, 32, x, y, i);
    BitOfBitwise(XOR, 32, Xor(x, y), z, i);
  }

  /** I differs from y exactly where x is set or z is not. */
  lemma IDiffers(x: Word, y: Word, z: Word, i: nat)
    requires i < 32
    ensures Bit(I(x, y, z), i) == if Bit(x, i) == 1 || Bit(z, i) == 0 then 1 - Bit(y, i) else Bit(y, i)
  {
    BitOfNot(z, i);
    BitOfBitwise(OR, 32, x, Not(z), i);
    BitOfBitwise(XOR, 32, y, Or(x, Not(z)), i);
  }

  /** The 64-element table constructed from the sine function, four elements a row. */
  const SINES: seq<seq<Word>> := [
    [0xd76aa478, 0xe8c7b756, 0x242070db, 0xc1bdceee],
    [0xf57c0faf, 0x4787c62a, 0xa8304613, 0xfd469501],
    [0x698098d8, 0x8b44f7af, 0xffff5bb1, 0x895cd7be],
    [0x6b901122, 0xfd987193, 0xa679438e, 0x49b40821],
    [0xf61e2562, 0xc040b340, 0x265e5a51, 0xe9b6c7aa],
    [0xd62f105d, 0x02441453, 0xd8a1e681, 0xe7d3fbc8],
    [0x21e1cde6, 0xc33707d6, 0xf4d50d87, 0x455a14ed],
    [0xa9e3e905, 0xfcefa3f8, 0x676f02d9, 0x8d2a4c8a],
    [0xfffa3942, 0x8771f681, 0x6d9d6122, 0xfde5380c],
    [0xa4beea44, 0x4bdecfa9, 0xf6bb4b60, 0xbebfbc70],
    [0x289b7ec6, 0xeaa127fa, 0xd4ef3085, 0x04881d05],
    [0xd9d4d039, 0xe6db99e5, 0x1fa27cf8, 0xc4ac5665],
    [0xf4292244, 0x432aff97, 0xab9423a7, 0xfc93a039],
    [0x655b59c3, 0x8f0ccc92, 0xffeff47d, 0x85845dd1],
    [0x6fa87e4f, 0xfe2ce6e0, 0xa3014314, 0x4e0811a1],
    [0xf7537e82, 0xbd3af235, 0x2ad7d2bb, 0xeb86d391]
  ]

  lemma SinesShape(row: nat)
    requires row < 16
    ensures |SINES| == 16 && |SINES[row]| == 4
  {}

  /** The table is numbered from 1. */
  function T(i: nat): Word
    requires 1 <= i <= 64
  {
    SinesShape((i - 1) / 4);
    SINES[(i - 1) / 4][(i - 1) % 4]
  }

  /** Which register each letter of `a = b + ((a + F(b,c,d) + X[k] + T[i]) <<< s)` stands for. */
  datatype Roles = ABCD | DABC | CDAB | BCDA

  datatype Operation = Operation(roles: Roles, k: nat, s: nat, i: nat)

  const ROUND1: seq<seq<Operation>> := [
    [Operation(ABCD, 0, 7, 1), Operation(DABC, 1, 12, 2), Operation(CDAB, 2, 17, 3), Operation(BCDA, 3, 22, 4)],
    [Operation(ABCD, 4, 7, 5), Operation(DABC, 5, 12, 6), Operation(CDAB, 6, 17, 7), Operation(BCDA, 7, 22, 8)],
    [Operation(ABCD, 8, 7, 9), Operation(DABC, 9, 12, 10), Operation(CDAB, 10, 17, 11), Operation(BCDA, 11, 22, 12)],
    [Operation(ABCD, 12, 7, 13), Operation(DABC, 13, 12, 14), Operation(CDAB, 14, 17, 15), Operation(BCDA, 15, 22, 16)]
  ]

  const ROUND2: seq<seq<Operation>> := [
    [Operation(ABCD, 1, 5, 17), Operation(DABC, 6, 9, 18), Operation(CDAB, 11, 14, 19), Operation(BCDA, 0, 20, 20)],
    [Operation(ABCD, 5, 5, 21), Operation(DABC, 10, 9, 22), Operation(CDAB, 15, 14, 23), Operation(BCDA, 4, 20, 24)],
    [Operation(ABCD, 9, 5, 25), Operation(DABC, 14, 9, 26), Operation(CDAB, 3, 14, 27), Operation(BCDA, 8, 20, 28)],
    [Operation(ABCD, 13, 5, 29), Operation(DABC, 2, 9, 30), Operation(CDAB, 7, 14, 31), Operation(BCDA, 12, 20, 32)]
  ]

  const ROUND3: seq<seq<Operation>> := [
    [Operation(ABCD, 5, 4, 33), Operation(DABC, 8, 11, 34), Operation(CDAB, 11, 16, 35), Operation(BCDA, 14, 23, 36)],
    [Operation(ABCD, 1, 4, 37), Operation(DABC, 4, 11, 38), Operation(CDAB, 7, 16, 39), Operation(BCDA, 10, 23, 40)],
    [Operation(ABCD, 13, 4, 41), Operation(DABC, 0, 11, 42), Operation(CDAB, 3, 16, 43), Operation(BCDA, 6, 23, 44)],
    [Operation(ABCD, 9, 4, 45), Operation(DABC, 12, 11, 46), Operation(CDAB, 15, 16, 47), Operation(BCDA, 2, 23, 48)]
  ]

  const ROUND4: seq<seq<Operation>> := [
    [Operation(ABCD, 0, 6, 49), Operation(DABC, 7, 10, 50), Operation(CDAB, 14, 15, 51), Operation(BCDA, 5, 21, 52)],
    [Operation(ABCD, 12, 6, 53), Operation(DABC, 3, 10, 54), Operation(CDAB, 10, 15, 55), Operation(BCDA, 1, 21, 56)],
    [Operation(ABCD, 8, 6, 57), Operation(DABC, 15, 10, 58), Operation(CDAB, 6, 15, 59), Operation(BCDA, 13, 21, 60)],
    [Operation(ABCD, 4, 6, 61), Operation(DABC, 11, 10, 62), Operation(CDAB, 2, 15, 63), Operation(BCDA, 9, 21, 64)]
  ]

  datatype Registers = Registers(A: Word, B: Word, C: Word, D: Word)

  const INITIAL := Registers(0x67452301, 0xefcdab89, 0x98badcfe, 0x10325476)

  lemma TableShape(row: nat)
    requires row < 4
    ensures |ROUND1| == |ROUND2| == |ROUND3| == |ROUND4| == 4
    ensures |ROUND1[row]| == |ROUND2[row]| == |ROUND3[row]| == |ROUND4[row]| == 4
  {}

  /** The listed operations, row after row. */
  function OperationAt(n: nat): Operation
    requires n < 64
  {
    var row := n % 16 / 4;
    TableShape(row);
    if n < 16 then ROUND1[row][n % 4]
    else if n < 32 then ROUND2[row][n % 4]
    else if n < 48 then ROUND3[row][n % 4]
    else ROUND4[row][n % 4]
  }

  function Mix(n: nat, x: Word, y: Word, z: Word): Word {
    if n < 16 then F(x, y, z) else if n < 32 then G(x, y, z) else if n < 48 then H(x, y, z) else I(x, y, z)
  }

  /** An operation indexes the block and the table within bounds and rotates by less than a word. */
  predicate Usable(op: Operation) {
    op.k < 16 && 0 < op.s < 32 && 1 <= op.i <= 64
  }

  lemma OperationsAreUsable(n: nat)
    requires n < 64
    ensures Usable(OperationAt(n))
  {}

  function Sum(a: Word, b: Word, c: Word, d: Word): Word {
    (a + b + c + d) % TWO32
  }

  /** `b + ((a + mix + X[k] + T[i]) <<< s)`. */
  function Rotated(b: Word, a: Word, mix: Word, X: seq<Word>, op: Operation): Word
    requires |X| == 16 && Usable(op)
  {
    Add(b, RotateLeft(Sum(a, mix, X[op.k], T(op.i)), op.s))
  }

  /** One operation of the round of step `n`. */
  function PerformAs(r: Registers, X: seq<Word>, n: nat, op: Operation): Registers
    requires |X| == 16 && Usable(op)
  {
    match op.roles
    case ABCD => r.(A := Rotated(r.B, r.A, Mix(n, r.B, r.C, r.D), X, op))
    case DABC => r.(D := Rotated(r.A, r.D, Mix(n, r.A, r.B, r.C), X, op))
    case CDAB => r.(C := Rotated(r.D, r.C, Mix(n, r.D, r.A, r.B), X, op))
    case BCDA => r.(B := Rotated(r.C, r.B, Mix(n, r.C, r.D, r.A), X, op))
  }

  function Perform(r: Registers, X: seq<Word>, n: nat): Registers
    requires |X| == 16 && n < 64
  {
    OperationsAreUsable(n);
    PerformAs(r, X, n, OperationAt(n))
  }

  /** The first `n` operations on a block. */
  function Operations(r: Registers, X: seq<Word>, n: nat): Registers
    requires |X| == 16 && n <= 64
  {
    if n == 0 then r else Perform(Operations(r, X, n - 1), X, n - 1)
  }

  /** The four rounds, then each register incremented by its value before the block. */
  function Block(r: Registers, X: seq<Word>): Registers
    requires |X| == 16
  {
    var s := Operations(r, X, 64);
    Registers(Add(r.A, s.A), Add(r.B, s.B), Add(r.C, s.C), Add(r.D, s.D))
  }

  /** A word is four bytes, low-order byte first. */
  function WordAt(bytes: Bytes, at: nat): Word
    requires at + 4 <= |bytes|
  {
    bytes[at] as int + 0x100 * bytes[at + 1] as int + 0x1_0000 * bytes[at + 2] as int
    + 0x100_0000 * bytes[at + 3] as int
  }

  function WordsOf(block: Bytes): (X: seq<Word>)
    requires |block| == 64
    ensures |X| == 16
  {
    seq(16, i requires 0 <= i < 16 => WordAt(block, 4 * i))
  }

  /** The blocks of a padded message in order. */
  function Fold(r: Registers, padded: Bytes): Registers
    decreases |padded|
  {
    if |padded| < 64 then r else Fold(Block(r, WordsOf(padded[..64])), padded[64..])
  }

  function Digest(message: Bytes): Registers {
    Fold(INITIAL, Pad(message))
  }

  // ---- section 3.5: output ----

  /** From the low-order byte of A to the high-order byte of D. */
  function Output(r: Registers): (b: Bytes)
    ensures |b| == 16
  {
    LittleEndian(r.A, 4) + LittleEndian(r.B, 4) + LittleEndian(r.C, 4) + LittleEndian(r.D, 4)
  }

  const DIGITS := "0123456789abcdef"

  function Digit(n: nat): char
    requires n < 16
  {
    assert |DIGITS| == 16;
    DIGITS[n]
  }

  /** Two lower-case hexadecimal digits a byte. */
  function Hex(bytes: Bytes): (s: string)
    ensures |s| == 2 * |bytes|
  {
    if bytes == [] then "" else [Digit(bytes[0] as int / 16), Digit(bytes[0] as int % 16)] + Hex(bytes[1..])
  }

  /** The digest in the usual notation. */
  function Md5Hex(message: Bytes): (s: string)
    ensures |s| == 32
  {
    Hex(Output(Digest(message)))
  }
}
