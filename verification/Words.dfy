/** 32-bit words as numbers, their bitwise operations, and the 32-bit operators of JavaScript. */
module Words {

  const TWO32: nat := 0x1_0000_0000

  type Word = x: int | 0 <= x < TWO32

  function Pow2(n: nat): (p: nat)
    ensures p >= 1
  {
    if n == 0 then 1 else 2 * Pow2(n - 1)
  }

  lemma Pow2Of32()
    ensures Pow2(32) == TWO32
  {
    assert Pow2(8) == 256;
    Pow2Adds(8, 8);
    Pow2Adds(16, 16);
  }

  lemma {:induction false} Pow2Adds(a: nat, b: nat)
    ensures Pow2(a + b) == Pow2(a) * Pow2(b)
  {
    if a > 0 {
      Pow2Adds(a - 1, b);
      assert Pow2(a + b) == 2 * Pow2(a - 1 + b);
      assert 2 * (Pow2(a - 1) * Pow2(b)) == (2 * Pow2(a - 1)) * Pow2(b);
    }
  }

  // ---- bitwise operations ----

  datatype Gate = AND | OR | XOR

  function OfBits(g: Gate, x: nat, y: nat): (r: nat)
    ensures r <= 1
  {
    match g
    case AND => if x == 1 && y == 1 then 1 else 0
    case OR => if x == 1 || y == 1 then 1 else 0
    case XOR => if x != y then 1 else 0
  }

  /** The low `n` bits of two numbers, combined bit by bit. */
  function Bitwise(g: Gate, n: nat, x: nat, y: nat): (r: nat)
    ensures r < Pow2(n)
  {
    if n == 0 then 0 else OfBits(g, x % 2, y % 2) + 2 * Bitwise(g, n - 1, x / 2, y / 2)
  }

  /** Bit `i` of a number, bit 0 being the lowest. */
  function Bit(x: nat, i: nat): (b: nat)
    ensures b <= 1
  {
    if i == 0 then x % 2 else Bit(x / 2, i - 1)
  }

  lemma {:induction false} BitOfBitwise(g: Gate, n: nat, x: nat, y: nat, i: nat)
    requires i < n
    ensures Bit(Bitwise(g, n, x, y), i) == OfBits(g, Bit(x, i), Bit(y, i))
  {
    var low, rest := OfBits(g, x % 2, y % 2), Bitwise(g, n - 1, x / 2, y / 2);
    assert (low + 2 * rest) % 2 == low && (low + 2 * rest) / 2 == rest;
    if i > 0 {
      BitOfBitwise(g, n - 1, x / 2, y / 2, i - 1);
    }
  }

  lemma {:induction false} BitOfComplement(n: nat, x: nat, i: nat)
    requires i < n && x < Pow2(n)
    ensures Bit(Pow2(n) - 1 - x, i) == 1 - Bit(x, i)
  {
    var p := Pow2(n - 1);
    assert (2 * p - 1 - x) % 2 == 1 - x % 2 && (2 * p - 1 - x) / 2 == p - 1 - x / 2;
    if i > 0 {
      BitOfComplement(n - 1, x / 2, i - 1);
    }
  }

  function And(x: Word, y: Word): Word {
    Pow2Of32();
    Bitwise(AND, 32, x, y)
  }

  function Or(x: Word, y: Word): Word {
    Pow2Of32();
    Bitwise(OR, 32, x, y)
  }

  function Xor(x: Word, y: Word): Word {
    Pow2Of32();
    Bitwise(XOR, 32, x, y)
  }

  function Not(x: Word): Word {
    TWO32 - 1 - x
  }

  lemma BitOfNot(x: Word, i: nat)
    requires i < 32
    ensures Bit(Not(x), i) == 1 - Bit(x, i)
  {
    Pow2Of32();
    BitOfComplement(32, x, i);
  }

  /** Addition modulo 2^32. */
  function Add(x: Word, y: Word): Word {
    (x + y) % TWO32
  }

  /** Circular shift: the `s` high bits come round to the low end. */
  function RotateLeft(x: Word, s: nat): Word
    requires s <= 32
  {
    Pow2Of32();
    Pow2Adds(32 - s, s);
    TurnFits(x, Pow2(32 - s), Pow2(s));
    x % Pow2(32 - s) * Pow2(s) + x / Pow2(32 - s)
  }

  lemma TurnFits(x: nat, p: nat, q: nat)
    requires p > 0 && x < p * q
    ensures 0 <= x / p < q && 0 <= x % p < p
    ensures 0 <= x % p * q && x % p * q + x / p < p * q
  {
    var l, h := x / p, x % p;
    assert x == l * p + h;
    QuotientBelow(x, l, h, p, q);
    assert h * q <= (p - 1) * q;
    assert (p - 1) * q == p * q - q;
  }

  lemma QuotientBelow(x: nat, l: int, h: nat, p: nat, q: nat)
    requires x == l * p + h && h < p && x < p * q
    ensures 0 <= l < q
  {
    if l >= q {
      ProductsGrow(q, l, p);
    } else if l < 0 {
      ProductsGrow(l, -1, p);
    }
  }

  lemma ProductsGrow(a: int, b: int, m: int)
    requires a <= b && m >= 0
    ensures a * m <= b * m
  {}

  lemma {:induction false} BitOfQuotient(x: nat, k: nat, q: nat, i: nat)
    requires q == x / Pow2(k)
    ensures Bit(q, i) == Bit(x, i + k)
  {
    if k > 0 {
      QuotientOfHalf(x, Pow2(k - 1));
      BitOfQuotient(x / 2, k - 1, q, i);
    }
  }

  lemma QuotientOfHalf(x: nat, p: nat)
    requires p >= 1
    ensures x / (2 * p) == x / 2 / p
    ensures x % (2 * p) == x % 2 + 2 * (x / 2 % p)
  {
    var h, b := x / 2, x % 2;
    var q, r := h / p, h % p;
    assert h == q * p + r;
    assert x == q * (2 * p) + (2 * r + b);
    ModUnique(x, 2 * p, q, 2 * r + b);
  }

  /** Low bits come from the remainder, high ones from the multiple. */
  lemma {:induction false} BitOfJoined(high: nat, s: nat, low: nat, i: nat)
    requires low < Pow2(s)
    ensures Bit(high * Pow2(s) + low, i) == if i < s then Bit(low, i) else Bit(high, i - s)
  {
    if s > 0 {
      var p := Pow2(s - 1);
      var x := high * p + low / 2;
      assert high * (2 * p) == 2 * (high * p);
      assert high * Pow2(s) + low == 2 * x + low % 2;
      assert (2 * x + low % 2) / 2 == x && (2 * x + low % 2) % 2 == low % 2;
      if i > 0 {
        BitOfJoined(high, s - 1, low / 2, i - 1);
      }
    }
  }

  lemma {:induction false} BitOfRemainder(x: nat, k: nat, i: nat)
    requires i < k
    ensures Bit(x % Pow2(k), i) == Bit(x, i)
  {
    var p := Pow2(k - 1);
    QuotientOfHalf(x, p);
    var low, rest := x % 2, x / 2 % p;
    assert (low + 2 * rest) % 2 == low && (low + 2 * rest) / 2 == rest;
    if i > 0 {
      BitOfRemainder(x / 2, k - 1, i - 1);
    }
  }

  /** The shift moves every bit `s` places up, the highest round to the low end. */
  lemma RotateMovesBits(x: Word, s: nat, i: nat)
    requires s <= 32 && i < 32
    ensures Bit(RotateLeft(x, s), i) == Bit(x, if i < s then i + 32 - s else i - s)
  {
    Pow2Of32();
    Pow2Adds(32 - s, s);
    TurnFits(x, Pow2(32 - s), Pow2(s));
    BitOfJoined(x % Pow2(32 - s), s, x / Pow2(32 - s), i);
    if i < s {
      BitOfQuotient(x, 32 - s, x / Pow2(32 - s), i);
    } else {
      BitOfRemainder(x, 32 - s, i - s);
    }
  }

  lemma {:induction false} GatesCommute(g: Gate, n: nat, x: nat, y: nat)
    ensures Bitwise(g, n, x, y) == Bitwise(g, n, y, x)
  {
    if n > 0 {
      GatesCommute(g, n - 1, x / 2, y / 2);
    }
  }

  lemma {:induction false} OrWithZero(n: nat, x: nat)
    requires x < Pow2(n)
    ensures Bitwise(OR, n, x, 0) == x
  {
    if n > 0 {
      OrWithZero(n - 1, x / 2);
    }
  }

  /** Shifted bits and bits below the shift do not meet: `or` is then a sum. */
  lemma {:induction false} OrOfDisjoint(n: nat, high: nat, s: nat, low: nat)
    requires s <= n && high < Pow2(n - s) && low < Pow2(s)
    ensures Bitwise(OR, n, high * Pow2(s), low) == high * Pow2(s) + low
  {
    if s == 0 {
      OrWithZero(n, high);
    } else {
      var shifted := high * Pow2(s - 1);
      assert high * Pow2(s) == 2 * shifted;
      OrOfDisjoint(n - 1, high, s - 1, low / 2);
    }
  }

  lemma AndOfOdd(n: nat, x: nat, mask: nat, half: nat)
    requires mask == 2 * half + 1
    ensures Bitwise(AND, n + 1, x, mask) == x % 2 + 2 * Bitwise(AND, n, x / 2, half)
  {
    assert mask / 2 == half && mask % 2 == 1;
  }

  lemma LongerMask(n: nat, x: nat, p: nat)
    requires p >= 1 && Bitwise(AND, n, x / 2, p - 1) == x / 2 % p
    ensures Bitwise(AND, n + 1, x, 2 * p - 1) == x % (2 * p)
  {
    AndOfOdd(n, x, 2 * p - 1, p - 1);
    ModOfDouble(x, p);
  }

  /** Masking with `k` ones keeps the low `k` bits. */
  lemma {:induction false} AndOfMask(n: nat, x: nat, k: nat)
    requires k <= n
    ensures Bitwise(AND, n, x, Pow2(k) - 1) == x % Pow2(k)
  {
    if k == 0 {
      AndWithZero(n, x);
    } else {
      var p := Pow2(k - 1);
      AndOfMask(n - 1, x / 2, k - 1);
      LongerMask(n - 1, x, p);
      assert Pow2(k) == 2 * p;
    }
  }

  lemma {:induction false} AndWithZero(n: nat, x: nat)
    ensures Bitwise(AND, n, x, 0) == 0
  {
    if n > 0 {
      AndWithZero(n - 1, x / 2);
    }
  }

  lemma ModOfDouble(x: nat, p: nat)
    requires p > 0
    ensures x % (2 * p) == x % 2 + 2 * (x / 2 % p)
  {
    var q, r := x / 2 / p, x / 2 % p;
    assert x / 2 == q * p + r;
    assert q * (2 * p) == 2 * (q * p);
    ModUnique(x, 2 * p, q, 2 * r + x % 2);
  }

  lemma ModUnique(x: int, m: int, q: int, r: int)
    requires m > 0 && x == q * m + r && 0 <= r < m
    ensures x % m == r && x / m == q
  {
    assert x == x / m * m + x % m;
    MultipleIsZero(x / m - q, m, r - x % m);
  }

  lemma MultipleIsZero(d: int, m: int, e: int)
    requires m > 0 && d * m == e && -m < e < m
    ensures d == 0
  {
    if d >= 1 {
      ProductsGrow(1, d, m);
    } else if d <= -1 {
      ProductsGrow(d, -1, m);
    }
  }

  lemma QuotientOfSum(q: int, m: int, w: int)
    requires m > 0
    ensures (q * m + w) / m == q + w / m && (q * m + w) % m == w % m
  {
    assert w == w / m * m + w % m;
    assert q * m + w / m * m == (q + w / m) * m;
    ModUnique(q * m + w, m, q + w / m, w % m);
  }

  // ---- JavaScript ----

  /** The 32-bit pattern of a number, as an operand or as the result of `>>> 0`. */
  function ToUint32(n: int): Word {
    n % TWO32
  }

  /** What the bitwise operators return: the pattern read as a signed number. */
  function Signed(w: Word): int {
    if w < 0x8000_0000 then w else w - TWO32
  }

  function JsAnd(x: int, y: int): int {
    Signed(And(ToUint32(x), ToUint32(y)))
  }

  function JsOr(x: int, y: int): int {
    Signed(Or(ToUint32(x), ToUint32(y)))
  }

  function JsXor(x: int, y: int): int {
    Signed(Xor(ToUint32(x), ToUint32(y)))
  }

  function JsNot(x: int): int {
    Signed(Not(ToUint32(x)))
  }

  /** Shift counts are taken modulo 32: by 32 is by 0. */
  function ShiftCount(c: nat): nat
    requires c <= 32
  {
    if c == 32 then 0 else c
  }

  function JsShiftLeft(x: int, c: nat): int
    requires c <= 32
  {
    Signed(ToUint32(ToUint32(x) * Pow2(ShiftCount(c))))
  }

  /** `>>>`, which returns an unsigned number. */
  function JsShiftRight(x: int, c: nat): int
    requires c <= 32
  {
    ToUint32(x) / Pow2(ShiftCount(c))
  }

  lemma PatternOfWord(w: Word)
    ensures ToUint32(w) == w
  {}

  lemma PatternOfSigned(w: Word)
    ensures ToUint32(Signed(w)) == w
  {}

  /** A bitwise operator combines the patterns of its operands. */
  lemma PatternOfAnd(x: int, y: int)
    ensures ToUint32(JsAnd(x, y)) == And(ToUint32(x), ToUint32(y))
  {
    PatternOfSigned(And(ToUint32(x), ToUint32(y)));
  }

  lemma PatternOfOr(x: int, y: int)
    ensures ToUint32(JsOr(x, y)) == Or(ToUint32(x), ToUint32(y))
  {
    PatternOfSigned(Or(ToUint32(x), ToUint32(y)));
  }

  lemma PatternOfXor(x: int, y: int)
    ensures ToUint32(JsXor(x, y)) == Xor(ToUint32(x), ToUint32(y))
  {
    PatternOfSigned(Xor(ToUint32(x), ToUint32(y)));
  }

  lemma PatternOfNot(x: int)
    ensures ToUint32(JsNot(x)) == Not(ToUint32(x))
  {
    PatternOfSigned(Not(ToUint32(x)));
  }

  /** Reducing a summand first does not change the reduced sum. */
  lemma PatternOfSum(x: int, y: int)
    ensures ToUint32(x + y) == Add(ToUint32(x), ToUint32(y))
  {}

  /** Shifting left drops the bits that leave the word. */
  lemma ShiftLeftKeepsLow(x: nat, p: nat, q: nat, m: nat)
    requires p > 0 && q > 0 && p * q == m && x < m
    ensures x * q % m == x % p * q
  {
    var l, h := x / p, x % p;
    assert x == l * p + h;
    TurnFits(x, p, q);
    assert x * q == l * m + h * q by {
      assert x * q == l * p * q + h * q;
      assert l * p * q == l * (p * q);
    }
    ModUnique(x * q, m, l, h * q);
  }

  lemma ShiftedByFactor(x: Word, c: nat, p: nat, q: nat)
    requires c < 32 && p > 0 && q == Pow2(c) && p * q == TWO32
    ensures 0 <= x % p * q < TWO32 && JsShiftLeft(x, c) == Signed(x % p * q)
  {
    TurnFits(x, p, q);
    ShiftLeftKeepsLow(x, p, q, TWO32);
    assert ToUint32(x) == x && ToUint32(x * q) == x * q % TWO32;
  }

  lemma ShiftedLeft(x: Word, c: nat)
    requires c < 32
    ensures 0 <= x % Pow2(32 - c) * Pow2(c) < TWO32
    ensures JsShiftLeft(x, c) == Signed(x % Pow2(32 - c) * Pow2(c))
  {
    Pow2Of32();
    Pow2Adds(32 - c, c);
    ShiftedByFactor(x, c, Pow2(32 - c), Pow2(c));
  }

  lemma ShiftRightDivides(x: Word, c: nat, p: nat)
    requires c < 32 && p == Pow2(c)
    ensures JsShiftRight(x, c) == x / p
  {
    PatternOfWord(x);
  }

  lemma ShiftedRight(x: Word, c: nat)
    requires 0 < c <= 32
    ensures 0 <= JsShiftRight(x, 32 - c) < TWO32 && JsShiftRight(x, 32 - c) == x / Pow2(32 - c) < Pow2(c)
  {
    Pow2Of32();
    Pow2Adds(32 - c, c);
    TurnFits(x, Pow2(32 - c), Pow2(c));
    FactorIsSmaller(Pow2(32 - c), Pow2(c));
    ShiftRightDivides(x, 32 - c, Pow2(32 - c));
  }

  lemma FactorIsSmaller(p: nat, q: nat)
    requires p >= 1
    ensures q <= p * q
  {
    ProductsGrow(1, p, q);
  }

  lemma JoinedPatterns(left: Word, right: Word)
    ensures JsOr(Signed(left), right) == Signed(Or(left, right))
  {
    PatternOfSigned(left);
    PatternOfWord(right);
  }

  lemma HalvesJoin(x: Word, c: nat, left: Word, right: Word)
    requires c <= 32 && left == x % Pow2(32 - c) * Pow2(c) && right == x / Pow2(32 - c) < Pow2(c)
    ensures Or(left, right) == RotateLeft(x, c)
  {
    OrOfDisjoint(32, x % Pow2(32 - c), c, right);
  }

  lemma {:induction false} OrWithItself(n: nat, x: nat)
    requires x < Pow2(n)
    ensures Bitwise(OR, n, x, x) == x
  {
    if n > 0 {
      OrWithItself(n - 1, x / 2);
    }
  }

  lemma NothingTurns(x: nat, p: nat)
    requires x < p
    ensures x % p * 1 + x / p == x && x % 1 * p + x / 1 == x
  {
    ModUnique(x, p, 0, x);
    ModUnique(x, 1, x, 0);
  }

  lemma RotateByFullTurn(x: Word, c: nat)
    requires c == 0 || c == 32
    ensures RotateLeft(x, c) == x
  {
    Pow2Of32();
    NothingTurns(x, Pow2(32));
  }

  lemma ShiftByFullTurn(x: Word, c: nat)
    requires c == 0 || c == 32
    ensures JsShiftLeft(x, c) == Signed(x) && JsShiftRight(x, 32 - c) == x
  {
    PatternOfWord(x);
    assert Pow2(0) == 1;
  }

  /** The two shifts of a 32-bit pattern, joined by `|`, are its circular shift. */
  lemma ShiftsJoin(x: Word, c: nat)
    requires c <= 32
    ensures JsOr(JsShiftLeft(x, c), JsShiftRight(x, 32 - c)) == Signed(RotateLeft(x, c))
  {
    if c == 0 || c == 32 {
      RotateByFullTurn(x, c);
      ShiftByFullTurn(x, c);
      Pow2Of32();
      OrWithItself(32, x);
      JoinedPatterns(x, x);
    } else {
      ShiftedLeft(x, c);
      ShiftedRight(x, c);
      var left: Word, right: Word := x % Pow2(32 - c) * Pow2(c), JsShiftRight(x, 32 - c);
      HalvesJoin(x, c, left, right);
      JoinedPatterns(left, right);
    }
  }
}
