/** 32-bit words as integers, with the width, the wrap-around and the two's-complement
    reading of the C++ unsigned and signed types written out. */
module Words {
  const TWO32: int := 0x1_0000_0000

  type Word = w: int | 0 <= w < 0x1_0000_0000
  type Byte = b: int | 0 <= b < 0x100

  datatype Option<+T> = None | Some(value: T)

  /** The conversion of any integer to uint32_t. */
  function Wrap(n: int): (r: Word)
  {
    n % TWO32
  }

  /** The value of a word read as int32_t. */
  function Signed(w: Word): (s: int)
    ensures -0x8000_0000 <= s < 0x8000_0000 && Wrap(s) == w
  {
    if w < 0x8000_0000 then w else w - TWO32
  }

  function Pow2(k: nat): (p: nat)
    ensures p >= 1
  {
    if k == 0 then 1 else 2 * Pow2(k - 1)
  }

  lemma {:induction false} Pow2Add(j: nat, k: nat)
    ensures Pow2(j + k) == Pow2(j) * Pow2(k)
  {
    if j > 0 {
      Pow2Add(j - 1, k);
      Associate(Pow2(j - 1), Pow2(k));
    }
  }

  lemma Associate(p: int, q: int)
    ensures 2 * p * q == 2 * (p * q)
  {
  }

  lemma Pow2At32()
    ensures Pow2(5) == 32 && Pow2(32) == TWO32
  {
    assert Pow2(8) == 256;
    Pow2Add(8, 8);
    Pow2Add(16, 16);
  }

  /** The wrap of a sum or a product does not depend on whether the parts were wrapped first. */
  lemma WrapCongruent(n: int, m: int, q: int)
    requires n == m + q * TWO32
    ensures Wrap(n) == Wrap(m)
  {
  }

  // ---------------------------------------------------------------- bitwise operators

  datatype Logic = Conj | Disj | Excl

  function LogicBit(f: Logic, p: bool, q: bool): bool
  {
    match f
    case Conj => p && q
    case Disj => p || q
    case Excl => p != q
  }

  /** The C++ operators &, | and ^ on the n low digits of two numbers, least digit first. */
  function BitOp(f: Logic, a: nat, b: nat, n: nat): (r: nat)
    ensures r < Pow2(n)
  {
    if n == 0 then 0
    else (if LogicBit(f, a % 2 == 1, b % 2 == 1) then 1 else 0) + 2 * BitOp(f, a / 2, b / 2, n - 1)
  }

  function LogicWord(f: Logic, a: Word, b: Word): (r: Word)
  {
    Pow2At32();
    BitOp(f, a, b, 32)
  }

  /** Digit i of a number. */
  predicate Bit(a: nat, i: nat)
  {
    a / Pow2(i) % 2 == 1
  }

  lemma HalfOfPower(a: nat, i: nat)
    ensures a / Pow2(i + 1) == a / 2 / Pow2(i)
  {
    var p := Pow2(i);
    var q, r := a / 2 / p, a / 2 % p;
    assert a == 2 * (p * q + r) + a % 2;
    assert a == (2 * p) * q + (2 * r + a % 2);
    DivUnique(a, 2 * p, q, 2 * r + a % 2);
  }

  lemma DivUnique(a: int, d: int, q: int, r: int)
    requires d > 0 && a == d * q + r && 0 <= r < d
    ensures a / d == q && a % d == r
  {
    var gap := q - a / d;
    assert d * gap == a % d - r;
    if gap >= 1 { MulAtLeast(d, gap); }
    if gap <= -1 { MulAtLeast(d, -gap); }
  }

  lemma MulAtLeast(d: int, k: int)
    requires d > 0 && k >= 1
    ensures d * k >= d
  {
  }

  /** The number whose digits below place n are the given ones. */
  function FromDigits(digit: nat -> bool, n: nat): (r: nat)
    ensures r < Pow2(n)
  {
    if n == 0 then 0 else FromDigits(digit, n - 1) + if digit(n - 1) then Pow2(n - 1) else 0
  }

  /** One more digit of the operands adds one digit at the top of the result. */
  lemma {:induction false} BitOpTop(f: Logic, a: nat, b: nat, n: nat)
    ensures BitOp(f, a, b, n + 1) == BitOp(f, a, b, n) + if LogicBit(f, Bit(a, n), Bit(b, n)) then Pow2(n) else 0
  {
    if n == 0 {
      assert BitOp(f, a / 2, b / 2, 0) == 0;
    } else {
      BitOpTop(f, a / 2, b / 2, n - 1);
      HalfOfPower(a, n - 1);
      HalfOfPower(b, n - 1);
      assert Bit(a, n) == Bit(a / 2, n - 1) && Bit(b, n) == Bit(b / 2, n - 1);
    }
  }

  /** The word operators act on each digit alone. */
  lemma {:induction false} BitOpIsDigitSum(f: Logic, a: nat, b: nat, n: nat, digit: nat -> bool)
    requires forall k :: 0 <= k < n ==> digit(k) == LogicBit(f, Bit(a, k), Bit(b, k))
    ensures BitOp(f, a, b, n) == FromDigits(digit, n)
  {
    if n > 0 {
      BitOpIsDigitSum(f, a, b, n - 1, digit);
      BitOpTop(f, a, b, n - 1);
    }
  }

  /** Each digit of the result is the logical function of the two digits in its place. */
  lemma {:induction false} BitOpDigit(f: Logic, a: nat, b: nat, n: nat, i: nat)
    requires i < n
    ensures Bit(BitOp(f, a, b, n), i) <==> LogicBit(f, Bit(a, i), Bit(b, i))
    decreases n
  {
    var rest := BitOp(f, a / 2, b / 2, n - 1);
    assert BitOp(f, a, b, n) / 2 == rest;
    if i > 0 {
      HalfOfPower(BitOp(f, a, b, n), i - 1);
      HalfOfPower(a, i - 1);
      HalfOfPower(b, i - 1);
      BitOpDigit(f, a / 2, b / 2, n - 1, i - 1);
    }
  }

  /** and, or and xor, digit by digit. */
  lemma LogicDigits(a: Word, b: Word, i: nat)
    requires i < 32
    ensures Bit(LogicWord(Conj, a, b), i) <==> Bit(a, i) && Bit(b, i)
    ensures Bit(LogicWord(Disj, a, b), i) <==> Bit(a, i) || Bit(b, i)
    ensures Bit(LogicWord(Excl, a, b), i) <==> Bit(a, i) != Bit(b, i)
  {
    hide Bit, BitOp;
    BitOpDigit(Conj, a, b, 32, i);
    BitOpDigit(Disj, a, b, 32, i);
    BitOpDigit(Excl, a, b, 32, i);
  }

  // ---------------------------------------------------------------- shifts

  /** a << k on uint32_t. */
  function ShiftLeft(a: Word, k: nat): (r: Word)
  {
    Wrap(a * Pow2(k))
  }

  /** a >> k on uint32_t. */
  function ShiftRight(a: Word, k: nat): (r: Word)
  {
    DivShrinks(a, Pow2(k));
    a / Pow2(k)
  }

  /** a >> k on int32_t, converted back to uint32_t. */
  function ShiftRightSigned(a: Word, k: nat): (r: Word)
  {
    Wrap(Signed(a) / Pow2(k))
  }

  /** The arithmetic shift drops the low digits and fills the vacated upper ones with the sign. */
  lemma SignedShiftFills(a: Word, k: nat)
    requires k < 32
    ensures ShiftRightSigned(a, k)
            == a / Pow2(k) + if a >= 0x8000_0000 then (Pow2(k) - 1) * Pow2(32 - k) else 0
  {
    Pow2At32();
    Pow2Add(k, 32 - k);
    if a >= 0x8000_0000 {
      NegativeQuotient(a, Pow2(k), Pow2(32 - k));
    } else {
      DivShrinks(a, Pow2(k));
    }
  }

  lemma NegativeQuotient(a: Word, p: int, h: int)
    requires p >= 1 && h >= 1 && p * h == TWO32
    ensures Wrap((a - TWO32) / p) == a / p + (p - 1) * h
  {
    var q, r := a / p, a % p;
    Distribute(p, q, h);
    DivUnique(a - TWO32, p, q - h, r);
    DivShrinks(a, p);
    PositiveFactor(p, h - q);
    Distribute(h, p, 1);
    MulAtLeast(h, p);
    assert (p - 1) * h == TWO32 - h;
    WrapCongruent(q - h, q - h + TWO32, -1);
  }

  lemma Distribute(p: int, q: int, h: int)
    ensures p * (q - h) == p * q - p * h && p * (h - q) == p * h - p * q
  {
  }

  lemma PositiveFactor(p: int, d: int)
    requires p >= 1 && p * d > 0
    ensures d > 0
  {
  }

  lemma DivShrinks(a: nat, d: int)
    requires d >= 1
    ensures 0 <= a / d <= a
  {
    var q := a / d;
    if q >= 1 { MulAtLeast(q, d); }
    if q <= -1 { MulAtLeast(-q, d); }
  }
}
