/**
 * Machine words and the fixed-width Go arithmetic the emulator relies on.
 *
 * The emulator stores everything in 16-bit unsigned words and does its
 * intermediate arithmetic in Go's uint32 / int32. Dafny integers are
 * unbounded, so every truncation, wrap-around and over-wide shift that
 * Go performs implicitly is written out here once, and the rest of the
 * model uses these helpers.
 */
module Words {

  const WordModulus: int := 0x1_0000
  const UInt32Modulus: int := 0x1_0000_0000
  const UInt64Modulus: int := 0x1_0000_0000_0000_0000

  /** A 16-bit machine word (`cpu.Word`, a uint16). */
  type Word = w: int | 0 <= w < 0x1_0000

  type UInt32 = n: int | 0 <= n < 0x1_0000_0000

  type UInt64 = n: int | 0 <= n < 0x1_0000_0000_0000_0000

  /** Go's conversion `Word(x)` from any integer type: keep the low 16 bits.
      Dafny's `%` is Euclidean, which is exactly two's-complement truncation. */
  function Wrap16(x: int): (r: Word)
    ensures 0 <= x < WordModulus ==> r == x
    ensures WordModulus <= x < 2 * WordModulus ==> r == x - WordModulus
    ensures -WordModulus <= x < 0 ==> r == x + WordModulus
  {
    x % WordModulus
  }

  /** Go's conversion `uint32(x)`, and uint32 wrap-around. */
  function Wrap32(x: int): (r: UInt32)
    ensures 0 <= x < UInt32Modulus ==> r == x
    ensures UInt32Modulus <= x < 2 * UInt32Modulus ==> r == x - UInt32Modulus
    ensures -UInt32Modulus <= x < 0 ==> r == x + UInt32Modulus
  {
    x % UInt32Modulus
  }

  /** uint64 wrap-around. */
  function Wrap64(x: int): (r: UInt64)
    ensures 0 <= x < UInt64Modulus ==> r == x
  {
    x % UInt64Modulus
  }

  /** Word addition and subtraction, wrapping like Go's uint16 `+` and `-`. */
  function Add16(x: Word, y: int): Word {
    Wrap16(x + y)
  }

  function Sub16(x: Word, y: int): Word {
    Wrap16(x - y)
  }

  /** The low half of a 32-bit value. */
  function Lo16(u: UInt32): Word {
    u % WordModulus
  }

  /** The high half of a 32-bit value. */
  function Hi16(u: UInt32): Word {
    u / WordModulus
  }

  lemma {:induction false} SplitHalves(u: UInt32)
    ensures Lo16(u) + WordModulus * Hi16(u) == u
  {
  }

  function Pow2(n: nat): (r: nat)
    ensures r >= 1
  {
    if n == 0 then 1 else 2 * Pow2(n - 1)
  }

  /** Unsigned word division (the divisor is non-zero): the quotient is the
      largest q with q * y <= x. */
  function DivWord(x: Word, y: Word): (q: Word)
    requires y != 0
    ensures q * y <= x < (q + 1) * y
  {
    QuotientBounds(x, y);
    x / y
  }

  lemma QuotientBounds(x: nat, y: nat)
    requires y > 0
    ensures 0 <= x / y <= x
    ensures (x / y) * y <= x < (x / y + 1) * y
  {
    var q, r := x / y, x % y;
    assert x == q * y + r && 0 <= r < y;
    assert (q + 1) * y == q * y + y;
    assert q * y == q * (y - 1) + q;
    MulNonNegative(q, y - 1);
  }

  lemma MulNonNegative(a: nat, b: nat)
    ensures a * b >= 0
  {
  }

  lemma DivWordSelf(y: Word)
    requires y != 0
    ensures DivWord(y, y) == 1
  {
    assert y / y == 1;
  }

  /** uint32 multiplication, wrapping. */
  function Mul32(x: UInt32, y: UInt32): UInt32 {
    Wrap32(x * y)
  }

  /** Halves `x` `n` times, rounding down each time: Go's unsigned `x >> n`. */
  function HalveTimes(x: nat, n: nat): (r: nat)
    ensures r <= x
  {
    if n == 0 then x else HalveTimes(x / 2, n - 1)
  }

  /** The halving loop is floor division by 2^n. */
  lemma {:induction false} HalveTimesDivides(x: nat, n: nat)
    ensures HalveTimes(x, n) * Pow2(n) <= x < (HalveTimes(x, n) + 1) * Pow2(n)
  {
    if n > 0 {
      var h, p := x / 2, Pow2(n - 1);
      HalveTimesDivides(h, n - 1);
      var r := HalveTimes(h, n - 1);
      assert HalveTimes(x, n) == r;
      DoubleProduct(r, p);
      DoubleProduct(r + 1, p);
    }
  }

  lemma DoubleProduct(a: int, p: int)
    ensures a * (2 * p) == 2 * (a * p)
  {
  }

  /** Go's `x >> n` on a uint16: a shift by 16 or more yields 0. */
  function ShrWord(x: Word, n: nat): Word {
    if n >= 16 then 0 else HalveTimes(x, n)
  }

  /** Go's `x << n` on a uint32: bits shifted past bit 31 are lost, and a
      shift by 32 or more yields 0. */
  function Shl32(x: UInt32, n: nat): UInt32 {
    if n >= 32 then 0 else Wrap32(x * Pow2(n))
  }

  /** Go's `x >> n` on a uint32. */
  function Shr32(x: UInt32, n: nat): UInt32 {
    if n >= 32 then 0 else HalveTimes(x, n)
  }

  /** Go's arithmetic `x >> n` on an int32: rounds toward minus infinity,
      and a shift by 32 or more yields 0 or -1 by sign. */
  function Asr32(x: int, n: nat): int {
    if n >= 32 then (if x < 0 then -1 else 0) else x / Pow2(n)
  }

  /** Bitwise operations on words. */
  function And16(x: Word, y: Word): Word {
    ((x as bv16) & (y as bv16)) as int
  }

  function Or16(x: Word, y: Word): Word {
    ((x as bv16) | (y as bv16)) as int
  }

  function Xor16(x: Word, y: Word): Word {
    ((x as bv16) ^ (y as bv16)) as int
  }

  /**
   * `Signed` reinterprets a word as a two's-complement int16. The emulator's
   * own definition is not part of this model; it is taken to widen the
   * int16 to an int32 value, which every use below treats as such.
   */
  function Signed(w: Word): (r: int)
    ensures -0x8000 <= r < 0x8000
    ensures Wrap16(r) == w
    ensures (r < 0) <==> (w >= 0x8000)
  {
    if w < 0x8000 then w else w - WordModulus
  }

  function Abs(x: int): nat {
    if x < 0 then -x else x
  }

  /** Go's integer `/`: the quotient truncated toward zero. */
  function GoQuot(x: int, y: int): (q: int)
    requires y != 0
    ensures Abs(x - q * y) < Abs(y)
    ensures x - q * y == 0 || ((x - q * y < 0) <==> (x < 0))
  {
    var m := Abs(x) / Abs(y);
    var q := if (x < 0) == (y < 0) then m else -m;
    TruncatedRemainder(x, y, m, q);
    q
  }

  /** With m the quotient of the magnitudes and q carrying the sign of
      x * y, the remainder x - q * y has the magnitude of |x| % |y| and
      the sign of x. */
  lemma TruncatedRemainder(x: int, y: int, m: int, q: int)
    requires y != 0 && m == Abs(x) / Abs(y)
    requires q == if (x < 0) == (y < 0) then m else -m
    ensures x - q * y == if x < 0 then -(Abs(x) % Abs(y)) else Abs(x) % Abs(y)
  {
    var ax, ay := Abs(x), Abs(y);
    assert ax == m * ay + ax % ay;
    assert q * y == (if x < 0 then -(m * ay) else m * ay);
  }

  /** Go's integer `%`: the remainder takes the sign of the dividend, and
      quotient and remainder recompose the dividend. */
  function GoRem(x: int, y: int): (r: int)
    requires y != 0
    ensures Abs(r) < Abs(y)
    ensures r == 0 || ((r < 0) <==> (x < 0))
    ensures x == GoQuot(x, y) * y + r
  {
    x - GoQuot(x, y) * y
  }
}
