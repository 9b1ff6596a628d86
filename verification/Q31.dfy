/**
  Q31 fixed-point requantisation of rrtos_ai_ukernel.c: what the rounding really computes, its
  error bound, and monotonicity of the whole pipeline.

  Shifts and masks of two's complement integers are written as floor division and remainder.
 */
module Q31 {
  import opened Basics

  const TWO30: int := 0x4000_0000
  const TWO31: int := 0x8000_0000
  const I32_MIN: int := -0x8000_0000
  const I32_MAX: int := 0x7fff_ffff

  predicate IsI32(x: int) {
    I32_MIN <= x <= I32_MAX
  }

  /** The cast `(int32_t)` of a wider integer. */
  function WrapI32(x: int): (r: int)
    ensures IsI32(r) && (IsI32(x) ==> r == x)
  {
    (x + TWO31) % U32 - TWO31
  }

  /** The cast `(int8_t)`. */
  function WrapI8(x: int): (r: int)
    ensures -128 <= r <= 127 && (-128 <= x <= 127 ==> r == x)
  {
    (x + 128) % 256 - 128
  }

  // ---------- the functions of the source ----------

  function SaturateI8(value: int, activationMin: int, activationMax: int): int {
    var lo := if activationMin < -128 then -128 else activationMin;
    var hi := if activationMax > 127 then 127 else activationMax;
    var raised := if value < lo then lo else value;
    WrapI8(if raised > hi then hi else raised)
  }

  function ClampI64ToI32(value: int): (r: int)
    ensures IsI32(r)
  {
    if value > I32_MAX then I32_MAX else if value < I32_MIN then I32_MIN else value
  }

  function RoundingHighMul(lhs: int, rhs: int): int {
    var product := lhs * rhs;
    var nudge := if product >= 0 then TWO30 else 1 - TWO30;
    var adjusted := product + nudge;
    if adjusted >= 0 then WrapI32(adjusted / TWO31) else WrapI32(-(-adjusted / TWO31))
  }

  function RoundingDivideByPowerOfTwo(value: int, exponent: int): int {
    if exponent <= 0 then value
    else if exponent >= 31 then (if value >= 0 then 0 else -1)
    else
      var mask := Pow2(exponent) - 1;
      var remainder := value % (mask + 1);
      var threshold := mask / 2 + (if value < 0 then 1 else 0);
      value / (mask + 1) + (if remainder > threshold then 1 else 0)
  }

  function MultiplyByQuantizedMultiplier(value: int, multiplier: int, shift: int): int {
    var leftShift := if shift > 0 then shift else 0;
    var rightShift := if shift > 0 then 0 else -shift;
    var shifted := value * Pow2(leftShift);
    RoundingDivideByPowerOfTwo(RoundingHighMul(ClampI64ToI32(shifted), multiplier), rightShift)
  }

  /** One accumulator through the whole pipeline. */
  function Requantize(acc: int, multiplier: int, shift: int, zeroPoint: int, lo: int, hi: int): int {
    SaturateI8(MultiplyByQuantizedMultiplier(acc, multiplier, shift) + zeroPoint, lo, hi)
  }

  // ---------- the high multiplication ----------

  /** The product of two 32-bit integers rounded to nearest after division by 2^31, halves upwards. */
  function RoundedHighProduct(lhs: int, rhs: int): int {
    (lhs * rhs + TWO30) / TWO31
  }

  lemma ProductBounds(a: int, b: int)
    requires IsI32(a) && IsI32(b)
    ensures -TWO31 * TWO31 < a * b <= TWO31 * TWO31
    ensures a * b == TWO31 * TWO31 <==> a == I32_MIN && b == I32_MIN
    ensures a * b < TWO31 * TWO31 ==> a * b <= TWO31 * TWO31 - TWO31
  {
    MulBounds(a, b);
  }

  lemma MulBounds(a: int, b: int)
    requires IsI32(a) && IsI32(b)
    ensures -TWO31 * I32_MAX <= a * b
    ensures a != I32_MIN || b != I32_MIN ==> a * b <= TWO31 * I32_MAX
  {
    if a >= 0 && b >= 0 {
      MulMonotone(a, I32_MAX, b, I32_MAX);
      MulMonotone(0, a, 0, b);
    } else if a >= 0 {
      MulMonotone(a, I32_MAX, -b, TWO31);
      MulMonotone(0, a, 0, -b);
      assert a * b == -(a * -b);
    } else if b >= 0 {
      MulMonotone(-a, TWO31, b, I32_MAX);
      MulMonotone(0, -a, 0, b);
      assert a * b == -(-a * b);
    } else {
      NegativeProduct(a, b);
    }
  }

  lemma NegativeProduct(a: int, b: int)
    requires IsI32(a) && IsI32(b) && a < 0 && b < 0
    ensures 0 <= a * b && (a != I32_MIN || b != I32_MIN ==> a * b <= TWO31 * I32_MAX)
  {
    assert a * b == -a * -b;
    MulMonotone(0, -a, 0, -b);
    if a != I32_MIN {
      MulMonotone(-a, I32_MAX, -b, TWO31);
    } else if b != I32_MIN {
      MulMonotone(-a, TWO31, -b, I32_MAX);
    }
  }

  lemma MulMonotone(x: nat, x': nat, y: nat, y': nat)
    requires x <= x' && y <= y'
    ensures x * y <= x' * y'
  {
    MulLe(x, x', y);
    assert x' * y <= x' * y' by {
      MulLe(y, y', x');
    }
  }

  /** Exact for every pair of 32-bit integers but one. */
  lemma {:induction false} RoundingHighMulIsExact(lhs: int, rhs: int)
    requires IsI32(lhs) && IsI32(rhs)
    ensures RoundingHighMul(lhs, rhs) == RoundedHighProduct(lhs, rhs) <==> !(lhs == I32_MIN && rhs == I32_MIN)
  {
    ProductBounds(lhs, rhs);
    HighMulOfProduct(lhs * rhs);
    if lhs == I32_MIN && rhs == I32_MIN {
      assert lhs * rhs == TWO31 * TWO31;
    }
  }

  lemma HighMulOfProduct(p: int)
    requires -TWO31 * TWO31 < p <= TWO31 * TWO31
    ensures
      var adjusted := p + if p >= 0 then TWO30 else 1 - TWO30;
      var rounded := if adjusted >= 0 then adjusted / TWO31 else -(-adjusted / TWO31);
      && rounded == (p + TWO30) / TWO31
      && (p <= TWO31 * TWO31 - TWO31 ==> IsI32(rounded))
      && (p == TWO31 * TWO31 ==> rounded == TWO31)
  {
  }

  // ---------- rounding division ----------

  /** `r` is the integer nearest to `value / m`, ties away from zero. */
  predicate IsNearestAway(value: int, m: int, r: int) {
    && -m <= 2 * (r * m - value) <= m
    && (2 * (r * m - value) == m ==> value >= 0)
    && (2 * (r * m - value) == -m ==> value < 0)
  }

  lemma NearestAwayIsUnique(value: int, m: int, r: int, s: int)
    requires m > 0 && IsNearestAway(value, m, r) && IsNearestAway(value, m, s)
    ensures r == s
  {
    if r < s {
      NearestIsNotBelow(value, m, r, s);
    } else if s < r {
      NearestIsNotBelow(value, m, s, r);
    }
  }

  lemma NearestIsNotBelow(value: int, m: int, r: int, s: int)
    requires m > 0 && r < s && IsNearestAway(value, m, r)
    ensures !IsNearestAway(value, m, s)
  {
    assert r * m + m <= s * m by {
      MulLe(r + 1, s, m);
      assert (r + 1) * m == r * m + m;
    }
    MultiplesAreApart(value, m, r * m, s * m);
  }

  /** Two multiples of `m` at least `m` apart are not both nearest, ties away from zero. */
  lemma MultiplesAreApart(value: int, m: int, p: int, q: int)
    requires m > 0 && p + m <= q
    requires -m <= 2 * (p - value) <= m && (2 * (p - value) == -m ==> value < 0)
    ensures -m <= 2 * (q - value) <= m ==> 2 * (q - value) == m && value < 0
  {
  }

  lemma HalfOfDouble(h: int)
    ensures 2 * h % 2 == 0 && 2 * h / 2 == h && (2 * h - 1) / 2 == h - 1
  {
  }

  lemma {:induction false} Pow2IsEven(e: nat)
    requires e > 0
    ensures Pow2(e) % 2 == 0 && Pow2(e) >= 2 && (Pow2(e) - 1) / 2 == Pow2(e) / 2 - 1
  {
    HalfOfDouble(Pow2(e - 1));
  }

  /** For exponents 1 to 30 the division rounds to nearest, ties away from zero. */
  lemma {:induction false} DivisionIsNearest(value: int, exponent: int)
    requires 1 <= exponent <= 30
    ensures IsNearestAway(value, Pow2(exponent), RoundingDivideByPowerOfTwo(value, exponent))
  {
    var m := Pow2(exponent);
    Pow2IsEven(exponent);
    NearestOfQuotient(value, m);
  }

  lemma NearestOfQuotient(value: int, m: int)
    requires m >= 2 && m % 2 == 0
    ensures
      var threshold := m / 2 - 1 + if value < 0 then 1 else 0;
      IsNearestAway(value, m, value / m + if value % m > threshold then 1 else 0)
  {
    var q, r := value / m, value % m;
    assert value == q * m + r;
    assert (q + 1) * m == q * m + m;
  }

  lemma {:induction false} Pow2Sum(a: nat, b: nat)
    ensures Pow2(a + b) == Pow2(a) * Pow2(b)
  {
    if b > 0 {
      Pow2Sum(a, b - 1);
      assert Pow2(a + b) == 2 * Pow2(a + (b - 1));
    }
  }

  lemma Pow2Of31()
    ensures Pow2(31) == TWO31
  {
    assert Pow2(3) == 8 && Pow2(4) == 16;
    Pow2Sum(4, 4);
    Pow2Sum(8, 8);
    Pow2Sum(16, 8);
    Pow2Sum(4, 3);
    Pow2Sum(24, 7);
  }

  lemma {:induction false} Pow2AtLeast(e: nat)
    requires e >= 31
    ensures Pow2(e) >= TWO31 && Pow2(31) == TWO31
  {
    Pow2Of31();
    if e > 31 {
      Pow2AtLeast(e - 1);
    }
  }

  /** For larger exponents the source's constant answer is the nearest one exactly in this case. */
  lemma {:induction false} LargeExponentIsNearest(value: int, exponent: nat)
    requires IsI32(value) && exponent >= 31
    ensures IsNearestAway(value, Pow2(exponent), RoundingDivideByPowerOfTwo(value, exponent)) <==>
            if value >= 0 then 2 * value < Pow2(exponent) else 2 * value + Pow2(exponent) <= 0
  {
    Pow2AtLeast(exponent);
  }

  /** A concrete input on which it is not: -1 is rounded to -1 instead of 0. */
  lemma LargeExponentCanFail()
    ensures RoundingDivideByPowerOfTwo(-1, 31) == -1 && IsNearestAway(-1, Pow2(31), 0)
  {
    Pow2AtLeast(31);
  }

  // ---------- error bound ----------

  lemma {:induction false} HighMulError(lhs: int, rhs: int)
    requires IsI32(lhs) && IsI32(rhs) && !(lhs == I32_MIN && rhs == I32_MIN)
    ensures -TWO30 < RoundingHighMul(lhs, rhs) * TWO31 - lhs * rhs <= TWO30
  {
    RoundingHighMulIsExact(lhs, rhs);
    var p := lhs * rhs;
    assert (p + TWO30) / TWO31 * TWO31 + (p + TWO30) % TWO31 == p + TWO30;
  }

  /** `q` rounds `high / m`, and `high` rounds `p / 2^31`. */
  lemma CombineErrors(q: int, m: int, high: int, p: int)
    requires -TWO30 < high * TWO31 - p <= TWO30
    requires -m <= 2 * (q * m - high) <= m
    ensures -(TWO30 * m + TWO30) <= q * m * TWO31 - p <= TWO30 * m + TWO30
  {
    var scaled := q * m;
  }

  /** The error of a right shift by `r <= 30`, scaled by 2^(31+r). */
  lemma {:induction false} ScaledError(value: int, multiplier: int, r: int)
    requires IsI32(value) && IsI32(multiplier) && 0 <= r <= 30
    requires !(value == I32_MIN && multiplier == I32_MIN)
    ensures
      var q, m := MultiplyByQuantizedMultiplier(value, multiplier, -r), Pow2(r);
      -(TWO30 * m + TWO30) <= q * m * TWO31 - value * multiplier <= TWO30 * m + TWO30
  {
    assert Pow2(0) == 1;
    var high := RoundingHighMul(value, multiplier);
    var q := RoundingDivideByPowerOfTwo(high, r);
    HighMulError(value, multiplier);
    if r > 0 {
      DivisionIsNearest(high, r);
    }
    CombineErrors(q, Pow2(r), high, value * multiplier);
    assert MultiplyByQuantizedMultiplier(value, multiplier, -r) == q;
  }

  /**
    With right shift `r <= 30` the result differs from `value * multiplier * 2^(-31-r)` by at most
    `1/2 + 2^(-r-1)`.
   */
  lemma {:induction false} ErrorBound(value: int, multiplier: int, r: int)
    requires IsI32(value) && IsI32(multiplier) && 0 <= r <= 30
    requires !(value == I32_MIN && multiplier == I32_MIN)
    ensures
      var exact := (value * multiplier) as real / (Pow2(r) * TWO31) as real;
      var bound := 0.5 + 1.0 / (2 * Pow2(r)) as real;
      -bound <= MultiplyByQuantizedMultiplier(value, multiplier, -r) as real - exact <= bound
  {
    ScaledError(value, multiplier, r);
    ScaledToReal(MultiplyByQuantizedMultiplier(value, multiplier, -r), value * multiplier, Pow2(r));
  }

  lemma ScaledToReal(q: int, p: int, m: nat)
    requires m > 0
    requires -(TWO30 * m + TWO30) <= q * m * TWO31 - p <= TWO30 * m + TWO30
    ensures
      var exact := p as real / (m * TWO31) as real;
      var bound := 0.5 + 1.0 / (2 * m) as real;
      -bound <= q as real - exact <= bound
  {
    var d := (m * TWO31) as real;
    var exact, half := p as real / d, 1.0 / (2 * m) as real;
    ScaleOfProduct(q, m);
    ScaleOfHalf(m);
    assert exact * d == p as real;
    assert (q as real - exact) * d == (q * m * TWO31 - p) as real;
    assert (0.5 + half) * d == (TWO30 * m + TWO30) as real;
    CancelScale(q as real - exact, 0.5 + half, d);
    CancelScale(-(0.5 + half), q as real - exact, d);
  }

  lemma ScaleOfProduct(q: int, m: nat)
    ensures (q * m * TWO31) as real == q as real * (m * TWO31) as real
  {
    assert q * m * TWO31 == q * (m * TWO31);
    RealProduct(q, m * TWO31);
  }

  lemma RealProduct(a: int, b: int)
    ensures (a * b) as real == a as real * b as real
  {
  }

  lemma ScaleOfHalf(m: nat)
    requires m > 0
    ensures (1.0 / (2 * m) as real) * (m * TWO31) as real == TWO30 as real
    ensures 0.5 * (m * TWO31) as real == (TWO30 * m) as real
  {
    var t := (2 * m) as real;
    assert (m * TWO31) as real == t * TWO30 as real by {
      RealProduct(2 * m, TWO30);
    }
    assert (1.0 / t) * t == 1.0;
    assert (1.0 / t) * (t * TWO30 as real) == (1.0 / t) * t * TWO30 as real;
  }

  lemma CancelScale(x: real, y: real, d: real)
    requires d > 0.0 && x * d <= y * d
    ensures x <= y
  {
  }

  // ---------- the byte that is written ----------

  function Distance(a: int, b: int): nat {
    if a <= b then b - a else a - b
  }

  /** The bytes the activation bounds leave. */
  predicate InActivationRange(n: int, lo: int, hi: int) {
    lo <= n <= hi && -128 <= n <= 127
  }

  /** No other byte of the range is nearer to the target. */
  ghost predicate IsNearestByte(byte: int, target: int, lo: int, hi: int) {
    && InActivationRange(byte, lo, hi)
    && forall n {:trigger InActivationRange(n, lo, hi)} :: InActivationRange(n, lo, hi) ==>
         Distance(byte, target) <= Distance(n, target)
  }

  /** Some byte is left by the bounds. */
  predicate UsableBounds(lo: int, hi: int) {
    lo <= hi && -128 <= hi && lo <= 127
  }

  lemma SaturateIsNearest(value: int, lo: int, hi: int)
    requires UsableBounds(lo, hi)
    ensures IsNearestByte(SaturateI8(value, lo, hi), value, lo, hi)
  {
  }

  /** A multiplication whose result has an error bound: nothing is shifted out of 32 bits. */
  predicate HasErrorBound(acc: int, multiplier: int, shift: int) {
    && IsI32(acc) && IsI32(multiplier) && -30 <= shift
    && IsI32(acc * Pow2(if shift > 0 then shift else 0))
    && !(acc * Pow2(if shift > 0 then shift else 0) == I32_MIN && multiplier == I32_MIN)
  }

  /** `acc * multiplier * 2^(shift - 31)` */
  ghost function ExactProduct(acc: int, multiplier: int, shift: int): real {
    if shift >= 0 then (acc * Pow2(shift) * multiplier) as real / 2147483648.0
    else (acc * multiplier) as real / (Pow2(-shift) * 2147483648) as real
  }

  /** One half, and for a right shift by `r` another `2^(-r-1)`. */
  ghost function RoundingError(shift: int): real {
    if shift >= 0 then 0.5 else 0.5 + 1.0 / (2 * Pow2(-shift)) as real
  }

  lemma LeftShiftError(acc: int, multiplier: int, shift: nat)
    requires HasErrorBound(acc, multiplier, shift)
    ensures
      var q := MultiplyByQuantizedMultiplier(acc, multiplier, shift) as real;
      -0.5 <= q - ExactProduct(acc, multiplier, shift) <= 0.5
  {
    assert Pow2(0) == 1;
    var shifted := acc * Pow2(shift);
    HighMulError(shifted, multiplier);
    HalfOfScaled(RoundingHighMul(shifted, multiplier), shifted * multiplier);
  }

  lemma HalfOfScaled(q: int, p: int)
    requires -TWO30 <= q * TWO31 - p <= TWO30
    ensures -0.5 <= q as real - p as real / 2147483648.0 <= 0.5
  {
    assert (q as real - p as real / 2147483648.0) * 2147483648.0 == (q * TWO31 - p) as real;
  }

  lemma MultiplicationError(acc: int, multiplier: int, shift: int)
    requires HasErrorBound(acc, multiplier, shift)
    ensures
      var q := MultiplyByQuantizedMultiplier(acc, multiplier, shift) as real;
      -RoundingError(shift) <= q - ExactProduct(acc, multiplier, shift) <= RoundingError(shift)
  {
    if shift >= 0 {
      LeftShiftError(acc, multiplier, shift);
    } else {
      assert Pow2(0) == 1;
      ErrorBound(acc, multiplier, -shift);
    }
  }

  /**
    The byte is within the rounding error of the zero point plus the exact product, on the upper
    side unless it is the smallest of its range, on the lower side unless it is the largest.
   */
  ghost predicate IsCloseToExact(
    byte: int, acc: int, multiplier: int, shift: int, zeroPoint: int, lo: int, hi: int)
  {
    var exact, error := zeroPoint as real + ExactProduct(acc, multiplier, shift), RoundingError(shift);
    && (byte > lo && byte > -128 ==> byte as real <= exact + error)
    && (byte < hi && byte < 127 ==> byte as real >= exact - error)
  }

  /** What a requantised byte is, said without the saturation and, where there is a bound, without the rounding. */
  ghost predicate IsRequantized(
    byte: int, acc: int, multiplier: int, shift: int, zeroPoint: int, lo: int, hi: int)
  {
    UsableBounds(lo, hi) ==>
      && IsNearestByte(byte, zeroPoint + MultiplyByQuantizedMultiplier(acc, multiplier, shift), lo, hi)
      && (HasErrorBound(acc, multiplier, shift) ==>
            IsCloseToExact(byte, acc, multiplier, shift, zeroPoint, lo, hi))
  }

  /** The whole pipeline gives that byte. */
  lemma {:induction false} RequantizedByteIs(
    acc: int, multiplier: int, shift: int, zeroPoint: int, lo: int, hi: int)
    ensures IsRequantized(Requantize(acc, multiplier, shift, zeroPoint, lo, hi),
                          acc, multiplier, shift, zeroPoint, lo, hi)
  {
    if UsableBounds(lo, hi) {
      var q := MultiplyByQuantizedMultiplier(acc, multiplier, shift);
      SaturateIsNearest(q + zeroPoint, lo, hi);
      if HasErrorBound(acc, multiplier, shift) {
        MultiplicationError(acc, multiplier, shift);
        NearestIsClose(SaturateI8(q + zeroPoint, lo, hi), q, zeroPoint, lo, hi,
                       ExactProduct(acc, multiplier, shift), RoundingError(shift));
      }
    }
  }

  lemma NearestIsClose(byte: int, q: int, zeroPoint: int, lo: int, hi: int, exact: real, error: real)
    requires byte == SaturateI8(q + zeroPoint, lo, hi) && UsableBounds(lo, hi)
    requires -error <= q as real - exact <= error
    ensures byte > lo && byte > -128 ==> byte as real <= zeroPoint as real + exact + error
    ensures byte < hi && byte < 127 ==> byte as real >= zeroPoint as real + exact - error
  {
  }

  /** A left shift out of 32 bits counts as the largest or smallest 32-bit accumulator. */
  lemma LeftShiftSaturates(acc: int, multiplier: int, shift: nat)
    ensures acc * Pow2(shift) > I32_MAX ==>
              MultiplyByQuantizedMultiplier(acc, multiplier, shift) == RoundingHighMul(2147483647, multiplier)
    ensures acc * Pow2(shift) < I32_MIN ==>
              MultiplyByQuantizedMultiplier(acc, multiplier, shift) == RoundingHighMul(-2147483648, multiplier)
  {
  }

  // ---------- monotonicity ----------

  lemma {:induction false} HighMulMonotone(a: int, b: int, multiplier: int)
    requires IsI32(a) && IsI32(b) && 0 <= multiplier <= I32_MAX && a <= b
    ensures RoundingHighMul(a, multiplier) <= RoundingHighMul(b, multiplier)
  {
    RoundingHighMulIsExact(a, multiplier);
    RoundingHighMulIsExact(b, multiplier);
    MulLe(a, b, multiplier);
  }

  lemma DivisionMonotone(a: int, b: int, exponent: int)
    requires a <= b
    ensures RoundingDivideByPowerOfTwo(a, exponent) <= RoundingDivideByPowerOfTwo(b, exponent)
  {
    if 1 <= exponent <= 30 {
      DivisionIsNearest(a, exponent);
      DivisionIsNearest(b, exponent);
      NearestMonotone(a, b, Pow2(exponent), RoundingDivideByPowerOfTwo(a, exponent),
                      RoundingDivideByPowerOfTwo(b, exponent));
    }
  }

  lemma MulSucc(s: int, m: int)
    ensures (s + 1) * m == s * m + m
  {
  }

  lemma NearestMonotone(a: int, b: int, m: int, r: int, s: int)
    requires m > 0 && a <= b && IsNearestAway(a, m, r) && IsNearestAway(b, m, s)
    ensures r <= s
  {
    if s < r {
      MulSucc(s, m);
      MulLe(s + 1, r, m);
    }
  }

  lemma MultiplierMonotone(a: int, b: int, multiplier: int, shift: int)
    requires 0 <= multiplier <= I32_MAX && a <= b
    ensures MultiplyByQuantizedMultiplier(a, multiplier, shift) <= MultiplyByQuantizedMultiplier(b, multiplier, shift)
  {
    var leftShift := if shift > 0 then shift else 0;
    MulLe(a, b, Pow2(leftShift));
    var ca, cb := ClampI64ToI32(a * Pow2(leftShift)), ClampI64ToI32(b * Pow2(leftShift));
    HighMulMonotone(ca, cb, multiplier);
    DivisionMonotone(RoundingHighMul(ca, multiplier), RoundingHighMul(cb, multiplier), if shift > 0 then 0 else -shift);
  }

  /** Saturation included, a larger accumulator never gives a smaller int8. */
  lemma RequantizeMonotone(
    a: int, b: int, multiplier: int, shift: int, zeroPoint: int, lo: int, hi: int)
    requires 0 <= multiplier <= I32_MAX && a <= b
    ensures Requantize(a, multiplier, shift, zeroPoint, lo, hi) <= Requantize(b, multiplier, shift, zeroPoint, lo, hi)
  {
    MultiplierMonotone(a, b, multiplier, shift);
    SaturateMonotone(MultiplyByQuantizedMultiplier(a, multiplier, shift) + zeroPoint,
                     MultiplyByQuantizedMultiplier(b, multiplier, shift) + zeroPoint, lo, hi);
  }

  lemma SaturateMonotone(a: int, b: int, lo: int, hi: int)
    requires a <= b
    ensures SaturateI8(a, lo, hi) <= SaturateI8(b, lo, hi)
  {
  }

  function MaxOf(xs: seq<int>): int
    requires xs != []
  {
    if |xs| == 1 then xs[0] else Max(MaxOf(xs[..|xs| - 1]), xs[|xs| - 1])
  }

  function RequantizeAll(xs: seq<int>, multiplier: int, shift: int, zeroPoint: int, lo: int, hi: int): (ys: seq<int>)
    ensures |ys| == |xs|
  {
    seq(|xs|, i requires 0 <= i < |xs| => Requantize(xs[i], multiplier, shift, zeroPoint, lo, hi))
  }

  /** Requantising commutes with taking the maximum of a window, so pooling may come before or after. */
  lemma {:induction false} RequantizeCommutesWithMax(
    xs: seq<int>, multiplier: int, shift: int, zeroPoint: int, lo: int, hi: int)
    requires xs != [] && 0 <= multiplier <= I32_MAX
    ensures MaxOf(RequantizeAll(xs, multiplier, shift, zeroPoint, lo, hi))
            == Requantize(MaxOf(xs), multiplier, shift, zeroPoint, lo, hi)
  {
    var ys := RequantizeAll(xs, multiplier, shift, zeroPoint, lo, hi);
    var n := |xs| - 1;
    if n > 0 {
      RequantizeCommutesWithMax(xs[..n], multiplier, shift, zeroPoint, lo, hi);
      assert ys[..n] == RequantizeAll(xs[..n], multiplier, shift, zeroPoint, lo, hi);
      var m := MaxOf(xs[..n]);
      if m <= xs[n] {
        RequantizeMonotone(m, xs[n], multiplier, shift, zeroPoint, lo, hi);
      } else {
        RequantizeMonotone(xs[n], m, multiplier, shift, zeroPoint, lo, hi);
      }
    }
  }
}
