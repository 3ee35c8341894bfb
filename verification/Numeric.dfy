/** Checked and saturating 64-bit arithmetic (include/tef/numeric.hpp). */
module Numeric {

  const MAX_INT64: int := 0x7FFF_FFFF_FFFF_FFFF
  const MIN_INT64: int := -0x8000_0000_0000_0000

  /** The C++ std::int64_t. Storing a value in this type is a proof that no signed overflow happened. */
  type int64 = x: int | MIN_INT64 <= x <= MAX_INT64

  datatype Option<+T> = None | Some(value: T)

  /** C++ division truncates toward zero; Dafny's is Euclidean. */
  function TruncDiv(a: int, b: int): int
    requires b != 0
  {
    if a >= 0 then a / b else -((-a) / b)
  }

  function AddChecked(a: int64, b: int64): (r: Option<int64>)
    ensures r.Some? <==> MIN_INT64 <= a + b <= MAX_INT64
    ensures r.Some? ==> r.value == a + b
  {
    if b > 0 && a > MAX_INT64 - b then None
    else if b < 0 && a < MIN_INT64 - b then None
    else Some(a + b)
  }

  /** A saturating sum is the exact sum clamped to the representable range. */
  function SatAdd(a: int64, b: int64): (r: int64)
    ensures r == Clamp(a + b)
  {
    match AddChecked(a, b)
    case Some(v) => v
    case None => if b > 0 then MAX_INT64 else MIN_INT64
  }

  function Clamp(x: int): int64 {
    if x > MAX_INT64 then MAX_INT64 else if x < MIN_INT64 then MIN_INT64 else x
  }

  /** Adding non-negative amounts with saturation never loses the comparison with a small bound. */
  lemma ClampAdd(x: int, y: int)
    requires x >= 0 && 0 <= y <= MAX_INT64
    ensures SatAdd(Clamp(x), y) == Clamp(x + y)
  {
  }

  /** The overflow test of mul_checked, for operands reduced to their magnitudes. */
  lemma QuotientBoundsProduct(a: int, b: int, m: int)
    requires a > 0 && b > 0 && m >= 0
    ensures a > m / b <==> a * b > m
  {
    var q := m / b;
    assert m == q * b + m % b;
    if a > q {
      MulMonotone(q + 1, a, b);
      assert (q + 1) * b == q * b + b;
    } else {
      MulMonotone(a, q, b);
    }
  }

  lemma MulMonotone(x: int, y: int, b: int)
    requires x <= y && b >= 0
    ensures x * b <= y * b
  {
  }

  lemma SignRule(a: int, b: int)
    ensures (-a) * b == -(a * b) == a * (-b) && (-a) * (-b) == a * b
  {
  }

  /** Whether mul_checked reports an overflow: it compares one operand with a truncated quotient. */
  predicate MulOverflows(a: int, b: int)
    requires a != 0 && b != 0
  {
    if a > 0 then
      if b > 0 then a > TruncDiv(MAX_INT64, b) else b < TruncDiv(MIN_INT64, a)
    else
      if b > 0 then a < TruncDiv(MIN_INT64, b) else a < TruncDiv(MAX_INT64, b)
  }

  lemma MulOverflowsExactly(a: int, b: int, p: int)
    requires a != 0 && b != 0 && p == a * b
    ensures MulOverflows(a, b) <==> !(MIN_INT64 <= p <= MAX_INT64)
  {
    if a > 0 {
      if b > 0 { PositivePositive(a, b, p); } else { PositiveNegative(a, -b, -p) by { SignRule(a, b); } }
    } else {
      if b > 0 { NegativePositive(-a, b, -p) by { SignRule(a, b); } } else { NegativeNegative(-a, -b,
        p) by { SignRule(a, b); } }
    }
  }

  lemma PositivePositive(a: int, b: int, p: int)
    requires a > 0 && b > 0 && p == a * b
    ensures MulOverflows(a, b) <==> p > MAX_INT64
    ensures p > 0
  {
    QuotientBoundsProduct(a, b, MAX_INT64);
  }

  lemma PositiveNegative(a: int, k: int, p: int)
    requires a > 0 && k > 0 && p == a * k
    ensures MulOverflows(a, -k) <==> -p < MIN_INT64
    ensures p > 0
  {
    QuotientBoundsProduct(k, a, -MIN_INT64);
  }

  lemma NegativePositive(k: int, b: int, p: int)
    requires k > 0 && b > 0 && p == k * b
    ensures MulOverflows(-k, b) <==> -p < MIN_INT64
    ensures p > 0
  {
    QuotientBoundsProduct(k, b, -MIN_INT64);
  }

  lemma NegativeNegative(k: int, l: int, p: int)
    requires k > 0 && l > 0 && p == k * l
    ensures MulOverflows(-k, -l) <==> p > MAX_INT64
    ensures p > 0
  {
    QuotientBoundsProduct(k, l, MAX_INT64);
    TruncByNegative(MAX_INT64, l);
  }

  lemma TruncByNegative(m: int, k: int)
    requires m >= 0 && k > 0
    ensures TruncDiv(m, -k) == -(m / k)
  {
  }

  /** Product of two operands, or nothing when it does not fit in 64 bits. */
  function MulChecked(a: int64, b: int64): (r: Option<int64>)
    ensures r.Some? <==> MIN_INT64 <= a * b <= MAX_INT64
    ensures r.Some? ==> r.value == a * b
  {
    if a == 0 || b == 0 then Some(0)
    else if a == -1 then (if b == MIN_INT64 then None else Some(-b))
    else if b == -1 then (if a == MIN_INT64 then None else Some(-a))
    else
      MulOverflowsExactly(a, b, a * b);
      if MulOverflows(a, b) then None else Some(a * b)
  }
}
