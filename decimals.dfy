/**
 * The part of java.math.BigDecimal that the analytics engine uses: a decimal
 * is an unscaled integer together with a scale, its value being
 * unscaled / 10^scale.  Comparison is numeric (compareTo), subtraction is
 * exact at the larger of the two scales, and division rounds HALF_UP to the
 * scale of the dividend.
 */
module Decimals {

  datatype Decimal = Decimal(unscaled: int, scale: nat)

  function Pow10(n: nat): (r: nat)
    ensures r >= 1
  {
    if n == 0 then 1 else 10 * Pow10(n - 1)
  }

  lemma {:induction false} Pow10Add(m: nat, n: nat)
    ensures Pow10(m + n) == Pow10(m) * Pow10(n)
  {
    if n > 0 {
      Pow10Add(m, n - 1);
      assert Pow10(m + n) == 10 * Pow10(m + n - 1);
    }
  }

  /** Numeric comparison, as BigDecimal.compareTo: cross-multiply by the other scale. */
  predicate Le(a: Decimal, b: Decimal) {
    a.unscaled * Pow10(b.scale) <= b.unscaled * Pow10(a.scale)
  }

  predicate Lt(a: Decimal, b: Decimal) {
    !Le(b, a)
  }

  /** compareTo's three-way result. */
  function Cmp(a: Decimal, b: Decimal): (c: int)
    ensures c <= 0 <==> Le(a, b)
    ensures c >= 0 <==> Le(b, a)
    ensures -1 <= c <= 1
  {
    var x, y := a.unscaled * Pow10(b.scale), b.unscaled * Pow10(a.scale);
    if x < y then -1 else if x == y then 0 else 1
  }

  /** Two decimals are numerically equal when each is at most the other (1.0 and 1.00). */
  predicate SameValue(a: Decimal, b: Decimal) {
    Le(a, b) && Le(b, a)
  }

  /** At a common scale, decimals compare as their unscaled values. */
  lemma SameScaleLe(a: Decimal, b: Decimal)
    requires a.scale == b.scale
    ensures Le(a, b) <==> a.unscaled <= b.unscaled
  {
    ScaleIff(a.unscaled, b.unscaled, Pow10(a.scale));
  }

  lemma LeTotal(a: Decimal, b: Decimal)
    ensures Le(a, b) || Le(b, a)
  {
  }

  lemma MulMonotone(x: int, y: int, k: int)
    requires x <= y && k > 0
    ensures x * k <= y * k
  {
    assert (y - x) * k >= 0;
  }

  /** Multiplying both sides by a positive factor keeps an inequality, both ways. */
  lemma ScaleIff(x: int, y: int, k: int)
    requires k > 0
    ensures x <= y <==> x * k <= y * k
  {
    if x <= y {
      MulMonotone(x, y, k);
    } else {
      MulMonotone(y + 1, x, k);
    }
  }

  lemma CrossTransitive(au: int, bu: int, cu: int, pa: int, pb: int, pc: int)
    requires pa > 0 && pb > 0 && pc > 0
    requires au * pb <= bu * pa && bu * pc <= cu * pb
    ensures au * pc <= cu * pa
  {
    MulMonotone(au * pb, bu * pa, pc);
    MulMonotone(bu * pc, cu * pb, pa);
    assert (au * pb) * pc == (au * pc) * pb;
    assert (bu * pa) * pc == (bu * pc) * pa;
    assert (cu * pb) * pa == (cu * pa) * pb;
    ScaleIff(au * pc, cu * pa, pb);
  }

  lemma LeTransitive(a: Decimal, b: Decimal, c: Decimal)
    requires Le(a, b) && Le(b, c)
    ensures Le(a, c)
  {
    CrossTransitive(a.unscaled, b.unscaled, c.unscaled, Pow10(a.scale), Pow10(b.scale), Pow10(c.scale));
  }

  /** BigDecimal.subtract: exact, at scale max(a.scale, b.scale). */
  function Sub(a: Decimal, b: Decimal): (r: Decimal)
    ensures r.scale == if a.scale >= b.scale then a.scale else b.scale
    ensures r.unscaled >= 0 <==> Le(b, a)
  {
    var m := if a.scale >= b.scale then a.scale else b.scale;
    var ka: nat, kb: nat := m - a.scale, m - b.scale;
    Pow10Add(ka, a.scale);
    Pow10Add(kb, b.scale);
    SubSign(a.unscaled, b.unscaled, Pow10(a.scale), Pow10(b.scale), Pow10(ka), Pow10(kb), Pow10(m));
    Decimal(a.unscaled * Pow10(ka) - b.unscaled * Pow10(kb), m)
  }

  lemma SubSign(au: int, bu: int, pa: int, pb: int, qa: int, qb: int, p: int)
    requires pa > 0 && pb > 0 && qa > 0 && qb > 0
    requires qa * pa == p && qb * pb == p
    ensures au * qa >= bu * qb <==> bu * pa <= au * pb
  {
    var k := pa * pb;
    assert (au * qa) * k == (au * pb) * (qa * pa);
    assert (bu * qb) * k == (bu * pa) * (qb * pb);
    ScaleIff(bu * qb, au * qa, k);
    ScaleIff(bu * pa, au * pb, p);
  }

  /**
   * Sub is exact: the difference, cross-multiplied by both operands' scales,
   * is a.unscaled * 10^b.scale - b.unscaled * 10^a.scale at the result's scale.
   */
  lemma SubExact(a: Decimal, b: Decimal)
    ensures var r := Sub(a, b);
      r.unscaled * (Pow10(a.scale) * Pow10(b.scale))
        == (a.unscaled * Pow10(b.scale) - b.unscaled * Pow10(a.scale)) * Pow10(r.scale)
  {
    var m := if a.scale >= b.scale then a.scale else b.scale;
    var ka: nat, kb: nat := m - a.scale, m - b.scale;
    Pow10Add(ka, a.scale);
    Pow10Add(kb, b.scale);
    SubExactInt(a.unscaled, b.unscaled, Pow10(a.scale), Pow10(b.scale), Pow10(ka), Pow10(kb), Pow10(m));
  }

  lemma SubExactInt(au: int, bu: int, pa: int, pb: int, qa: int, qb: int, p: int)
    requires qa * pa == p && qb * pb == p
    ensures (au * qa - bu * qb) * (pa * pb) == (au * pb - bu * pa) * p
  {
    assert (au * qa) * (pa * pb) == (au * pb) * (qa * pa);
    assert (bu * qb) * (pa * pb) == (bu * pa) * (qb * pb);
  }

  /** Rounding of n / d to an integer, ties away from zero (RoundingMode.HALF_UP). */
  function RoundHalfUp(n: int, d: int): (q: int)
    requires d != 0
    ensures (n >= 0) == (d > 0) || n == 0 ==> q >= 0 && IsHalfUp(Abs(n), Abs(d), q)
    ensures (n >= 0) != (d > 0) && n != 0 ==> q <= 0 && IsHalfUp(Abs(n), Abs(d), -q)
  {
    var m: int := RoundHalfUpNat(Abs(n), Abs(d));
    if (n >= 0) == (d > 0) || n == 0 then m else -m
  }

  function RoundHalfUpNat(n: nat, d: nat): (q: nat)
    requires d > 0
    ensures IsHalfUp(n, d, q)
  {
    var q := (2 * n + d) / (2 * d);
    var r := (2 * n + d) % (2 * d);
    assert 2 * n + d == (2 * d) * q + r && 0 <= r < 2 * d;
    assert (2 * d) * q == 2 * (q * d);
    q
  }

  function Abs(x: int): nat {
    if x < 0 then -x else x
  }

  /**
   * q is n / d rounded half up, for n >= 0 and d > 0: the distance from q
   * to the exact quotient is at most one half, and a tie goes to the larger q.
   */
  predicate IsHalfUp(n: int, d: int, q: int) {
    2 * (q * d) - d <= 2 * n < 2 * (q * d) + d
  }

  /** Only one integer is the half-up rounding of a quotient. */
  lemma HalfUpUnique(n: int, d: int, q1: int, q2: int)
    requires d > 0 && IsHalfUp(n, d, q1) && IsHalfUp(n, d, q2)
    ensures q1 == q2
  {
    if q1 < q2 {
      MulMonotone(q1 + 1, q2, d);
    } else if q2 < q1 {
      MulMonotone(q2 + 1, q1, d);
    }
  }

  /** Rounding is unchanged when numerator and denominator are scaled by the same positive factor. */
  lemma HalfUpScale(n: int, d: int, q: int, k: int)
    requires k > 0 && IsHalfUp(n, d, q)
    ensures IsHalfUp(n * k, d * k, q)
  {
    MulMonotone(2 * (q * d) - d, 2 * n, k);
    assert (2 * (q * d) - d) * k == 2 * (q * (d * k)) - d * k;
    MulMonotone(2 * n + 1, 2 * (q * d) + d, k);
    assert (2 * (q * d) + d) * k == 2 * (q * (d * k)) + d * k;
    assert (2 * n + 1) * k == 2 * (n * k) + k;
  }

  datatype DivResult = Quotient(value: Decimal) | ZeroDivisor

  /**
   * a.divide(b, RoundingMode.HALF_UP): the quotient at the scale of a,
   * whose unscaled value is a.unscaled * 10^b.scale / b.unscaled rounded
   * half up (a tie goes away from zero, whatever the signs); a zero divisor
   * fails.
   */
  function DivideHalfUp(a: Decimal, b: Decimal): (r: DivResult)
    ensures r.ZeroDivisor? <==> b.unscaled == 0
    ensures r.Quotient? ==> r.value.scale == a.scale
    ensures r.Quotient? && a.unscaled >= 0 && b.unscaled > 0 ==>
      r.value.unscaled >= 0 && IsHalfUp(a.unscaled * Pow10(b.scale), b.unscaled, r.value.unscaled)
    ensures r.Quotient? ==>
      var n, q := a.unscaled * Pow10(b.scale), r.value.unscaled;
      if (n >= 0) == (b.unscaled > 0) || n == 0 then q >= 0 && IsHalfUp(Abs(n), Abs(b.unscaled), q)
      else q <= 0 && IsHalfUp(Abs(n), Abs(b.unscaled), -q)
  {
    if b.unscaled == 0 then ZeroDivisor
    else Quotient(Decimal(RoundHalfUp(a.unscaled * Pow10(b.scale), b.unscaled), a.scale))
  }
}
