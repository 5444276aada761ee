/**
 * `java.math.BigDecimal` as an exact decimal `unscaled * 10^-scale`, with the
 * value comparison `compareTo` that the number canonicalizer branches on.
 */
module Decimals {

  /** A `BigDecimal`: the value `unscaled * 10^-scale`; `1`, `1.0` and `1.00` differ only in scale. */
  datatype Decimal = Decimal(unscaled: int, scale: int)

  function Pow10(n: nat): (p: nat)
    ensures 1 <= p
  {
    if n == 0 then 1 else 10 * Pow10(n - 1)
  }

  lemma {:induction false} Pow10Add(m: nat, n: nat)
    ensures Pow10(m + n) == Pow10(m) * Pow10(n)
    decreases m
  {
    if m > 0 {
      Pow10Add(m - 1, n);
      TimesTen(Pow10(m - 1), Pow10(n));
    }
  }

  lemma TimesTen(a: int, b: int)
    ensures (10 * a) * b == 10 * (a * b)
  {
  }

  /** The exact value a decimal denotes. */
  ghost function Value(d: Decimal): real
  {
    if d.scale <= 0 then (d.unscaled * Pow10(-d.scale)) as real
    else d.unscaled as real / Pow10(d.scale) as real
  }

  /** `BigDecimal.ZERO`. */
  const Zero: Decimal := Decimal(0, 0)

  /** `BigDecimal.ONE.movePointRight(21)`, the number 10^21 (scale 0). */
  const TenPow21: Decimal := Decimal(1_000_000_000_000_000_000_000, 0)

  /** `BigDecimal.ONE.movePointLeft(21)`, the number 10^-21 (scale 21). */
  const TenPowMinus21: Decimal := Decimal(1, 21)

  /** `u` with `n` zero digits appended: `u * 10^n`. */
  function Shift(u: int, n: nat): int
  {
    if n == 0 then u else 10 * Shift(u, n - 1)
  }

  lemma {:induction false} ShiftIsProduct(u: int, n: nat)
    ensures Shift(u, n) == u * Pow10(n)
  {
    if n > 0 {
      ShiftIsProduct(u, n - 1);
      assert 10 * (u * Pow10(n - 1)) == u * (10 * Pow10(n - 1));
    }
  }

  /** The unscaled value of `d` rewritten at the larger scale `s`. */
  function Rescale(d: Decimal, s: int): int
    requires d.scale <= s
  {
    Shift(d.unscaled, s - d.scale)
  }

  /** A scale at which both decimals have integral unscaled values. */
  function CommonScale(a: Decimal, b: Decimal): (s: nat)
    ensures a.scale <= s && b.scale <= s
  {
    if a.scale <= 0 && b.scale <= 0 then 0
    else if a.scale < b.scale then b.scale
    else a.scale
  }

  /**
   * `BigDecimal.compareTo`: -1, 0 or 1 as the value of `a` is below, equal to
   * or above the value of `b`; the scales themselves play no part.
   */
  function CompareTo(a: Decimal, b: Decimal): (r: int)
    ensures r == -1 || r == 0 || r == 1
  {
    var s := CommonScale(a, b);
    var x, y := Rescale(a, s), Rescale(b, s);
    if x < y then -1 else if x == y then 0 else 1
  }

  /** Dividing both sides by the same positive number keeps their order. */
  lemma DivideOrder(x: real, y: real, p: real)
    requires 0.0 < p
    ensures x / p < y / p <==> x < y
    ensures x / p == y / p <==> x == y
  {
    assert x / p * p == x && y / p * p == y;
    if x < y {
      assert (y - x) / p > 0.0;
      assert y / p - x / p == (y - x) / p;
    }
    if y < x {
      assert (x - y) / p > 0.0;
      assert x / p - y / p == (x - y) / p;
    }
  }

  /** A common positive factor of numerator and denominator cancels. */
  lemma CancelFactor(x: real, p: real, q: real)
    requires 0.0 < p && 0.0 < q
    ensures (x * p) / (p * q) == x / q
  {
    assert (x / q) * (p * q) == x * p;
  }

  lemma CastProduct(a: int, b: int)
    ensures (a * b) as real == a as real * b as real
  {
  }

  /** The value of a decimal, read at any scale at least as large as its own and as 0. */
  lemma ValueAtScale(d: Decimal, s: int)
    requires d.scale <= s && 0 <= s
    ensures Value(d) == Rescale(d, s) as real / Pow10(s) as real
  {
    ShiftIsProduct(d.unscaled, s - d.scale);
    if d.scale <= 0 {
      ValueAtScaleWhole(d.unscaled, -d.scale, s);
    } else {
      ValueAtScaleFraction(d.unscaled, d.scale, s);
    }
  }

  lemma ValueAtScaleWhole(u: int, n: nat, s: nat)
    ensures (u * Pow10(n)) as real == (u * Pow10(s + n)) as real / Pow10(s) as real
  {
    Pow10Add(s, n);
    WholeCancel(u, Pow10(s), Pow10(n), Pow10(s + n));
  }

  lemma WholeCancel(u: int, p: int, q: int, r: int)
    requires 1 <= p && r == p * q
    ensures (u * q) as real == (u * r) as real / p as real
  {
    MulAssoc(u, q, p);
    CastProduct(u * q, p);
    RealCancel((u * q) as real, p as real);
  }

  lemma RealCancel(x: real, p: real)
    requires 0.0 < p
    ensures (x * p) / p == x
  {
  }

  lemma ValueAtScaleFraction(u: int, n: nat, s: nat)
    requires n <= s
    ensures u as real / Pow10(n) as real == (u * Pow10(s - n)) as real / Pow10(s) as real
  {
    Pow10Add(s - n, n);
    FractionCancel(u, Pow10(s - n), Pow10(n));
  }

  lemma FractionCancel(u: int, p: int, q: int)
    requires 1 <= p && 1 <= q
    ensures u as real / q as real == (u * p) as real / (p * q) as real
  {
    CastProduct(p, q);
    CastProduct(u, p);
    CancelFactor(u as real, p as real, q as real);
  }

  lemma MulAssoc(a: int, b: int, c: int)
    ensures a * (c * b) == (a * b) * c
  {
  }

  /** `compareTo` orders decimals exactly as their values are ordered. */
  lemma CompareToMeansValue(a: Decimal, b: Decimal)
    ensures CompareTo(a, b) < 0 <==> Value(a) < Value(b)
    ensures CompareTo(a, b) == 0 <==> Value(a) == Value(b)
    ensures CompareTo(a, b) > 0 <==> Value(a) > Value(b)
  {
    var s := CommonScale(a, b);
    ValueAtScale(a, s);
    ValueAtScale(b, s);
    DivideOrder(Rescale(a, s) as real, Rescale(b, s) as real, Pow10(s) as real);
  }

  /** A decimal compares equal to zero exactly when its unscaled value is zero, whatever its scale. */
  lemma CompareToZero(d: Decimal)
    ensures CompareTo(d, Zero) == 0 <==> d.unscaled == 0
  {
    var s := CommonScale(d, Zero);
    ShiftSign(0, s);
    ShiftSign(d.unscaled, s - d.scale);
  }

  /** Scaling by a power of ten keeps the sign. */
  lemma {:induction false} ShiftSign(u: int, n: nat)
    ensures Shift(u, n) == 0 <==> u == 0
    ensures Shift(u, n) > 0 <==> u > 0
  {
    if n > 0 {
      ShiftSign(u, n - 1);
    }
  }

  /** A decimal has value zero exactly when its unscaled value is zero, whatever its scale. */
  lemma ValueZero(d: Decimal)
    ensures Value(d) == 0.0 <==> d.unscaled == 0
  {
    CompareToZero(d);
    CompareToMeansValue(d, Zero);
    assert Value(Zero) == 0.0;
  }

  /** 10^21 as a real number. */
  const Large: real := 1_000_000_000_000_000_000_000.0

  /** 10^-21 as a real number. */
  const Small: real := 0.000000000000000000001

  /** The values of the two bounds the number canonicalizer compares against. */
  lemma ThresholdValues()
    ensures Value(TenPow21) == Large
    ensures Value(TenPowMinus21) == Small
  {
    assert Pow10(7) == 10_000_000 by {
      assert Pow10(1) == 10 && Pow10(2) == 100 && Pow10(3) == 1000 && Pow10(4) == 10_000;
      assert Pow10(5) == 100_000 && Pow10(6) == 1_000_000;
    }
    Pow10Add(7, 7);
    Pow10Add(14, 7);
    assert Pow10(21) == 1_000_000_000_000_000_000_000;
  }

  /** A negative decimal is below every positive one. */
  lemma NegativeBelowPositive(d: Decimal, e: Decimal)
    ensures d.unscaled < 0 < e.unscaled ==> CompareTo(d, e) < 0
  {
    if d.unscaled < 0 < e.unscaled {
      var s := CommonScale(d, e);
      var k, l := Pow10(s - d.scale), Pow10(s - e.scale);
      ShiftIsProduct(d.unscaled, s - d.scale);
      ShiftIsProduct(e.unscaled, s - e.scale);
      assert d.unscaled * k <= d.unscaled;
      assert e.unscaled * l >= e.unscaled;
    }
  }
}
