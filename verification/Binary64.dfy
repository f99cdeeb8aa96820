/** Division of integers into a binary64 number, rounded to nearest with ties to even
    (section 4.3.1 of IEEE 754-2019). Only quotients of normal size occur, so exponents are not bounded. */
module Binary64 {
  import opened Rounding

  /** 2^52 and 2^53: a significand has 53 bits. */
  const HALF_RANGE: nat := 0x10_0000_0000_0000
  const RANGE: nat := 0x20_0000_0000_0000

  function Pow(k: int): (r: real)
    ensures r > 0.0
    decreases if k < 0 then -k else k
  {
    if k == 0 then 1.0
    else if k > 0 then 2.0 * Pow(k - 1)
    else Pow(k + 1) / 2.0
  }

  /** m copies of the unit u: the product m * u. */
  ghost function Units(m: nat, u: real): real {
    if m == 0 then 0.0 else Units(m - 1, u) + u
  }

  datatype Float = Float(significand: nat, exponent: int) {
    ghost function Value(): real {
      Units(significand, Pow(exponent))
    }
  }

  ghost predicate IsFloat(g: real) {
    exists a: nat, k: int :: a < RANGE && g == Float(a, k).Value()
  }

  function Abs(x: real): real {
    if x < 0.0 then -x else x
  }

  /** `f` is a binary64 number with no other strictly nearer to `x`. */
  ghost predicate Nearest(x: real, f: real) {
    IsFloat(f) && forall g: real | IsFloat(g) :: Abs(x - f) <= Abs(x - g)
  }

  /** How often `n` must be doubled to bring n/d to at least 2^52. */
  function Doublings(n: nat, d: nat): (s: nat)
    requires 0 < n < RANGE * d
    decreases HALF_RANGE * d - n
  {
    if n >= HALF_RANGE * d then 0 else 1 + Doublings(2 * n, d)
  }

  /** How often `d` must be doubled to bring n/d below 2^53. */
  function Halvings(n: nat, d: nat): (s: nat)
    requires 0 < d && HALF_RANGE * d <= n
    decreases n - d
  {
    if n < RANGE * d then 0 else 1 + Halvings(n, 2 * d)
  }

  function Shift(n: nat, s: nat): nat
    decreases s
  {
    if s == 0 then n else Shift(2 * n, s - 1)
  }

  lemma {:induction false} ShiftIsPow(n: nat, s: nat)
    ensures Shift(n, s) as real == n as real * Pow(s)
    ensures Shift(n, s) >= n
    decreases s
  {
    if s > 0 {
      ShiftIsPow(2 * n, s - 1);
    }
  }

  /** The quotient n/d of two integers as Python's `/` computes it. */
  function TrueDivide(n: nat, d: nat): Float
    requires d > 0
  {
    if n == 0 then Float(0, 0)
    else if n < RANGE * d then
      var s: int := Doublings(n, d);
      Float(RoundHalfEven(Shift(n, s), d), 0 - s)
    else
      var s := Halvings(n, d);
      assert Shift(d, s) > 0 by { ShiftIsPow(d, s); }
      Float(RoundHalfEven(n, Shift(d, s)), s)
  }

  function PowNat(j: nat): (p: nat)
    ensures p > 0
  {
    if j == 0 then 1 else 2 * PowNat(j - 1)
  }

  /** `int(f)` of a non-negative number: the fraction bits are dropped. */
  function Truncate(f: Float): int {
    if f.exponent >= 0 then f.significand * PowNat(f.exponent)
    else f.significand / PowNat(0 - f.exponent)
  }

  lemma {:induction false} DoublingsNormalize(n: nat, d: nat)
    requires 0 < n < RANGE * d
    ensures HALF_RANGE * d <= Shift(n, Doublings(n, d)) < RANGE * d
    decreases HALF_RANGE * d - n
  {
    if n < HALF_RANGE * d {
      DoublingsNormalize(2 * n, d);
    }
  }

  lemma {:induction false} HalvingsNormalize(n: nat, d: nat)
    requires 0 < d && HALF_RANGE * d <= n
    ensures HALF_RANGE * Shift(d, Halvings(n, d)) <= n < RANGE * Shift(d, Halvings(n, d))
    decreases n - d
  {
    if n >= RANGE * d {
      HalvingsNormalize(n, 2 * d);
    }
  }

  lemma {:induction false} PowSucc(k: int)
    ensures Pow(k + 1) == 2.0 * Pow(k)
  {
  }

  lemma {:induction false} PowInverse(s: nat)
    ensures Pow(0 - s) * Pow(s) == 1.0
    decreases s
  {
    if s > 0 {
      PowInverse(s - 1);
      var less, more := Pow(1 - s), Pow(s - 1);
      assert Pow(0 - s) == less / 2.0 && Pow(s) == 2.0 * more;
      assert (less / 2.0) * (2.0 * more) == less * more;
    }
  }

  lemma {:induction false} PowIsInteger(j: nat)
    ensures Pow(j) == PowNat(j) as real
  {
    if j > 0 {
      PowIsInteger(j - 1);
    }
  }

  lemma {:induction false} CoarserUnit(k: int, e: int)
    requires k < e
    ensures 2.0 * Pow(k) <= Pow(e)
    decreases e - k
  {
    PowSucc(e - 1);
    if k < e - 1 {
      CoarserUnit(k, e - 1);
    }
  }

  lemma {:induction false} UnitsIsProduct(m: nat, u: real)
    ensures Units(m, u) == m as real * u
  {
    if m > 0 {
      UnitsIsProduct(m - 1, u);
      assert m as real * u == (m - 1) as real * u + u;
    }
  }

  lemma {:induction false} UnitsApart(b: nat, m: nat, u: real)
    requires u > 0.0 && b < m
    ensures Units(b, u) + u <= Units(m, u)
  {
    if b + 1 < m {
      UnitsApart(b, m - 1, u);
    }
  }

  lemma {:induction false} UnitsDouble(m: nat, u: real)
    ensures Units(2 * m, u) == Units(m, 2.0 * u)
  {
    if m > 0 {
      UnitsDouble(m - 1, u);
      assert Units(2 * m, u) == Units(2 * m - 1, u) + u == Units(2 * m - 2, u) + u + u;
    }
  }

  lemma {:induction false} UnitsMonotone(m: nat, u: real, v: real)
    requires u <= v
    ensures Units(m, u) <= Units(m, v)
  {
    if m > 0 {
      UnitsMonotone(m - 1, u, v);
    }
  }

  /** A binary64 number whose own unit 2^k is below 2^e is below 2^52 units of 2^e. */
  lemma FineFloatsAreSmall(a: nat, k: int, e: int)
    requires a < RANGE && k < e
    ensures Units(a, Pow(k)) < Units(HALF_RANGE, Pow(e))
  {
    UnitsApart(a, RANGE, Pow(k));
    assert RANGE == 2 * HALF_RANGE;
    UnitsDouble(HALF_RANGE, Pow(k));
    CoarserUnit(k, e);
    UnitsMonotone(HALF_RANGE, 2.0 * Pow(k), Pow(e));
  }

  lemma {:induction false} CoarseInFineUnits(a: nat, k: int, e: int) returns (b: nat)
    requires e <= k
    ensures Units(a, Pow(k)) == Units(b, Pow(e))
    decreases k - e
  {
    if k == e {
      b := a;
    } else {
      PowSucc(k - 1);
      UnitsDouble(a, Pow(k - 1));
      b := CoarseInFineUnits(2 * a, k - 1, e);
    }
  }

  /** Every binary64 number at or above 2^52 units, where one unit is 2^e, is a whole number of units. */
  lemma LargeFloatsAreWhole(g: real, e: int) returns (b: nat)
    requires IsFloat(g) && g >= Units(HALF_RANGE, Pow(e))
    ensures g == Units(b, Pow(e))
  {
    var a: nat, k: int :| a < RANGE && g == Float(a, k).Value();
    if k < e {
      FineFloatsAreSmall(a, k, e);
      assert false;
    } else {
      b := CoarseInFineUnits(a, k, e);
    }
  }

  lemma WholeUnitsAreFloats(m: nat, e: int)
    requires m <= RANGE
    ensures IsFloat(Units(m, Pow(e)))
  {
    if m < RANGE {
      assert Units(m, Pow(e)) == Float(m, e).Value();
    } else {
      PowSucc(e);
      UnitsDouble(HALF_RANGE, Pow(e));
      assert Units(m, Pow(e)) == Float(HALF_RANGE, e + 1).Value();
    }
  }

  /** f is m units, within half a unit of x: no binary64 number is nearer, and a tie means m is even. */
  lemma UnitRoundingBeats(x: real, f: real, m: nat, e: int, g: real)
    requires Units(HALF_RANGE, Pow(e)) <= x && IsFloat(g) && f == Units(m, Pow(e))
    requires 2.0 * Abs(x - f) <= Pow(e)
    requires 2.0 * Abs(x - f) == Pow(e) ==> m % 2 == 0
    ensures Abs(x - f) <= Abs(x - g)
    ensures g != f && Abs(x - g) == Abs(x - f) ==> m % 2 == 0
  {
    var b: nat := HALF_RANGE;
    if g >= Units(HALF_RANGE, Pow(e)) {
      b := LargeFloatsAreWhole(g, e);
    }
    if b < m {
      UnitsApart(b, m, Pow(e));
    } else if m < b {
      UnitsApart(m, b, Pow(e));
    }
  }

  lemma TimesLess(a: real, b: real, u: real)
    requires u > 0.0 && a < b
    ensures a * u < b * u
  {
  }

  lemma TimesAtMost(a: real, b: real, u: real)
    requires u > 0.0 && a <= b
    ensures a * u <= b * u
  {
  }

  lemma TimesMinus(a: real, b: real, u: real)
    ensures (a - b) * u == a * u - b * u
  {
  }

  lemma Regroup(a: real, p: real, u: real)
    ensures a * (u * p) == (a * p) * u
  {
  }

  lemma ScaledGap(x: real, b: real, m: real, top: real, u: real)
    requires x * b == top * u
    ensures (m * u - x) * b == (m * b - top) * u
  {
    TimesMinus(m * u, x, b);
    TimesMinus(m * b, top, u);
  }

  lemma HalfOf(y: real, gap: real, b: real, u: real)
    requires u > 0.0 && b > 0.0 && y * b == gap * u
    requires 2.0 * gap <= b
    ensures 2.0 * y <= u
    ensures 2.0 * y == u ==> 2.0 * gap == b
  {
    var yb, gu := y * b, gap * u;
    assert (2.0 * y) * b == 2.0 * yb;
    assert (2.0 * gap) * u == 2.0 * gu;
    TimesAtMost(2.0 * gap, b, u);
    if 2.0 * y > u {
      TimesLess(u, 2.0 * y, b);
      assert false;
    } else if 2.0 * y == u && 2.0 * gap < b {
      TimesLess(2.0 * gap, b, u);
      assert false;
    }
  }

  lemma AtLeastScaled(x: real, low: real, b: real, top: real, u: real)
    requires u > 0.0 && b > 0.0 && x * b == top * u && low * b <= top
    ensures low * u <= x
  {
    if x < low * u {
      TimesLess(x, low * u, b);
      TimesAtMost(low * b, top, u);
      Regroup(low, b, u);
      assert false;
    }
  }

  /** The binary64 number `f`, with significand `m`, is x rounded to nearest, ties to even. */
  ghost predicate RoundedTo(x: real, f: real, m: nat) {
    && Nearest(x, f)
    && (forall g: real | IsFloat(g) && g != f :: Abs(x - g) == Abs(x - f) ==> m % 2 == 0)
  }

  /** A quotient of at least 2^52 units, known to within half a unit, is rounded to nearest. */
  lemma UnitRounding(x: real, m: nat, e: int)
    requires m <= RANGE && Units(HALF_RANGE, Pow(e)) <= x
    requires 2.0 * Abs(x - Units(m, Pow(e))) <= Pow(e)
    requires 2.0 * Abs(x - Units(m, Pow(e))) == Pow(e) ==> m % 2 == 0
    ensures RoundedTo(x, Units(m, Pow(e)), m)
  {
    var f := Units(m, Pow(e));
    WholeUnitsAreFloats(m, e);
    forall g: real | IsFloat(g)
      ensures Abs(x - f) <= Abs(x - g)
      ensures g != f && Abs(x - g) == Abs(x - f) ==> m % 2 == 0
    {
      UnitRoundingBeats(x, f, m, e, g);
    }
  }

  lemma GapWithinHalf(x: real, f: real, m: nat, top: nat, bottom: nat, u: real)
    requires u > 0.0 && bottom > 0 && x * bottom as real == top as real * u && f == m as real * u
    requires -(bottom as int) <= 2 * (m * bottom - top) <= bottom
    ensures 2.0 * Abs(x - f) <= u
    ensures 2.0 * Abs(x - f) == u ==> 2 * (m * bottom - top) == bottom || 2 * (top - m * bottom) == bottom
  {
    var b, gap := bottom as real, (m * bottom - top) as real;
    assert gap == m as real * b - top as real;
    ScaledGap(x, b, m as real, top as real, u);
    HalfOf(f - x, gap, b, u);
    TimesMinus(0.0, f - x, b);
    TimesMinus(0.0, gap, u);
    HalfOf(0.0 - (f - x), 0.0 - gap, b, u);
  }

  lemma SignificandFits(top: nat, bottom: nat, m: nat)
    requires bottom > 0 && top < RANGE * bottom
    requires 2 * (m * bottom - top) <= bottom
    ensures m <= RANGE
  {
    if m > RANGE {
      TimesAtLeast(m, RANGE + 1, bottom);
      assert false;
    }
  }

  /** x is top/bottom units with the quotient in [2^52, 2^53): the half-even quotient is within half a unit. */
  lemma WithinHalfUnit(x: real, top: nat, bottom: nat, u: real)
    requires u > 0.0 && bottom > 0 && x * bottom as real == top as real * u
    requires HALF_RANGE * bottom <= top < RANGE * bottom
    ensures RoundHalfEven(top, bottom) <= RANGE
    ensures Units(HALF_RANGE, u) <= x
    ensures 2.0 * Abs(x - Units(RoundHalfEven(top, bottom), u)) <= u
    ensures 2.0 * Abs(x - Units(RoundHalfEven(top, bottom), u)) == u ==> RoundHalfEven(top, bottom) % 2 == 0
  {
    var m := RoundHalfEven(top, bottom);
    SignificandFits(top, bottom, m);
    UnitsIsProduct(HALF_RANGE, u);
    AtLeastScaled(x, HALF_RANGE as real, bottom as real, top as real, u);
    UnitsIsProduct(m, u);
    GapWithinHalf(x, Units(m, u), m, top, bottom, u);
  }

  lemma ScaleUp(x: real, n: real, d: real, p: real, q: real)
    requires d > 0.0 && x == n / d && q * p == 1.0
    ensures x * d == (n * p) * q
  {
    assert x * d == n;
    assert (n * p) * q == n * (q * p);
  }

  lemma ShiftedQuotient(n: nat, d: nat, s: nat)
    requires d > 0
    ensures (n as real / d as real) * d as real == Shift(n, s) as real * Pow(0 - s)
  {
    ShiftIsPow(n, s);
    PowInverse(s);
    ScaleUp(n as real / d as real, n as real, d as real, Pow(s), Pow(0 - s));
  }

  lemma SmallQuotientRounds(n: nat, d: nat)
    requires 0 < n < RANGE * d
    ensures RoundedTo(n as real / d as real, TrueDivide(n, d).Value(), TrueDivide(n, d).significand)
  {
    var s: int := Doublings(n, d);
    var top, x := Shift(n, s), n as real / d as real;
    DoublingsNormalize(n, d);
    ShiftedQuotient(n, d, s);
    WithinHalfUnit(x, top, d, Pow(0 - s));
    assert TrueDivide(n, d) == Float(RoundHalfEven(top, d), 0 - s);
    UnitRounding(x, RoundHalfEven(top, d), 0 - s);
  }

  lemma ScaleDown(x: real, n: real, d: real, p: real)
    requires d > 0.0 && x == n / d
    ensures x * (d * p) == n * p
  {
    assert x * d == n;
    assert x * (d * p) == (x * d) * p;
  }

  lemma LargeQuotientRounds(n: nat, d: nat)
    requires 0 < d && RANGE * d <= n
    ensures RoundedTo(n as real / d as real, TrueDivide(n, d).Value(), TrueDivide(n, d).significand)
  {
    var s := Halvings(n, d);
    var bottom, x := Shift(d, s), n as real / d as real;
    HalvingsNormalize(n, d);
    assert bottom > 0 && x * bottom as real == n as real * Pow(s) by {
      ShiftIsPow(d, s);
      ScaleDown(x, n as real, d as real, Pow(s));
    }
    WithinHalfUnit(x, n, bottom, Pow(s));
    UnitRounding(x, RoundHalfEven(n, bottom), s);
  }

  /** Main result: the integer algorithm rounds the exact quotient to nearest, ties to even. */
  lemma TrueDivideRounds(n: nat, d: nat)
    requires d > 0
    ensures RoundedTo(n as real / d as real, TrueDivide(n, d).Value(), TrueDivide(n, d).significand)
  {
    if n == 0 {
      assert IsFloat(0.0) by { assert 0.0 == Float(0, 0).Value(); }
    } else if n < RANGE * d {
      SmallQuotientRounds(n, d);
    } else {
      LargeQuotientRounds(n, d);
    }
  }

  /** The same, naming the number. */
  lemma TrueDivideFloat(n: nat, d: nat) returns (f: Float)
    requires d > 0
    ensures f == TrueDivide(n, d) && RoundedTo(n as real / d as real, f.Value(), f.significand)
  {
    f := TrueDivide(n, d);
    TrueDivideRounds(n, d);
  }

  lemma WholePartTimes(m: real, t: real, rest: real, w: real, p: real)
    requires p > 0.0 && p * w == 1.0 && m == t * w + rest && 0.0 <= rest < w
    ensures t <= m * p < t + 1.0
  {
    var tw := t * w;
    assert (tw + rest) * p == tw * p + rest * p;
    assert tw * p == t by {
      Regroup(t, w, p);
      assert t * (p * w) == t * 1.0;
    }
    TimesLess(rest, w, p);
    TimesAtMost(0.0, rest, p);
  }

  lemma QuotientAsReal(m: nat, q: nat, t: nat, rest: nat)
    requires m == t * q + rest
    ensures m as real == t as real * q as real + rest as real
  {
  }

  lemma TruncateFraction(m: nat, s: nat)
    requires s > 0
    ensures (m / PowNat(s)) as real <= m as real * Pow(0 - s) < (m / PowNat(s)) as real + 1.0
  {
    PowIsInteger(s);
    PowInverse(s);
    var q, t, rest := PowNat(s), m / PowNat(s), m % PowNat(s);
    QuotientAndRest(m, q);
    QuotientAsReal(m, q, t, rest);
    WholePartTimes(m as real, t as real, rest as real, q as real, Pow(0 - s));
  }

  lemma ProductAsReal(m: nat, q: nat)
    ensures (m * q) as real == m as real * q as real
  {
  }

  lemma TruncateWhole(m: nat, s: nat)
    ensures (m * PowNat(s)) as real == m as real * Pow(s)
  {
    PowIsInteger(s);
    ProductAsReal(m, PowNat(s));
  }

  lemma ValueIsProduct(f: Float)
    ensures f.Value() == f.significand as real * Pow(f.exponent)
  {
    UnitsIsProduct(f.significand, Pow(f.exponent));
  }

  /** Truncation keeps the whole part of the value. */
  lemma TruncateIsFloor(f: Float)
    ensures Truncate(f) as real <= f.Value() < Truncate(f) as real + 1.0
  {
    ValueIsProduct(f);
    var x := f.Value();
    if f.exponent >= 0 {
      TruncateWhole(f.significand, f.exponent);
      assert Truncate(f) as real == x;
    } else {
      TruncateFraction(f.significand, 0 - f.exponent);
    }
  }
}
