/** The split of a job's price into the platform's commission and the worker's payout. */
module Commission {
  import opened Wrappers
  import Rounding
  import opened Binary64

  /** From here on, 1/32 is the finest step between quotients by 100. */
  const COARSE: nat := 100 * 0x8000_0000_0000

  /** Amounts times percentages below 100 * 2^47 + 99 are split without rounding error. */
  const EXACT_LIMIT: nat := 100 * 0x8000_0000_0000 + 99

  /** The commission in whole tiyin: the exact share, rounded down. */
  function Fee(amount: nat, percent: nat): int {
    amount * percent / 100
  }

  /** `int(amount * percent / 100)`, computed in binary64. */
  function FloatFee(amount: nat, percent: nat): int {
    Truncate(TrueDivide(amount * percent, 100))
  }

  /** A missing or zero percentage falls back to the configured one. */
  function EffectivePercent(percent: Option<nat>, setting: nat): nat {
    if percent.None? || percent.value == 0 then setting else percent.value
  }

  function CalculateCommission(amount: nat, percent: Option<nat>, setting: nat): (int, int) {
    var fee := FloatFee(amount, EffectivePercent(percent, setting));
    (fee, amount - fee)
  }

  lemma UnfoldSixth()
    ensures Pow(-6) == 1.0 / 64.0
    ensures Pow(-5) == 1.0 / 32.0
  {
    assert Pow(-1) == 1.0 / 2.0;
    assert Pow(-2) == 1.0 / 4.0;
    assert Pow(-3) == 1.0 / 8.0;
    assert Pow(-4) == 1.0 / 16.0;
    assert Pow(-5) == 1.0 / 32.0;
  }

  /** k + 63/64 is a binary64 number while k < 2^47. */
  lemma SixtyFourthsAreFloats(k: nat)
    requires k < 0x8000_0000_0000
    ensures IsFloat(k as real + 63.0 / 64.0)
  {
    var m := 64 * k + 63;
    assert Pow(-6) == 1.0 / 64.0 by { UnfoldSixth(); }
    UnitsIsProduct(m, Pow(-6));
    assert Float(m, -6).Value() == k as real + 63.0 / 64.0;
  }

  /** k + 31/32 is a binary64 number while k < 2^48. */
  lemma ThirtySecondsAreFloats(k: nat)
    requires k < 0x1_0000_0000_0000
    ensures IsFloat(k as real + 31.0 / 32.0)
  {
    var m := 32 * k + 31;
    assert Pow(-5) == 1.0 / 32.0 by { UnfoldSixth(); }
    UnitsIsProduct(m, Pow(-5));
    assert Float(m, -5).Value() == k as real + 31.0 / 32.0;
  }

  lemma WholeNumbersAreFloats(k: nat)
    requires k < RANGE
    ensures IsFloat(k as real)
  {
    UnitsIsProduct(k, Pow(0));
    assert Float(k, 0).Value() == k as real;
  }

  /** The product is one whose quotient does not reach the next whole number when it is rounded. */
  predicate SplitsExactly(n: nat) {
    n < COARSE || n % 100 != 99
  }

  /** A binary64 number just below the next whole number keeps the rounded quotient below it. */
  lemma CapKeepsWholePart(n: nat, cap: real, f: real)
    requires n < 2 * COARSE && Nearest(n as real / 100.0, f)
    requires 0.0 <= cap < 1.0 && IsFloat((n / 100) as real + cap)
    requires (n % 100) as real / 100.0 < (1.0 + cap) / 2.0
    ensures (n / 100) as real <= f < (n / 100) as real + 1.0
  {
    var k, x := n / 100, n as real / 100.0;
    assert n as real == 100.0 * k as real + (n % 100) as real;
    WholeNumbersAreFloats(k);
    assert Abs(x - f) <= Abs(x - k as real);
    assert Abs(x - f) <= Abs(x - (k as real + cap));
  }

  /** Whatever nearest number the division returns, its whole part is that of the exact quotient. */
  lemma NearestKeepsWholePart(n: nat, f: real)
    requires n < 2 * COARSE && SplitsExactly(n) && Nearest(n as real / 100.0, f)
    ensures (n / 100) as real <= f < (n / 100) as real + 1.0
  {
    if n < COARSE {
      SixtyFourthsAreFloats(n / 100);
      CapKeepsWholePart(n, 63.0 / 64.0, f);
    } else {
      ThirtySecondsAreFloats(n / 100);
      CapKeepsWholePart(n, 31.0 / 32.0, f);
    }
  }

  lemma WholePartIsUnique(n: nat, whole: int, f: real)
    requires (n / 100) as real <= f < (n / 100) as real + 1.0
    requires whole as real <= f < whole as real + 1.0
    ensures whole == n / 100
  {
  }

  lemma RoundedQuotientTruncates(n: nat, f: Float)
    requires n < 2 * COARSE && SplitsExactly(n) && Nearest(n as real / 100.0, f.Value())
    ensures Truncate(f) == n / 100
  {
    NearestKeepsWholePart(n, f.Value());
    TruncateIsFloor(f);
    WholePartIsUnique(n, Truncate(f), f.Value());
  }

  lemma HundredthsAreNearest(n: nat, f: Float)
    requires RoundedTo(n as real / 100 as real, f.Value(), f.significand)
    ensures Nearest(n as real / 100.0, f.Value())
  {
  }

  lemma FloatFeeOfProduct(n: nat)
    requires n < 2 * COARSE && SplitsExactly(n)
    ensures Truncate(TrueDivide(n, 100)) == n / 100
  {
    var f := TrueDivideFloat(n, 100);
    HundredthsAreNearest(n, f);
    RoundedQuotientTruncates(n, f);
  }

  /** Main result: the float computation is the exact rounded-down share for every product below 100 * 2^47 + 99. */
  lemma FloatFeeIsExact(amount: nat, percent: nat)
    requires amount * percent < EXACT_LIMIT
    ensures FloatFee(amount, percent) == Fee(amount, percent)
  {
    FloatFeeOfProduct(amount * percent);
  }

  lemma ShareOfPrice(price: nat, percent: nat)
    requires percent <= 100
    ensures 0 <= Fee(price, percent) <= price
  {
    var rest := 100 - percent;
    assert price * percent + price * rest == price * 100;
    assert price * percent >= 0 && price * rest >= 0;
  }

  /** The largest percentage for which every stored price is in the exact range. */
  const MAX_PERCENT: nat := 6_553_600

  lemma StoredProductsFit(price: nat, percent: nat)
    requires price <= 0x7fff_ffff && percent <= MAX_PERCENT
    ensures price * percent < EXACT_LIMIT
  {
    Rounding.TimesAtLeast(6_553_600, percent, price);
    assert percent * price == price * percent;
  }

  /** Every price its column can hold is split without rounding error. */
  lemma StoredPricesAreExact(price: nat, percent: nat)
    requires price <= 0x7fff_ffff && percent <= MAX_PERCENT
    ensures FloatFee(price, percent) == Fee(price, percent)
  {
    StoredProductsFit(price, percent);
    FloatFeeIsExact(price, percent);
  }

  /** Binary64 numbers from 2^47 on are whole numbers of 32nds. */
  lemma LargeFloatsAre32nds(f: real) returns (b: nat)
    requires IsFloat(f) && f >= 0x8000_0000_0000 as real
    ensures 32.0 * f == b as real
  {
    UnfoldSixth();
    UnitsIsProduct(HALF_RANGE, Pow(-5));
    b := LargeFloatsAreWhole(f, -5);
    UnitsIsProduct(b, Pow(-5));
  }

  lemma NextWholeNumber(k: nat, b: nat, f: real)
    requires 32.0 * f == b as real && k as real + 0.98 <= f <= k as real + 1.0
    ensures f == k as real + 1.0
  {
    assert b as real > (32 * k + 31) as real;
    assert b == 32 * k + 32;
  }

  /** Past 2^47 the quotient of a product that leaves 99 is rounded up to the next whole number. */
  lemma RoundsUpToNext(n: nat, f: real)
    requires COARSE <= n < 2 * COARSE && n % 100 == 99 && Nearest(n as real / 100.0, f)
    ensures f == (n / 100) as real + 1.0
  {
    var k, x := n / 100, n as real / 100.0;
    assert n as real == 100.0 * k as real + 99.0;
    WholeNumbersAreFloats(k + 1);
    assert Abs(x - f) <= Abs(x - (k + 1) as real);
    assert k as real + 0.98 <= f <= k as real + 1.0;
    var b := LargeFloatsAre32nds(f);
    NextWholeNumber(k, b, f);
  }

  lemma FloatFeeRoundsUp(n: nat)
    requires COARSE <= n < 2 * COARSE && n % 100 == 99
    ensures Truncate(TrueDivide(n, 100)) == n / 100 + 1
  {
    var f := TrueDivideFloat(n, 100);
    HundredthsAreNearest(n, f);
    RoundsUpToNext(n, f.Value());
    TruncateIsFloor(f);
  }

  /** Main result: below 100 * 2^48 the float share is exact unless the product is past 100 * 2^47 and leaves 99;
      then it is one too high. EXACT_LIMIT is the first such product. */
  lemma FloatFeeExactly(amount: nat, percent: nat)
    requires amount * percent < 2 * COARSE
    ensures FloatFee(amount, percent) ==
            Fee(amount, percent) + if amount * percent >= EXACT_LIMIT && amount * percent % 100 == 99 then 1 else 0
  {
    if SplitsExactly(amount * percent) {
      FloatFeeOfProduct(amount * percent);
    } else {
      FloatFeeRoundsUp(amount * percent);
    }
  }

  /** A given percentage of at least one is the one that counts, whatever the setting; without one the setting does.
      The two parts always make up the amount. */
  lemma WhichPercentCounts(amount: nat, percent: Option<nat>, setting: nat)
    ensures var parts := CalculateCommission(amount, percent, setting);
            && parts.0 + parts.1 == amount
            && (percent.Some? && percent.value >= 1 && amount * percent.value < EXACT_LIMIT ==>
                  parts.0 == amount * percent.value / 100)
            && (percent.None? && amount * setting < EXACT_LIMIT ==> parts.0 == amount * setting / 100)
  {
    if percent.Some? && percent.value >= 1 && amount * percent.value < EXACT_LIMIT {
      FloatFeeIsExact(amount, percent.value);
    }
    if percent.None? && amount * setting < EXACT_LIMIT {
      FloatFeeIsExact(amount, setting);
    }
  }

  /** The quotient of at least 100 never rounds to less than one. */
  lemma LargeProductsAreCharged(n: nat)
    requires n >= 100
    ensures Truncate(TrueDivide(n, 100)) >= 1
  {
    var f := TrueDivideFloat(n, 100);
    HundredthsAreNearest(n, f);
    WholeNumbersAreFloats(1);
    var x := n as real / 100.0;
    assert Abs(x - f.Value()) <= Abs(x - 1.0);
    TruncateIsFloor(f);
  }

  /** A zero percentage is not honoured: no commission is taken exactly when the configured percentage
      takes none either. */
  lemma ZeroPercentFallsBack(amount: nat, setting: nat)
    ensures CalculateCommission(amount, Some(0), setting) == (0, amount) <==> amount * setting < 100
  {
    if amount * setting < 100 {
      FloatFeeIsExact(amount, setting);
      assert Fee(amount, setting) == 0;
    } else {
      LargeProductsAreCharged(amount * setting);
    }
  }

  /** The case tests/test_payments.py expects to be free of commission. */
  lemma ZeroPercentIsCharged()
    ensures CalculateCommission(100_000, Some(0), 10) == (10_000, 90_000)
  {
    FloatFeeOfProduct(1_000_000);
    assert FloatFee(100_000, 10) == Truncate(TrueDivide(1_000_000, 100));
  }
}
