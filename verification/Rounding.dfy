/** Rounding a quotient of integers to the nearest integer, ties to even. */
module Rounding {

  lemma QuotientAndRest(n: nat, d: nat)
    requires d > 0
    ensures n == (n / d) * d + n % d && 0 <= n % d < d && n / d >= 0
  {
  }

  lemma TimesNext(a: int, d: nat)
    ensures (a + 1) * d == a * d + d
  {
  }

  function RoundHalfEven(n: nat, d: nat): (q: nat)
    requires d > 0
    ensures -(d as int) <= 2 * (q * d - n) <= d
    ensures 2 * (q * d - n) == d || 2 * (n - q * d) == d ==> q % 2 == 0
  {
    var whole, rest := n / d, n % d;
    QuotientAndRest(n, d);
    TimesNext(whole, d);
    if 2 * rest < d || (2 * rest == d && whole % 2 == 0) then whole else whole + 1
  }

  lemma TimesAtLeast(a: int, b: int, d: nat)
    requires a >= b
    ensures a * d >= b * d
  {
  }

  lemma TimesApart(q: nat, r: nat, d: nat)
    requires q >= r + 2
    ensures q * d >= r * d + 2 * d
  {
    TimesAtLeast(q, r + 2, d);
    TimesNext(r + 1, d);
    TimesNext(r, d);
  }

  /** The same conditions on the products alone, so that the argument is linear. */
  lemma NearestAgree(n: nat, d: nat, q: nat, r: nat, qd: int, rd: int)
    requires d > 0 && q >= r
    requires q == r + 1 ==> qd == rd + d
    requires q >= r + 2 ==> qd >= rd + 2 * d
    requires -(d as int) <= 2 * (qd - n) <= d && -(d as int) <= 2 * (rd - n) <= d
    requires 2 * (qd - n) == d || 2 * (n - qd) == d ==> q % 2 == 0
    requires 2 * (rd - n) == d || 2 * (n - rd) == d ==> r % 2 == 0
    ensures q == r
  {
  }

  lemma NearestAgreeOrdered(n: nat, d: nat, q: nat, r: nat)
    requires d > 0 && q >= r
    requires -(d as int) <= 2 * (q * d - n) <= d && -(d as int) <= 2 * (r * d - n) <= d
    requires 2 * (q * d - n) == d || 2 * (n - q * d) == d ==> q % 2 == 0
    requires 2 * (r * d - n) == d || 2 * (n - r * d) == d ==> r % 2 == 0
    ensures q == r
  {
    TimesNext(r, d);
    if q >= r + 2 {
      TimesApart(q, r, d);
    }
    NearestAgree(n, d, q, r, q * d, r * d);
  }

  /** The two conditions determine the result. */
  lemma NearestIsUnique(n: nat, d: nat, q: nat)
    requires d > 0
    requires -(d as int) <= 2 * (q * d - n) <= d
    requires 2 * (q * d - n) == d || 2 * (n - q * d) == d ==> q % 2 == 0
    ensures q == RoundHalfEven(n, d)
  {
    var r := RoundHalfEven(n, d);
    if q >= r {
      NearestAgreeOrdered(n, d, q, r);
    } else {
      NearestAgreeOrdered(n, d, r, q);
    }
  }

  /** The same with ties rounded up. */
  function RoundHalfUp(n: nat, d: nat): (q: nat)
    requires d > 0
    ensures -(d as int) < 2 * (q * d - n) <= d
  {
    var whole, rest := n / d, n % d;
    QuotientAndRest(n, d);
    TimesNext(whole, d);
    if 2 * rest < d then whole else whole + 1
  }

  lemma HalfUpAgrees(n: nat, d: nat, q: nat, r: nat)
    requires d > 0 && q >= r
    requires -(d as int) < 2 * (q * d - n) <= d && -(d as int) < 2 * (r * d - n) <= d
    ensures q == r
  {
    if q > r {
      TimesAtLeast(q, r + 1, d);
      TimesNext(r, d);
      assert false;
    }
  }

  /** The condition determines the result. */
  lemma HalfUpIsUnique(n: nat, d: nat, q: nat)
    requires d > 0 && -(d as int) < 2 * (q * d - n) <= d
    ensures q == RoundHalfUp(n, d)
  {
    var r := RoundHalfUp(n, d);
    if q >= r {
      HalfUpAgrees(n, d, q, r);
    } else {
      HalfUpAgrees(n, d, r, q);
    }
  }
}
