/** Weighted sums over a table, and how they move when a row is added or overwritten. */
module Sums {

  /** The sum of `weight` over all rows, the newest row last. */
  function Sum<T>(rows: seq<T>, weight: T -> int): int {
    if rows == [] then 0
    else Sum(rows[..|rows| - 1], weight) + weight(rows[|rows| - 1])
  }

  lemma SumSnoc<T>(rows: seq<T>, row: T, weight: T -> int)
    ensures Sum(rows + [row], weight) == Sum(rows, weight) + weight(row)
  {
    assert (rows + [row])[..|rows|] == rows;
  }

  lemma {:induction false} SumUpdate<T>(rows: seq<T>, i: nat, row: T, weight: T -> int)
    requires i < |rows|
    ensures Sum(rows[i := row], weight) == Sum(rows, weight) - weight(rows[i]) + weight(row)
  {
    var last := |rows| - 1;
    if i == last {
      assert rows[i := row][..last] == rows[..last];
    } else {
      assert rows[i := row][..last] == rows[..last][i := row];
      SumUpdate(rows[..last], i, row, weight);
    }
  }

  lemma {:induction false} SumSame<T>(rows: seq<T>, f: T -> int, g: T -> int)
    requires forall i | 0 <= i < |rows| :: f(rows[i]) == g(rows[i])
    ensures Sum(rows, f) == Sum(rows, g)
  {
    if rows != [] {
      SumSame(rows[..|rows| - 1], f, g);
    }
  }

  lemma {:induction false} SumMonotone<T>(rows: seq<T>, f: T -> int, g: T -> int)
    requires forall i | 0 <= i < |rows| :: f(rows[i]) <= g(rows[i])
    ensures Sum(rows, f) <= Sum(rows, g)
  {
    if rows != [] {
      SumMonotone(rows[..|rows| - 1], f, g);
    }
  }

  lemma {:induction false} SumZero<T>(rows: seq<T>, f: T -> int)
    requires forall i | 0 <= i < |rows| :: f(rows[i]) == 0
    ensures Sum(rows, f) == 0
  {
    if rows != [] {
      SumZero(rows[..|rows| - 1], f);
    }
  }

  lemma {:induction false} SumNonNegative<T>(rows: seq<T>, f: T -> int)
    requires forall k | 0 <= k < |rows| :: f(rows[k]) >= 0
    ensures Sum(rows, f) >= 0
  {
    if rows != [] {
      SumNonNegative(rows[..|rows| - 1], f);
    }
  }

  /** With no negative weight, each row's weight is at most the sum. */
  lemma {:induction false} SumBoundsEach<T>(rows: seq<T>, f: T -> int, i: nat)
    requires forall k | 0 <= k < |rows| :: f(rows[k]) >= 0
    requires i < |rows|
    ensures 0 <= f(rows[i]) <= Sum(rows, f)
  {
    var last := |rows| - 1;
    if i < last {
      SumBoundsEach(rows[..last], f, i);
    } else {
      SumNonNegative(rows[..last], f);
    }
  }
}
