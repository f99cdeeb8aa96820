/** The running average of a user's ratings, stored in hundredths. */
module Rating {
  import opened Wrappers
  import opened Sums
  import opened Rounding
  import opened Tables

  /** A quotient of whole hundredths carries 25 further decimal digits in 28-digit decimal arithmetic. */
  const DIGITS: nat := 10_000_000_000_000_000_000_000_000

  /** How the database rounds a tie when it cuts a value to the column's two decimals: PostgreSQL rounds away from
      zero, other backends to even. */
  datatype Ties = AwayFromZero | ToEven

  function Round(ties: Ties, n: nat, d: nat): (q: nat)
    requires d > 0
    ensures -(d as int) <= 2 * (q * d - n) <= d
  {
    if ties == ToEven then RoundHalfEven(n, d) else RoundHalfUp(n, d)
  }

  /** What the column stores after a rating: the 28-digit quotient of the new total by the new count, rounded
      again to whole hundredths. */
  function Stored(ties: Ties, total: nat, count: nat): nat
    requires count > 0
  {
    Round(ties, RoundHalfEven(total * DIGITS, count), DIGITS)
  }

  lemma CutIdentity(total: int, half: int, count: int, wide: int, k: int)
    ensures (2 * wide - half * k) * count == (2 * total - half * count) * k + 2 * (wide * count - total * k)
  {
    assert (2 * wide - half * k) * count == 2 * (wide * count) - half * k * count;
    assert (2 * total - half * count) * k == 2 * (total * k) - half * count * k;
  }

  /** Two cuts whose scaled difference stays below both scales have the same sign. */
  lemma SameSign(exact: int, cut: int, count: nat, k: nat, error: int)
    requires 0 < count < k && -(count as int) <= error <= count
    requires cut * count == exact * k + error && cut % 2 == 0
    ensures exact > 0 ==> cut > 0
    ensures exact < 0 ==> cut < 0
    ensures exact == 0 ==> cut == 0
  {
    if exact > 0 {
      TimesAtLeast(exact, 1, k);
      if cut <= 0 { TimesAtLeast(0, cut, count); assert false; }
    } else if exact < 0 {
      TimesAtLeast(-1, exact, k);
      if cut >= 0 { TimesAtLeast(cut, 0, count); assert false; }
    } else if cut >= 2 {
      TimesAtLeast(cut, 2, count);
      assert false;
    } else if cut <= -2 {
      TimesAtLeast(-2, cut, count);
      assert false;
    }
  }

  lemma EvenProduct(half: int, k: int)
    requires k % 2 == 0
    ensures half * k % 2 == 0
  {
    assert half * k == 2 * (half * (k / 2));
  }

  /** The 28-digit quotient lies on the same side of every half hundredth as the exact one. */
  lemma QuotientKeepsSide(total: nat, count: nat, half: int, k: nat)
    requires 0 < count < k && k % 2 == 0
    ensures var wide := RoundHalfEven(total * k, count);
            && (2 * total < half * count ==> 2 * wide < half * k)
            && (2 * total > half * count ==> 2 * wide > half * k)
            && (2 * total == half * count ==> 2 * wide == half * k)
  {
    var wide := RoundHalfEven(total * k, count);
    var exact, cut := 2 * total - half * count, 2 * wide - half * k;
    var error := 2 * (wide * count - total * k);
    assert cut * count == exact * k + error by { CutIdentity(total, half, count, wide, k); }
    assert cut % 2 == 0 by { EvenProduct(half, k); }
    SameSign(exact, cut, count, k, error);
  }

  lemma OddHalves(q: int, d: int)
    ensures (2 * q - 1) * d == 2 * (q * d) - d && (2 * q + 1) * d == 2 * (q * d) + d
  {
  }

  /** If a quotient and its wide version lie alike of both halves around q, and q is the wide version's nearest,
      then q is the quotient's. */
  lemma NearestBySides(ties: Ties, total: nat, count: nat, q: nat, wide: nat, k: nat, low: int, high: int, wlow: int, whigh: int)
    requires count > 0 && k > 0 && q == Round(ties, wide, k)
    requires low == 2 * (q * count) - count && high == 2 * (q * count) + count
    requires wlow == 2 * (q * k) - k && whigh == 2 * (q * k) + k
    requires (2 * total < low ==> 2 * wide < wlow) && (2 * total == low ==> 2 * wide == wlow)
    requires (2 * total > high ==> 2 * wide > whigh) && (2 * total == high ==> 2 * wide == whigh)
    ensures q == Round(ties, total, count)
  {
    if ties == ToEven {
      NearestIsUnique(total, count, q);
    } else {
      HalfUpIsUnique(total, count, q);
    }
  }

  lemma DoubleRounding(ties: Ties, total: nat, count: nat, k: nat)
    requires 0 < count < k && k % 2 == 0
    ensures Round(ties, RoundHalfEven(total * k, count), k) == Round(ties, total, count)
  {
    var wide := RoundHalfEven(total * k, count);
    var q := Round(ties, wide, k);
    OddHalves(q, k);
    OddHalves(q, count);
    QuotientKeepsSide(total, count, 2 * q - 1, k);
    QuotientKeepsSide(total, count, 2 * q + 1, k);
    NearestBySides(ties, total, count, q, wide, k, (2 * q - 1) * count, (2 * q + 1) * count, (2 * q - 1) * k, (2 * q + 1) * k);
  }

  lemma StoredIsRounded(ties: Ties, total: nat, count: nat)
    requires 0 < count < DIGITS
    ensures Stored(ties, total, count) == Round(ties, total, count)
  {
    DoubleRounding(ties, total, count, DIGITS);
  }

  /** q is a hundredth nearest to total / count; of two it is the upper one if ties go away from zero, and the even
      one if they go to even. */
  predicate IsNearestHundredth(ties: Ties, total: nat, count: nat, q: nat) {
    && -(count as int) <= 2 * (q * count - total) <= count
    && (2 * (q * count - total) == count || 2 * (total - q * count) == count ==>
          match ties
          case AwayFromZero => q * count > total
          case ToEven => q % 2 == 0)
  }

  lemma RoundIsNearest(ties: Ties, total: nat, count: nat)
    requires count > 0
    ensures IsNearestHundredth(ties, total, count, Round(ties, total, count))
  {
  }

  /** Main result: rounding twice is harmless; the column stores the exact mean's nearest hundredth. */
  lemma StoredIsNearestHundredth(ties: Ties, total: nat, count: nat)
    requires 0 < count < DIGITS
    ensures IsNearestHundredth(ties, total, count, Stored(ties, total, count))
  {
    StoredIsRounded(ties, total, count);
    RoundIsNearest(ties, total, count);
  }

  // ---- The running average ----

  /** Ratings run from 1.0 to 5.0. */
  predicate IsRating(r: nat) {
    100 <= r <= 500
  }

  /** The stored average after a sequence of ratings. */
  ghost function Average(ties: Ties, ratings: seq<nat>): nat {
    if ratings == [] then 0
    else
      var n := |ratings| - 1;
      Stored(ties, Average(ties, ratings[..n]) * n + ratings[n], n + 1)
  }

  function Value(): nat -> int {
    (r: nat) => r
  }

  lemma BetweenBounds(ties: Ties, total: nat, count: nat, low: nat, high: nat)
    requires count > 0 && low * count <= total <= high * count
    ensures low <= Round(ties, total, count) <= high
  {
    var q := Round(ties, total, count);
    assert (low - 1) * count == low * count - count;
    assert (high + 1) * count == high * count + count;
    if q < low {
      TimesAtLeast(low - 1, q, count);
      assert false;
    }
    if q > high {
      TimesAtLeast(q, high + 1, count);
      assert false;
    }
  }

  /** The stored average never leaves the range of a rating. */
  lemma {:induction false} AverageInRange(ties: Ties, ratings: seq<nat>)
    requires ratings != [] && |ratings| < DIGITS
    requires forall i | 0 <= i < |ratings| :: IsRating(ratings[i])
    ensures IsRating(Average(ties, ratings))
  {
    var n := |ratings| - 1;
    if n > 0 {
      AverageInRange(ties, ratings[..n]);
    }
    var total := Average(ties, ratings[..n]) * n + ratings[n];
    assert 100 * (n + 1) <= total <= 500 * (n + 1) by {
      if n > 0 {
        TimesAtLeast(Average(ties, ratings[..n]), 100, n);
        TimesAtLeast(500, Average(ties, ratings[..n]), n);
      }
    }
    StoredIsRounded(ties, total, n + 1);
    BetweenBounds(ties, total, n + 1, 100, 500);
  }

  lemma StoredIsNear(ties: Ties, total: nat, count: nat)
    requires 0 < count < DIGITS
    ensures -(count as int) <= 2 * (Stored(ties, total, count) * count - total) <= count
  {
    StoredIsRounded(ties, total, count);
  }

  /** The average after one more rating, for n ratings before it. */
  lemma NextAverage(ties: Ties, ratings: seq<nat>, n: nat) returns (before: nat, after: nat)
    requires |ratings| == n + 1 < DIGITS
    ensures before == Average(ties, ratings[..n]) && after == Average(ties, ratings)
    ensures -((n + 1) as int) <= 2 * (after * (n + 1) - (before * n + ratings[n])) <= n + 1
  {
    before := Average(ties, ratings[..n]);
    var total, count := before * n + ratings[n], n + 1;
    after := Stored(ties, total, count);
    StoredIsNear(ties, total, count);
  }

  /** One rating moves the drift by at most half of the new count; all products are given. */
  lemma LinearDriftStep(count: int, was: int, sum: int, rating: int, now: int, bound: int)
    requires -bound + 2 <= 4 * (was - sum) <= bound - 2
    requires -count <= 2 * (now - (was + rating)) <= count
    ensures -(bound + 2 * count) + 2 <= 4 * (now - (sum + rating)) <= bound + 2 * count - 2
  {
  }

  lemma DriftStep(n: nat, before: nat, sum: int, rating: int, after: nat)
    requires -(n * (n + 1)) + 2 <= 4 * (n * before - sum) <= n * (n + 1) - 2
    requires -(n + 1) <= 2 * (after * (n + 1) - (before * n + rating)) <= n + 1
    ensures -((n + 1) * (n + 2)) + 2 <= 4 * ((n + 1) * after - (sum + rating)) <= (n + 1) * (n + 2) - 2
  {
    LinearDriftStep(n + 1, n * before, sum, rating, (n + 1) * after, n * (n + 1));
    assert (n + 1) * (n + 2) == n * (n + 1) + 2 * (n + 1);
  }

  /** Main result: after n ratings the stored average is within (n+1)/4 hundredths of the true mean. */
  lemma {:induction false} DriftBound(ties: Ties, ratings: seq<nat>)
    requires ratings != [] && |ratings| < DIGITS
    ensures var n, drift := |ratings|, |ratings| * Average(ties, ratings) - Sum(ratings, Value());
            -(n * (n + 1)) + 2 <= 4 * drift <= n * (n + 1) - 2
  {
    var n := |ratings| - 1;
    var before, after := NextAverage(ties, ratings, n);
    if n > 0 {
      DriftBound(ties, ratings[..n]);
      DriftStep(n, before, Sum(ratings[..n], Value()), ratings[n], after);
    }
  }

  // ---- The row a rating updates ----

  /** Why a rating is refused. */
  datatype Refusal = NoSuchCompletedJob | NotInvolved | NotOneself

  /** A user row's rating columns, in hundredths. */
  class RatedUser {
    const ties: Ties
    var rating: nat
    var ratingCount: nat
    ghost var received: seq<nat>

    /** The columns are those the ratings received so far imply. */
    ghost predicate Valid()
      reads this
    {
      ratingCount == |received| && rating == Average(ties, received)
    }

    constructor (ties: Ties)
      ensures Valid() && received == [] && this.ties == ties
    {
      this.ties := ties;
      rating, ratingCount, received := 0, 0, [];
    }

    /** Recalculate the average after one more rating. */
    method UpdateRating(newRating: nat)
      requires Valid()
      modifies this
      ensures Valid() && received == old(received) + [newRating]
      ensures ratingCount == old(ratingCount) + 1
      ensures ratingCount < DIGITS ==>
                IsNearestHundredth(ties, old(rating) * old(ratingCount) + newRating, ratingCount, rating)
    {
      var total := rating * ratingCount + newRating;
      ratingCount := ratingCount + 1;
      rating := Stored(ties, total, ratingCount);
      if ratingCount < DIGITS {
        StoredIsNearestHundredth(ties, total, ratingCount);
      }
      received := received + [newRating];
      assert received[..|received| - 1] == old(received);
    }
  }

  /** Rate the other party of a completed job. `rated` holds the rating columns of every user. */
  method RateUser(jobs: seq<Job>, j: nat, rater: nat, target: nat, rated: seq<RatedUser>, newRating: nat)
    returns (refused: Option<Refusal>)
    requires target < |rated| && rated[target].Valid()
    requires forall i, k | 0 <= i < k < |rated| :: rated[i] != rated[k]
    modifies rated[target]
    ensures rated[target].Valid()
    ensures refused.None? <==>
            && j < |jobs| && jobs[j].status == Completed && rater != target
            && (rater == jobs[j].employer || jobs[j].worker == Some(rater))
            && (target == jobs[j].employer || jobs[j].worker == Some(target))
    ensures refused == Some(NoSuchCompletedJob) <==> j >= |jobs| || jobs[j].status != Completed
    ensures refused == Some(NotInvolved) <==>
            && j < |jobs| && jobs[j].status == Completed
            && ((rater != jobs[j].employer && jobs[j].worker != Some(rater))
                || (target != jobs[j].employer && jobs[j].worker != Some(target)))
    ensures rated[target].received == old(rated[target].received) + if refused.None? then [newRating] else []
    ensures refused.Some? ==>
              && rated[target].rating == old(rated[target].rating)
              && rated[target].ratingCount == old(rated[target].ratingCount)
    ensures forall u | 0 <= u < |rated| && u != target ::
              rated[u].rating == old(rated[u].rating) && rated[u].ratingCount == old(rated[u].ratingCount)
  {
    if j >= |jobs| || jobs[j].status != Completed {
      return Some(NoSuchCompletedJob);
    }
    var job := jobs[j];
    if rater != job.employer && job.worker != Some(rater) {
      return Some(NotInvolved);
    }
    if target != job.employer && job.worker != Some(target) {
      return Some(NotInvolved);
    }
    if rater == target {
      return Some(NotOneself);
    }
    rated[target].UpdateRating(newRating);
    refused := None;
  }
}
