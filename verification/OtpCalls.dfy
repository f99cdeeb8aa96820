/** What one call of the one-time password service raises and writes, read off the rows and the counters. */
module OtpCalls {
  import opened Wrappers
  import opened Otp

  /** A counter that still lives at this time. */
  predicate Live(s: State, phone: string, now: int) {
    phone in s.cache && now < s.cache[phone].expiresAt
  }

  predicate Limited(s: State, phone: string, start: int) {
    Live(s, phone, start) && s.cache[phone].count >= 3
  }

  predicate Unused(row: Row, phone: string) {
    row.phone == phone && !row.used
  }

  /** A row that the send does not delete has this identifier already. */
  ghost predicate Known(s: State, phone: string, id: string) {
    exists i | 0 <= i < |s.rows| :: s.rows[i].requestId == id && !Unused(s.rows[i], phone)
  }

  lemma KnownIsKept(s: State, phone: string, id: string)
    ensures Known(s, phone, id) <==> HasId(WithoutActive(s.rows, phone), id)
  {
    var positions := KeptPositions(s.rows, phone);
    var kept := WithoutActive(s.rows, phone);
    if HasId(kept, id) {
      var k :| 0 <= k < |kept| && kept[k].requestId == id;
      assert positions[k] in positions;
      assert s.rows[positions[k]].requestId == id;
    }
    if Known(s, phone, id) {
      var i: nat :| i < |s.rows| && s.rows[i].requestId == id && !Unused(s.rows[i], phone);
      assert i in positions;
      var k :| 0 <= k < |positions| && positions[k] == i;
      assert kept[k].requestId == id;
    }
  }

  ghost predicate SendRefusedFor(s: State, phone: string, start: int, finish: int, gateway: Option<string>, e: Error) {
    match e
    case RateLimited => Limited(s, phone, start)
    case Unavailable => !Limited(s, phone, start) && gateway.None?
    case Duplicate => !Limited(s, phone, start) && gateway.Some? && Known(s, phone, gateway.value)
    case CounterGone =>
      && !Limited(s, phone, start) && gateway.Some? && !Known(s, phone, gateway.value)
      && Live(s, phone, start) && s.cache[phone].count > 0 && !Live(s, phone, finish)
    case _ => false
  }

  /** Main result: a send raises each error exactly when the counter, the gateway's answer and the rows say so. */
  lemma SendFailsExactly(s: State, phone: string, start: int, finish: int, gateway: Option<string>, e: Error)
    ensures Send(s, phone, start, finish, gateway).1 == Err(e) <==>
            SendRefusedFor(s, phone, start, finish, gateway, e)
  {
    if gateway.Some? {
      KnownIsKept(s, phone, gateway.value);
    }
  }

  predicate IsRowsAfterSend(kept: seq<Row>, after: State, s: State, r: Outcome, code: Option<Row>) {
    if r == Err(RateLimited) then after == s
    else if r.Ok? || r == Err(CounterGone) then code.Some? && after.rows == kept + [code.value]
    else after.rows == kept
  }

  lemma RowsAfterSend(s: State, phone: string, start: int, finish: int, gateway: Option<string>)
    ensures var (after, r) := Send(s, phone, start, finish, gateway);
            IsRowsAfterSend(WithoutActive(s.rows, phone), after, s, r,
                            if gateway.Some? then Some(Row(phone, gateway.value, false, finish)) else None)
  {
  }

  /** The rows after a send: those it does not delete, and the new code if the gateway delivered a new one. */
  lemma SendWritesRows(s: State, phone: string, start: int, finish: int, gateway: Option<string>)
    returns (kept: seq<Row>)
    ensures AreOtherRows(kept, s.rows, phone)
    ensures var (after, r) := Send(s, phone, start, finish, gateway);
            IsRowsAfterSend(kept, after, s, r,
                            if gateway.Some? then Some(Row(phone, gateway.value, false, finish)) else None)
  {
    kept := WithoutActive(s.rows, phone);
    RowsAfterSend(s, phone, start, finish, gateway);
    assert AreOtherRows(kept, s.rows, phone) by {
      RevokesWhatItDeletes(s.rows, phone);
    }
  }

  /** The counters after a send: only a successful one counts, for its phone, in the live window or in a new one of
      ten minutes. */
  lemma SendWritesCounter(s: State, phone: string, start: int, finish: int, gateway: Option<string>)
    ensures var (after, r) := Send(s, phone, start, finish, gateway);
            && (!r.Ok? ==> after.cache == s.cache)
            && (r.Ok? ==>
                  after.cache == s.cache[phone := if Live(s, phone, start) && s.cache[phone].count > 0
                                                  then Counter(s.cache[phone].count + 1, s.cache[phone].expiresAt)
                                                  else Counter(1, finish + 600_000_000)])
  {
  }

  /** The phone has an unused code. */
  ghost predicate HasUnused(s: State, phone: string) {
    exists i | 0 <= i < |s.rows| :: Unused(s.rows[i], phone)
  }

  /** The phone has an unused code at most 300 seconds old. */
  ghost predicate HasFresh(s: State, phone: string, now: int) {
    exists i | 0 <= i < |s.rows| :: Unused(s.rows[i], phone) && now <= s.rows[i].createdAt + 300_000_000
  }

  ghost predicate VerifyRefusedFor(s: State, phone: string, now: int, answer: Option<bool>, e: Error) {
    match e
    case NoCode => !HasUnused(s, phone)
    case Expired => HasUnused(s, phone) && !HasFresh(s, phone, now)
    case Unavailable => HasFresh(s, phone, now) && answer.None?
    case WrongCode => HasFresh(s, phone, now) && answer == Some(false)
    case _ => false
  }

  /** The newest unused code decides. */
  lemma NewestDecides(s: State, phone: string, now: int)
    ensures var latest := Latest(s.rows, phone);
            && (latest.Some? <==> HasUnused(s, phone))
            && (latest.Some? ==> (!IsExpired(s.rows[latest.value], now) <==> HasFresh(s, phone, now)))
  {
    var latest := Latest(s.rows, phone);
    if latest.Some? {
      assert Unused(s.rows[latest.value], phone);
    }
    if HasFresh(s, phone, now) {
      var i :| 0 <= i < |s.rows| && Unused(s.rows[i], phone) && now <= s.rows[i].createdAt + 300_000_000;
      assert IsActive(s.rows[i], phone);
    }
  }

  /** Main result: a verification raises each error exactly when the rows and the gateway's answer say so. */
  lemma VerifyFailsExactly(s: State, phone: string, now: int, answer: Option<bool>, e: Error)
    ensures Verify(s, phone, now, answer).1 == Err(e) <==> VerifyRefusedFor(s, phone, now, answer, e)
  {
    NewestDecides(s, phone, now);
  }

  /** The newest unused code of the phone is marked used, and nothing else. */
  ghost predicate UsesUp(rows: seq<Row>, after: seq<Row>, phone: string, i: nat)
    requires i < |rows|
  {
    && Unused(rows[i], phone) && (forall k | 0 <= k < |rows| && Unused(rows[k], phone) :: rows[k].createdAt <= rows[i].createdAt)
    && after == rows[i := Row(phone, rows[i].requestId, true, rows[i].createdAt)]
  }

  /** A successful verification uses up the newest unused code of its phone; any other leaves all as it was. */
  lemma VerifyWrites(s: State, phone: string, now: int, answer: Option<bool>)
    ensures var (after, r) := Verify(s, phone, now, answer);
            && after.cache == s.cache && (r.Err? ==> after == s)
            && (r.Ok? ==> exists i: nat :: i < |s.rows| && UsesUp(s.rows, after.rows, phone, i))
  {
    var latest := Latest(s.rows, phone);
    if Verify(s, phone, now, answer).1.Ok? {
      var i := latest.value;
      assert IsActive(s.rows[i], phone);
      assert forall k | 0 <= k < |s.rows| && Unused(s.rows[k], phone) :: IsActive(s.rows[k], phone);
      assert UsesUp(s.rows, Verify(s, phone, now, answer).0.rows, phone, i);
    }
  }
}
