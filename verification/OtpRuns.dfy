/** Whole runs of the one-time password service: which code a phone can use, and how often. */
module OtpRuns {
  import opened Wrappers
  import opened Otp

  datatype Event =
    | Sending(phone: string, start: int, finish: int, gateway: Option<string>)
    | Verifying(phone: string, start: int, answer: Option<bool>)

  function Do(s: State, e: Event): (State, Outcome) {
    match e
    case Sending(phone, start, finish, gateway) => Send(s, phone, start, finish, gateway)
    case Verifying(phone, now, answer) => Verify(s, phone, now, answer)
  }

  function Run(events: seq<Event>): State {
    if events == [] then State([], map[])
    else Do(Run(events[..|events| - 1]), events[|events| - 1]).0
  }

  // ---- Which code is usable ----

  /** A code that could still be verified. */
  datatype Usable = Usable(requestId: string, sentAt: int)

  /** The usable code of a phone, read off the history of its calls and their outcomes alone: a send that
      passes the rate limit replaces it, or removes it if the send then fails, and a verification uses it up. */
  function Current(events: seq<Event>, phone: string): Option<Usable> {
    if events == [] then None
    else
      var n := |events| - 1;
      var e, before := events[n], Current(events[..n], phone);
      var outcome := Do(Run(events[..n]), e).1;
      if e.phone != phone then before
      else
        match e
        case Sending(_, _, finish, gateway) =>
          if outcome == Err(RateLimited) then before
          else if gateway.Some? && outcome != Err(Duplicate) then Some(Usable(gateway.value, finish))
          else None
        case Verifying(_, _, _) => if outcome.Ok? then None else before
  }

  ghost predicate UniqueIds(rows: seq<Row>) {
    forall i, k | 0 <= i < k < |rows| :: rows[i].requestId != rows[k].requestId
  }

  /** The unused rows of the phone are none, or exactly the one usable code. */
  ghost predicate OnlyUsable(rows: seq<Row>, phone: string, current: Option<Usable>) {
    && (forall i | 0 <= i < |rows| && IsActive(rows[i], phone) ::
          current == Some(Usable(rows[i].requestId, rows[i].createdAt)))
    && (current.Some? ==> exists i | 0 <= i < |rows| ::
          IsActive(rows[i], phone) && rows[i].requestId == current.value.requestId)
  }

  lemma {:induction false} KeptRows(rows: seq<Row>, phone: string)
    ensures var kept := WithoutActive(rows, phone);
            && (forall k | 0 <= k < |kept| :: !IsActive(kept[k], phone) && kept[k] in rows)
            && (forall i | 0 <= i < |rows| :: !IsActive(rows[i], phone) ==> rows[i] in kept)
            && (UniqueIds(rows) ==> UniqueIds(kept))
  {
    if rows != [] {
      var n := |rows| - 1;
      KeptRows(rows[..n], phone);
      assert forall i | 0 <= i < n :: rows[..n][i] == rows[i];
      var kept, all := WithoutActive(rows[..n], phone), WithoutActive(rows, phone);
      if UniqueIds(rows) {
        assert UniqueIds(rows[..n]);
        assert forall k | 0 <= k < |kept| :: kept[k].requestId != rows[n].requestId;
      }
    }
  }

  lemma SendKeepsUnique(s: State, e: Event)
    requires e.Sending? && UniqueIds(s.rows)
    ensures UniqueIds(Do(s, e).0.rows)
  {
    KeptRows(s.rows, e.phone);
  }

  lemma {:induction false} IdsStayUnique(events: seq<Event>)
    ensures UniqueIds(Run(events).rows)
  {
    if events != [] {
      var n := |events| - 1;
      IdsStayUnique(events[..n]);
      if events[n].Sending? {
        SendKeepsUnique(Run(events[..n]), events[n]);
      }
    }
  }

  lemma SendMatchesCurrent(s: State, e: Event, phone: string, before: Option<Usable>, after: Option<Usable>)
    requires e.Sending? && OnlyUsable(s.rows, phone, before)
    requires after == if e.phone != phone || Do(s, e).1 == Err(RateLimited) then before
                      else if e.gateway.Some? && Do(s, e).1 != Err(Duplicate)
                      then Some(Usable(e.gateway.value, e.finish)) else None
    ensures OnlyUsable(Do(s, e).0.rows, phone, after)
  {
    KeptRows(s.rows, e.phone);
    var rows := Do(s, e).0.rows;
    if Do(s, e).1 != Err(RateLimited) {
      var kept := WithoutActive(s.rows, e.phone);
      assert forall k | 0 <= k < |kept| :: rows[k] == kept[k];
      if e.phone == phone {
        if after.Some? {
          assert IsActive(rows[|kept|], phone);
        }
      } else if before.Some? {
        var i :| 0 <= i < |s.rows| && IsActive(s.rows[i], phone) && s.rows[i].requestId == before.value.requestId;
        assert s.rows[i] in kept;
        var k :| 0 <= k < |kept| && kept[k] == s.rows[i];
        assert IsActive(rows[k], phone);
      }
    }
  }

  lemma VerifyMatchesCurrent(s: State, e: Event, phone: string, before: Option<Usable>)
    requires e.Verifying? && UniqueIds(s.rows) && OnlyUsable(s.rows, phone, before)
    ensures OnlyUsable(Do(s, e).0.rows, phone, if e.phone == phone && Do(s, e).1.Ok? then None else before)
  {
    var rows := Do(s, e).0.rows;
    if Do(s, e).1.Ok? {
      var used := Latest(s.rows, e.phone).value;
      if e.phone == phone {
        forall i | 0 <= i < |rows| ensures !IsActive(rows[i], phone) {
          if i != used && IsActive(s.rows[i], phone) {
            assert false;
          }
        }
      } else if before.Some? {
        var i :| 0 <= i < |s.rows| && IsActive(s.rows[i], phone) && s.rows[i].requestId == before.value.requestId;
        assert IsActive(rows[i], phone);
      }
    }
  }

  /** Main result: in every reachable state a phone has at most one unused row, and it is the code its history
      makes usable. */
  lemma {:induction false} TableMatchesHistory(events: seq<Event>, phone: string)
    ensures OnlyUsable(Run(events).rows, phone, Current(events, phone))
  {
    if events != [] {
      var n := |events| - 1;
      TableMatchesHistory(events[..n], phone);
      IdsStayUnique(events[..n]);
      if events[n].Sending? {
        SendMatchesCurrent(Run(events[..n]), events[n], phone, Current(events[..n], phone), Current(events, phone));
      } else {
        VerifyMatchesCurrent(Run(events[..n]), events[n], phone, Current(events[..n], phone));
      }
    }
  }

  /** Main result: a verification succeeds exactly when the phone's history leaves a usable code that is at most
      300 seconds old and the gateway accepts the code entered. */
  lemma VerificationIsFresh(events: seq<Event>, phone: string, now: int, answer: Option<bool>)
    ensures var current := Current(events, phone);
            Verify(Run(events), phone, now, answer).1.Ok? <==>
            current.Some? && now - current.value.sentAt <= EXPIRY && answer == Some(true)
  {
    TableMatchesHistory(events, phone);
    var rows, latest := Run(events).rows, Latest(Run(events).rows, phone);
    if Current(events, phone).Some? {
      var i :| 0 <= i < |rows| && IsActive(rows[i], phone);
    }
    if latest.Some? {
      assert IsActive(rows[latest.value], phone);
    }
  }

  // ---- A code verifies once ----

  /** The identifier a successful verification used up. */
  function UsedBy(s: State, e: Event): Option<string> {
    if e.Verifying? && Do(s, e).1.Ok? then Some(s.rows[Latest(s.rows, e.phone).value].requestId) else None
  }

  function Verifications(events: seq<Event>, id: string): nat {
    if events == [] then 0
    else
      var n := |events| - 1;
      Verifications(events[..n], id) + if UsedBy(Run(events[..n]), events[n]) == Some(id) then 1 else 0
  }

  ghost predicate UsedRow(rows: seq<Row>, id: string) {
    exists i | 0 <= i < |rows| :: rows[i].used && rows[i].requestId == id
  }

  lemma SendKeepsUsedRows(before: seq<Row>, kept: seq<Row>, after: seq<Row>, phone: string, id: string)
    requires forall k | 0 <= k < |kept| :: kept[k] in before
    requires forall i | 0 <= i < |before| :: !IsActive(before[i], phone) ==> before[i] in kept
    requires kept <= after && forall k | |kept| <= k < |after| :: !after[k].used
    ensures UsedRow(after, id) <==> UsedRow(before, id)
  {
    if UsedRow(after, id) {
      var k :| 0 <= k < |after| && after[k].used && after[k].requestId == id;
      assert kept[k] in before;
    }
    if UsedRow(before, id) {
      var i :| 0 <= i < |before| && before[i].used && before[i].requestId == id;
      assert before[i] in kept;
      var k :| 0 <= k < |kept| && kept[k] == before[i];
      assert after[k].used;
    }
  }

  lemma UsedRowsStay(s: State, e: Event, id: string)
    requires UniqueIds(s.rows)
    ensures UsedRow(Do(s, e).0.rows, id) <==> UsedRow(s.rows, id) || UsedBy(s, e) == Some(id)
    ensures UsedBy(s, e) == Some(id) ==> !UsedRow(s.rows, id)
  {
    var rows := Do(s, e).0.rows;
    if e.Sending? {
      KeptRows(s.rows, e.phone);
      if Do(s, e).1 != Err(RateLimited) {
        SendKeepsUsedRows(s.rows, WithoutActive(s.rows, e.phone), rows, e.phone, id);
      }
    } else if Do(s, e).1.Ok? {
      var i := Latest(s.rows, e.phone).value;
      assert rows[i].used;
      if UsedRow(s.rows, id) {
        var k :| 0 <= k < |s.rows| && s.rows[k].used && s.rows[k].requestId == id;
        assert rows[k].used && rows[k].requestId == id;
      }
    }
  }

  /** Main result: over any run, each request identifier verifies successfully at most once. */
  lemma {:induction false} VerifiesAtMostOnce(events: seq<Event>, id: string)
    ensures Verifications(events, id) == if UsedRow(Run(events).rows, id) then 1 else 0
  {
    if events != [] {
      var n := |events| - 1;
      VerifiesAtMostOnce(events[..n], id);
      IdsStayUnique(events[..n]);
      UsedRowsStay(Run(events[..n]), events[n], id);
    }
  }
}
