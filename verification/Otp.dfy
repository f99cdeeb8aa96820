/** One-time passwords: sending with a rate limit, replacement of earlier codes, and verification. Times are
    in microseconds. */
module Otp {
  import opened Wrappers

  const SECOND := 1_000_000
  const RATE_LIMIT_COUNT := 3
  const RATE_LIMIT_WINDOW := 600 * SECOND
  const EXPIRY := 300 * SECOND

  datatype Row = Row(phone: string, requestId: string, used: bool, createdAt: int)

  /** A cached counter lives until `expiresAt`. */
  datatype Counter = Counter(count: nat, expiresAt: int)

  datatype State = State(rows: seq<Row>, cache: map<string, Counter>)

  datatype Error =
    | RateLimited
    | Unavailable
    | Duplicate
    | CounterGone
    | NoCode
    | Expired
    | WrongCode

  type Outcome = Result<(), Error>

  predicate IsActive(row: Row, phone: string) {
    row.phone == phone && !row.used
  }

  /** The table without the unused rows of a phone. */
  function WithoutActive(rows: seq<Row>, phone: string): seq<Row> {
    if rows == [] then []
    else
      var last := rows[|rows| - 1];
      WithoutActive(rows[..|rows| - 1], phone) + if IsActive(last, phone) then [] else [last]
  }

  /** The request identifiers of a phone's unused rows, in table order. */
  function ActiveIds(rows: seq<Row>, phone: string): seq<string> {
    if rows == [] then []
    else
      var last := rows[|rows| - 1];
      ActiveIds(rows[..|rows| - 1], phone) + if IsActive(last, phone) then [last.requestId] else []
  }

  // ---- What is selected, by position ----

  /** The positions, in order, of the rows that are unused codes of the phone, or of all the others. */
  ghost predicate ArePositions(positions: seq<nat>, rows: seq<Row>, phone: string, unused: bool) {
    && (forall k | 0 <= k < |positions| :: positions[k] < |rows|)
    && (forall i, k | 0 <= i < k < |positions| :: positions[i] < positions[k])
    && (forall i: nat | i < |rows| :: i in positions <==> (unused <==> rows[i].phone == phone && !rows[i].used))
  }

  /** One more row: its position is selected, or not. */
  lemma PositionsSnoc(positions: seq<nat>, rows: seq<Row>, phone: string, unused: bool, next: seq<nat>)
    requires rows != [] && ArePositions(positions, rows[..|rows| - 1], phone, unused)
    requires next == positions + if unused <==> IsActive(rows[|rows| - 1], phone) then [|rows| - 1] else []
    ensures ArePositions(next, rows, phone, unused)
  {
    var n := |rows| - 1;
    forall i: nat | i < |rows| ensures i in next <==> (unused <==> rows[i].phone == phone && !rows[i].used) {
      if i < n {
        assert rows[..n][i] == rows[i];
      } else if unused <==> IsActive(rows[n], phone) {
        assert next[|positions|] == i;
      }
    }
  }

  lemma {:induction false} RevokedPositions(rows: seq<Row>, phone: string) returns (positions: seq<nat>)
    ensures ArePositions(positions, rows, phone, true)
    ensures |ActiveIds(rows, phone)| == |positions|
    ensures forall k | 0 <= k < |positions| :: ActiveIds(rows, phone)[k] == rows[positions[k]].requestId
  {
    if rows == [] {
      positions := [];
    } else {
      var n := |rows| - 1;
      var before := RevokedPositions(rows[..n], phone);
      positions := before + if IsActive(rows[n], phone) then [n] else [];
      PositionsSnoc(before, rows, phone, true, positions);
    }
  }

  lemma {:induction false} KeptPositions(rows: seq<Row>, phone: string) returns (positions: seq<nat>)
    ensures ArePositions(positions, rows, phone, false)
    ensures |WithoutActive(rows, phone)| == |positions|
    ensures forall k | 0 <= k < |positions| :: WithoutActive(rows, phone)[k] == rows[positions[k]]
  {
    if rows == [] {
      positions := [];
    } else {
      var n := |rows| - 1;
      var before := KeptPositions(rows[..n], phone);
      positions := before + if IsActive(rows[n], phone) then [] else [n];
      PositionsSnoc(before, rows, phone, false, positions);
    }
  }

  /** These are the identifiers of the phone's unused codes, in table order. */
  ghost predicate AreUnusedIds(ids: seq<string>, rows: seq<Row>, phone: string) {
    exists positions: seq<nat> ::
      && ArePositions(positions, rows, phone, true) && |ids| == |positions|
      && forall k | 0 <= k < |ids| :: ids[k] == rows[positions[k]].requestId
  }

  /** These are all the other rows, in table order. */
  ghost predicate AreOtherRows(kept: seq<Row>, rows: seq<Row>, phone: string) {
    exists positions: seq<nat> ::
      && ArePositions(positions, rows, phone, false) && |kept| == |positions|
      && forall k | 0 <= k < |kept| :: kept[k] == rows[positions[k]]
  }

  /** Main result: the identifiers revoked are those of the rows deleted: the phone's unused codes. */
  lemma RevokesWhatItDeletes(rows: seq<Row>, phone: string)
    ensures AreUnusedIds(ActiveIds(rows, phone), rows, phone) && AreOtherRows(WithoutActive(rows, phone), rows, phone)
  {
    var gone := RevokedPositions(rows, phone);
    var stay := KeptPositions(rows, phone);
  }

  // ---- The calls ----

  predicate Alive(cache: map<string, Counter>, phone: string, now: int) {
    phone in cache && now < cache[phone].expiresAt
  }

  /** `cache.get(key, 0)`. */
  function SendCount(cache: map<string, Counter>, phone: string, now: int): nat {
    if Alive(cache, phone, now) then cache[phone].count else 0
  }

  predicate HasId(rows: seq<Row>, id: string) {
    exists i | 0 <= i < |rows| :: rows[i].requestId == id
  }

  function Counted(cache: map<string, Counter>, phone: string, seen: nat, now: int): (map<string, Counter>, Outcome) {
    if seen == 0 then (cache[phone := Counter(1, now + RATE_LIMIT_WINDOW)], Ok(()))
    else if Alive(cache, phone, now) then
      (cache[phone := cache[phone].(count := cache[phone].count + 1)], Ok(()))
    else (cache, Err(CounterGone))
  }

  /** A send that saw `seen` sends: the unused rows of the phone go, the gateway answers, and the new code is stored
      and counted. Nothing is rolled back. */
  function Replaced(s: State, phone: string, seen: nat, finish: int, gateway: Option<string>): (State, Outcome) {
    var kept := WithoutActive(s.rows, phone);
    if gateway.None? then (s.(rows := kept), Err(Unavailable))
    else if HasId(kept, gateway.value) then (s.(rows := kept), Err(Duplicate))
    else
      var (cache, outcome) := Counted(s.cache, phone, seen, finish);
      (State(kept + [Row(phone, gateway.value, false, finish)], cache), outcome)
  }

  /** One call of `send_otp`. The counter is read at `start`; the gateway answers and the row and counter are
      written at `finish`. `gateway` is the request identifier it returns, or a failure. */
  function Send(s: State, phone: string, start: int, finish: int, gateway: Option<string>): (State, Outcome) {
    var seen := SendCount(s.cache, phone, start);
    if seen >= RATE_LIMIT_COUNT then (s, Err(RateLimited)) else Replaced(s, phone, seen, finish, gateway)
  }

  /** The position of the newest unused row of a phone. */
  function Latest(rows: seq<Row>, phone: string): (r: Option<nat>)
    ensures r.None? <==> forall i | 0 <= i < |rows| :: !IsActive(rows[i], phone)
    ensures r.Some? ==> r.value < |rows| && IsActive(rows[r.value], phone)
    ensures r.Some? ==> forall i | 0 <= i < |rows| && IsActive(rows[i], phone) ::
                          rows[i].createdAt <= rows[r.value].createdAt
  {
    if rows == [] then None
    else
      var n := |rows| - 1;
      var before := Latest(rows[..n], phone);
      assert before.None? ==> forall i | 0 <= i < n :: !IsActive(rows[..n][i], phone);
      assert forall i | 0 <= i < n :: rows[..n][i] == rows[i];
      if !IsActive(rows[n], phone) then before
      else if before.Some? && rows[before.value].createdAt > rows[n].createdAt then before
      else Some(n)
  }

  predicate IsExpired(row: Row, now: int) {
    now - row.createdAt > EXPIRY
  }

  /** One call of `verify_otp`; `answer` is the gateway's verdict on the code, or a failure. */
  function Verify(s: State, phone: string, now: int, answer: Option<bool>): (State, Outcome) {
    var latest := Latest(s.rows, phone);
    if latest.None? then (s, Err(NoCode))
    else
      var i := latest.value;
      if IsExpired(s.rows[i], now) then (s, Err(Expired))
      else if answer.None? then (s, Err(Unavailable))
      else if !answer.value then (s, Err(WrongCode))
      else (s.(rows := s.rows[i := s.rows[i].(used := true)]), Ok(()))
  }

  class OtpService {
    var rows: seq<Row>
    var cache: map<string, Counter>
    /** The identifiers passed to the gateway's best-effort revocation so far. */
    var revoked: seq<string>

    ghost function Abstract(): State
      reads this
    {
      State(rows, cache)
    }

    constructor ()
      ensures Abstract() == State([], map[]) && revoked == []
    {
      rows, cache, revoked := [], map[], [];
    }

    /** Every earlier unused code of the phone is revoked at the gateway, in table order. */
    method RevokeActive(phone: string)
      modifies this`revoked
      ensures old(revoked) <= revoked && AreUnusedIds(revoked[|old(revoked)|..], rows, phone)
      ensures revoked == old(revoked) + ActiveIds(rows, phone)
    {
      var i := 0;
      while i < |rows|
        invariant i <= |rows|
        invariant revoked == old(revoked) + ActiveIds(rows[..i], phone)
      {
        assert rows[..i + 1][..i] == rows[..i];
        if IsActive(rows[i], phone) {
          revoked := revoked + [rows[i].requestId];
        }
        i := i + 1;
      }
      assert rows[..i] == rows;
      RevokesWhatItDeletes(rows, phone);
      assert revoked[|old(revoked)|..] == ActiveIds(rows, phone);
    }

    method DeleteActive(phone: string)
      modifies this`rows
      ensures rows == WithoutActive(old(rows), phone)
    {
      var kept: seq<Row> := [];
      var i := 0;
      while i < |rows|
        invariant i <= |rows|
        invariant kept == WithoutActive(rows[..i], phone)
      {
        assert rows[..i + 1][..i] == rows[..i];
        if !IsActive(rows[i], phone) {
          kept := kept + [rows[i]];
        }
        i := i + 1;
      }
      assert rows[..i] == rows;
      rows := kept;
    }

    method KnownId(id: string) returns (known: bool)
      ensures known <==> HasId(rows, id)
    {
      for i := 0 to |rows|
        invariant forall k | 0 <= k < i :: rows[k].requestId != id
      {
        if rows[i].requestId == id {
          return true;
        }
      }
      return false;
    }

    /** What follows the revocation: the unused rows give way to the new code. */
    method ReplaceCode(phone: string, sendCount: nat, finish: int, gateway: Option<string>) returns (r: Outcome)
      modifies this`rows, this`cache
      ensures (Abstract(), r) == Replaced(old(Abstract()), phone, sendCount, finish, gateway)
    {
      DeleteActive(phone);
      if gateway.None? {
        return Err(Unavailable);
      }
      var known := KnownId(gateway.value);
      if known {
        return Err(Duplicate);
      }
      rows := rows + [Row(phone, gateway.value, false, finish)];
      if sendCount == 0 {
        cache := cache[phone := Counter(1, finish + RATE_LIMIT_WINDOW)];
      } else if Alive(cache, phone, finish) {
        cache := cache[phone := cache[phone].(count := cache[phone].count + 1)];
      } else {
        return Err(CounterGone);
      }
      r := Ok(());
    }

    method SendOtp(phone: string, start: int, finish: int, gateway: Option<string>) returns (r: Outcome)
      modifies this
      ensures (Abstract(), r) == Send(old(Abstract()), phone, start, finish, gateway)
      ensures r == Err(RateLimited) ==> revoked == old(revoked)
      ensures r != Err(RateLimited) ==>
                old(revoked) <= revoked && AreUnusedIds(revoked[|old(revoked)|..], old(rows), phone)
    {
      var sendCount := SendCount(cache, phone, start);
      if sendCount >= RATE_LIMIT_COUNT {
        return Err(RateLimited);
      }
      RevokeActive(phone);
      r := ReplaceCode(phone, sendCount, finish, gateway);
    }

    method VerifyOtp(phone: string, now: int, answer: Option<bool>) returns (r: Outcome)
      modifies this`rows
      ensures (Abstract(), r) == Verify(old(Abstract()), phone, now, answer)
    {
      var latest := Latest(rows, phone);
      if latest.None? {
        return Err(NoCode);
      }
      var otp := rows[latest.value];
      if IsExpired(otp, now) {
        return Err(Expired);
      }
      if answer.None? {
        return Err(Unavailable);
      }
      if !answer.value {
        return Err(WrongCode);
      }
      otp := otp.(used := true);
      rows := rows[latest.value := otp];
      r := Ok(());
    }
  }
}
