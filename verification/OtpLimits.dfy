/** Whole runs of the one-time password service: how many codes a phone is sent, and how many the documented
    limit of three in ten minutes allows. */
module OtpLimits {
  import opened Wrappers
  import opened Otp
  import opened OtpRuns

  function EndOf(e: Event): int {
    if e.Sending? then e.finish else e.start
  }

  /** Calls take time, and those of this phone do not overlap: each starts when the earlier ones have ended.
      Calls of other phones may run meanwhile. */
  predicate InSequence(events: seq<Event>, phone: string) {
    && (forall i | 0 <= i < |events| :: events[i].start <= EndOf(events[i]))
    && (forall i, k | 0 <= i < k < |events| && events[i].phone == phone && events[k].phone == phone ::
          EndOf(events[i]) <= events[k].start)
  }

  lemma PrefixInSequence(events: seq<Event>, phone: string)
    requires InSequence(events, phone) && events != []
    ensures InSequence(events[..|events| - 1], phone)
  {
  }

  // ---- Which deliveries are counted ----

  /** The send delivered a code to the phone and stored its row. */
  predicate Stores(s: State, e: Event, phone: string) {
    e.Sending? && e.phone == phone && (Do(s, e).1.Ok? || Do(s, e).1 == Err(CounterGone))
  }

  /** The send delivered a code under an identifier that is stored already, so no row could be added. */
  predicate Repeats(s: State, e: Event, phone: string) {
    e.Sending? && e.phone == phone && Do(s, e).1 == Err(Duplicate)
  }

  /** The send passed the rate limit and the gateway delivered a code. */
  predicate Delivers(s: State, e: Event, phone: string) {
    && e.Sending? && e.phone == phone && e.gateway.Some?
    && SendCount(s.cache, phone, e.start) < RATE_LIMIT_COUNT
  }

  /** A delivered code leaves the counter as it was exactly when its identifier is stored already, or the
      counter seen at the start of the call is gone at its end. */
  lemma UncountedDelivery(s: State, e: Event)
    requires e.Sending? && Delivers(s, e, e.phone) && e.start <= e.finish
    ensures Do(s, e).0.cache == s.cache <==>
            || HasId(WithoutActive(s.rows, e.phone), e.gateway.value)
            || (Alive(s.cache, e.phone, e.start) && s.cache[e.phone].count > 0
                && s.cache[e.phone].expiresAt <= e.finish)
    ensures Do(s, e).0.cache == s.cache <==> !Do(s, e).1.Ok?
  {
    var after, phone := Do(s, e).0.cache, e.phone;
    if Do(s, e).1.Ok? {
      assert phone in after;
      assert phone in s.cache ==> after[phone] != s.cache[phone];
    }
  }

  // ---- Counter windows ----

  /** A stored delivery, whether it opened a new counter window, and whether it was counted. */
  datatype Mark = Mark(time: int, opens: bool, counted: bool)

  /** The marks after one more call. */
  function Marked(marks: seq<Mark>, s: State, e: Event, phone: string): seq<Mark> {
    if Stores(s, e, phone)
    then marks + [Mark(e.finish, SendCount(s.cache, phone, e.start) == 0, Do(s, e).1.Ok?)]
    else marks
  }

  function Marks(events: seq<Event>, phone: string): seq<Mark> {
    if events == [] then []
    else
      var n := |events| - 1;
      Marked(Marks(events[..n], phone), Run(events[..n]), events[n], phone)
  }

  /** One of the three sends after send i opens a window. */
  predicate OpensWithinThree(marks: seq<Mark>, i: nat)
    requires i + 3 < |marks|
  {
    marks[i + 1].opens || marks[i + 2].opens || marks[i + 3].opens
  }

  /** Send i or one of the two after it opens a window. */
  predicate OpensAmongThree(marks: seq<Mark>, i: nat)
    requires i + 2 < |marks|
  {
    marks[i].opens || marks[i + 1].opens || marks[i + 2].opens
  }

  ghost predicate InOrder(marks: seq<Mark>) {
    forall i, k | 0 <= i <= k < |marks| :: marks[i].time <= marks[k].time
  }

  ghost predicate OpeningsApart(marks: seq<Mark>) {
    forall i, k | 0 <= i < k < |marks| :: marks[i].opens && marks[k].opens ==>
      marks[i].time + RATE_LIMIT_WINDOW <= marks[k].time
  }

  ghost predicate ThreePerWindow(marks: seq<Mark>) {
    && (marks != [] ==> marks[0].opens)
    && (forall i | 0 <= i < |marks| - 3 :: OpensWithinThree(marks, i))
    && (forall i | 0 <= i < |marks| - 2 :: OpensAmongThree(marks, i))
  }

  /** At most three deliveries per counter window, and windows open at least ten minutes apart. */
  ghost predicate Windowed(marks: seq<Mark>) {
    InOrder(marks) && OpeningsApart(marks) && ThreePerWindow(marks)
  }

  /** f is the send that opened the newest window. */
  ghost predicate LastOpened(marks: seq<Mark>, f: int) {
    0 <= f < |marks| && marks[f].opens && forall i | f < i < |marks| :: !marks[i].opens
  }

  /** Where the newest window opened, if the counter stands at `count`. */
  function NewestWindow(marks: seq<Mark>, count: nat): int {
    if marks == [] then 0 else |marks| - count - (if marks[|marks| - 1].counted then 0 else 1)
  }

  /** The cached counter counts the newest window, and expires with it. Only the last delivery of a window can
      be uncounted: it ended after the counter had expired. */
  ghost predicate CounterMatches(marks: seq<Mark>, cache: map<string, Counter>, phone: string) {
    && (marks == [] <==> phone !in cache)
    && (marks != [] ==>
          var f, last := NewestWindow(marks, cache[phone].count), marks[|marks| - 1];
          && cache[phone].count >= 1 && LastOpened(marks, f) && |marks| - f <= RATE_LIMIT_COUNT
          && cache[phone].expiresAt == marks[f].time + RATE_LIMIT_WINDOW
          && (!last.counted ==> cache[phone].expiresAt <= last.time))
  }

  lemma NewMarkOpens(marks: seq<Mark>, mark: Mark)
    requires ThreePerWindow(marks) && mark.opens
    ensures ThreePerWindow(marks + [mark])
  {
    var marks', n := marks + [mark], |marks|;
    forall i | 0 <= i < n - 2 ensures OpensWithinThree(marks', i) {
      if i < n - 3 { assert OpensWithinThree(marks, i); }
    }
    forall i | 0 <= i < n - 1 ensures OpensAmongThree(marks', i) {
      if i < n - 2 { assert OpensAmongThree(marks, i); }
    }
  }

  lemma NewWindow(marks: seq<Mark>, f: int, mark: Mark)
    requires Windowed(marks) && mark.opens && forall i | 0 <= i < |marks| :: marks[i].time <= mark.time
    requires marks != [] ==> LastOpened(marks, f) && marks[f].time + RATE_LIMIT_WINDOW <= mark.time
    ensures Windowed(marks + [mark])
  {
    var marks', n := marks + [mark], |marks|;
    forall i, k | 0 <= i < k <= n && marks'[i].opens && marks'[k].opens
      ensures marks'[i].time + RATE_LIMIT_WINDOW <= marks'[k].time
    {
      if k == n {
        assert i <= f;
      }
    }
    NewMarkOpens(marks, mark);
  }

  lemma SameWindow(marks: seq<Mark>, f: int, mark: Mark)
    requires ThreePerWindow(marks)
    requires LastOpened(marks, f) && |marks| - f < RATE_LIMIT_COUNT
    ensures ThreePerWindow(marks + [mark])
  {
    var marks', n := marks + [mark], |marks|;
    assert marks'[f].opens;
    forall i | 0 <= i < n - 2 ensures OpensWithinThree(marks', i) {
      if i < n - 3 { assert OpensWithinThree(marks, i); }
    }
    forall i | 0 <= i < n - 1 ensures OpensAmongThree(marks', i) {
      if i < n - 2 { assert OpensAmongThree(marks, i); }
    }
  }

  /** A send that saw a dead counter opens a window and starts a counter. */
  lemma OpeningSendKeepsWindows(marks: seq<Mark>, s: State, e: Event)
    requires Windowed(marks) && CounterMatches(marks, s.cache, e.phone) && Stores(s, e, e.phone) && e.start <= e.finish
    requires forall i | 0 <= i < |marks| :: marks[i].time <= e.start
    requires SendCount(s.cache, e.phone, e.start) == 0
    ensures Windowed(Marked(marks, s, e, e.phone))
    ensures CounterMatches(Marked(marks, s, e, e.phone), Do(s, e).0.cache, e.phone)
  {
    var f := if marks == [] then 0 else NewestWindow(marks, s.cache[e.phone].count);
    NewWindow(marks, f, Mark(e.finish, true, true));
  }

  /** A send that saw a live counter adds to its window, counted or not. */
  lemma LaterSendKeepsWindows(marks: seq<Mark>, s: State, e: Event)
    requires Windowed(marks) && CounterMatches(marks, s.cache, e.phone) && Stores(s, e, e.phone) && e.start <= e.finish
    requires forall i | 0 <= i < |marks| :: marks[i].time <= e.start
    requires SendCount(s.cache, e.phone, e.start) > 0
    ensures Windowed(Marked(marks, s, e, e.phone))
    ensures CounterMatches(Marked(marks, s, e, e.phone), Do(s, e).0.cache, e.phone)
  {
    SameWindow(marks, NewestWindow(marks, s.cache[e.phone].count), Mark(e.finish, false, Do(s, e).1.Ok?));
  }

  lemma OtherCallsKeepCounter(s: State, e: Event, phone: string)
    requires !Stores(s, e, phone)
    ensures phone in Do(s, e).0.cache <==> phone in s.cache
    ensures phone in s.cache ==> Do(s, e).0.cache[phone] == s.cache[phone]
  {
  }

  lemma CallKeepsWindows(marks: seq<Mark>, s: State, e: Event, phone: string)
    requires Windowed(marks) && CounterMatches(marks, s.cache, phone)
    requires e.start <= EndOf(e) && (e.phone == phone ==> forall i | 0 <= i < |marks| :: marks[i].time <= e.start)
    ensures Windowed(Marked(marks, s, e, phone)) && CounterMatches(Marked(marks, s, e, phone), Do(s, e).0.cache, phone)
  {
    if !Stores(s, e, phone) {
      OtherCallsKeepCounter(s, e, phone);
    } else if SendCount(s.cache, phone, e.start) == 0 {
      OpeningSendKeepsWindows(marks, s, e);
    } else {
      LaterSendKeepsWindows(marks, s, e);
    }
  }

  lemma {:induction false} MarksNotAhead(events: seq<Event>, phone: string, now: int)
    requires forall i | 0 <= i < |events| && events[i].phone == phone :: EndOf(events[i]) <= now
    ensures forall k | 0 <= k < |Marks(events, phone)| :: Marks(events, phone)[k].time <= now
  {
    if events != [] {
      MarksNotAhead(events[..|events| - 1], phone, now);
    }
  }

  /** Main result: each counter window admits at most three deliveries, counted or not, and windows open ten
      minutes apart. */
  lemma {:induction false} SendsAreWindowed(events: seq<Event>, phone: string)
    requires InSequence(events, phone)
    ensures Windowed(Marks(events, phone)) && CounterMatches(Marks(events, phone), Run(events).cache, phone)
  {
    if events != [] {
      var n := |events| - 1;
      PrefixInSequence(events, phone);
      SendsAreWindowed(events[..n], phone);
      var e, s := events[n], Run(events[..n]);
      if e.phone == phone {
        MarksNotAhead(events[..n], phone, e.start);
      }
      CallKeepsWindows(Marks(events[..n], phone), s, e, phone);
    }
  }

  // ---- At most five in ten minutes ----

  lemma SixthSendIsLater(marks: seq<Mark>, i: nat)
    requires Windowed(marks) && i + 5 < |marks|
    ensures marks[i].time + RATE_LIMIT_WINDOW <= marks[i + 5].time
  {
    var s1 := if marks[i].opens then i else if marks[i + 1].opens then i + 1 else i + 2;
    assert OpensAmongThree(marks, i);
    assert OpensWithinThree(marks, s1);
    var s2 := if marks[s1 + 1].opens then s1 + 1 else if marks[s1 + 2].opens then s1 + 2 else s1 + 3;
  }

  predicate Within(time: int, from: int) {
    from <= time < from + RATE_LIMIT_WINDOW
  }

  function CountWithin(marks: seq<Mark>, from: int): nat {
    if marks == [] then 0
    else
      var last := marks[|marks| - 1];
      CountWithin(marks[..|marks| - 1], from) + if Within(last.time, from) then 1 else 0
  }

  lemma CountSnoc(marks: seq<Mark>, mark: Mark, from: int)
    ensures CountWithin(marks + [mark], from) == CountWithin(marks, from) + if Within(mark.time, from) then 1 else 0
  {
    assert (marks + [mark])[..|marks|] == marks;
  }

  lemma {:induction false} EarlyMarksDoNotCount(marks: seq<Mark>, from: int, m: nat)
    requires m <= |marks| && forall i | 0 <= i < m :: marks[i].time < from
    ensures CountWithin(marks, from) <= |marks| - m
  {
    if marks != [] {
      var n := |marks| - 1;
      EarlyMarksDoNotCount(marks[..n], from, if m <= n then m else n);
    }
  }

  lemma WindowedPrefix(marks: seq<Mark>)
    requires Windowed(marks) && marks != []
    ensures Windowed(marks[..|marks| - 1])
  {
    var n := |marks| - 1;
    forall i | 0 <= i < n - 3 ensures OpensWithinThree(marks[..n], i) {
      assert OpensWithinThree(marks, i);
    }
    forall i | 0 <= i < n - 2 ensures OpensAmongThree(marks[..n], i) {
      assert OpensAmongThree(marks, i);
    }
  }

  lemma {:induction false} AtMostFiveWithin(marks: seq<Mark>, from: int)
    requires Windowed(marks)
    ensures CountWithin(marks, from) <= 5
  {
    if marks != [] {
      var n := |marks| - 1;
      WindowedPrefix(marks);
      if !Within(marks[n].time, from) {
        AtMostFiveWithin(marks[..n], from);
      } else if n >= 5 {
        SixthSendIsLater(marks, n - 5);
        EarlyMarksDoNotCount(marks, from, n - 4);
      } else {
        EarlyMarksDoNotCount(marks, from, 0);
      }
    }
  }

  /** Main result: any ten minutes of any run contain at most five stored deliveries to a phone, counted or not. */
  lemma AtMostFiveInTenMinutes(events: seq<Event>, phone: string, from: int)
    requires InSequence(events, phone)
    ensures CountWithin(Marks(events, phone), from) <= 5
  {
    SendsAreWindowed(events, phone);
    AtMostFiveWithin(Marks(events, phone), from);
  }

  /** The deliveries after one more call; only their times matter. */
  function Delivered(marks: seq<Mark>, s: State, e: Event, phone: string): seq<Mark> {
    if Delivers(s, e, phone) then marks + [Mark(e.finish, false, false)] else marks
  }

  /** Every code the gateway delivered to the phone, stored or not. */
  function Deliveries(events: seq<Event>, phone: string): seq<Mark> {
    if events == [] then []
    else
      var n := |events| - 1;
      Delivered(Deliveries(events[..n], phone), Run(events[..n]), events[n], phone)
  }

  function DeliveredWithin(events: seq<Event>, phone: string, from: int): nat {
    CountWithin(Deliveries(events, phone), from)
  }

  /** How many of them came under a repeated identifier. */
  function RepeatedWithin(events: seq<Event>, phone: string, from: int): nat {
    if events == [] then 0
    else
      var n := |events| - 1;
      RepeatedWithin(events[..n], phone, from)
      + if Repeats(Run(events[..n]), events[n], phone) && Within(events[n].finish, from) then 1 else 0
  }

  /** A delivered code is stored, or came under a repeated identifier. */
  lemma DeliveryIsMark(marks: seq<Mark>, all: seq<Mark>, s: State, e: Event, phone: string, from: int)
    ensures Delivers(s, e, phone) <==> Stores(s, e, phone) || Repeats(s, e, phone)
    ensures !(Stores(s, e, phone) && Repeats(s, e, phone))
    ensures CountWithin(Marked(marks, s, e, phone), from) ==
            CountWithin(marks, from) + if Stores(s, e, phone) && Within(e.finish, from) then 1 else 0
    ensures CountWithin(Delivered(all, s, e, phone), from) ==
            CountWithin(all, from) + if Delivers(s, e, phone) && Within(e.finish, from) then 1 else 0
  {
    if Delivers(s, e, phone) {
      CountSnoc(all, Mark(e.finish, false, false), from);
    }
    if Stores(s, e, phone) {
      CountSnoc(marks, Mark(e.finish, SendCount(s.cache, phone, e.start) == 0, Do(s, e).1.Ok?), from);
    }
  }

  lemma {:induction false} DeliveriesAreMarks(events: seq<Event>, phone: string, from: int)
    ensures DeliveredWithin(events, phone, from) ==
            CountWithin(Marks(events, phone), from) + RepeatedWithin(events, phone, from)
  {
    if events != [] {
      var n := |events| - 1;
      DeliveriesAreMarks(events[..n], phone, from);
      DeliveryIsMark(Marks(events[..n], phone), Deliveries(events[..n], phone), Run(events[..n]), events[n], phone, from);
    }
  }

  /** The gateway never answers two sends with the same identifier. */
  predicate FreshIds(events: seq<Event>) {
    forall i, k | 0 <= i < k < |events| && events[i].Sending? && events[k].Sending? && events[i].gateway.Some? ::
      events[i].gateway != events[k].gateway
  }

  ghost predicate SentEarlier(events: seq<Event>, id: string) {
    exists i | 0 <= i < |events| :: events[i].Sending? && events[i].gateway == Some(id)
  }

  lemma SentLongAgo(events: seq<Event>, id: string)
    requires events != [] && SentEarlier(events[..|events| - 1], id)
    ensures SentEarlier(events, id)
  {
    var n := |events| - 1;
    var i :| 0 <= i < n && events[..n][i].Sending? && events[..n][i].gateway == Some(id);
    assert events[i].gateway == Some(id);
  }

  lemma RowCameWith(s: State, e: Event, row: Row)
    requires row in Do(s, e).0.rows && forall earlier | earlier in s.rows :: earlier.requestId != row.requestId
    ensures e.Sending? && e.gateway == Some(row.requestId)
  {
    KeptRows(s.rows, e.phone);
  }

  /** Every stored identifier came from the gateway. */
  lemma {:induction false} StoredIdsWereSent(events: seq<Event>)
    ensures forall row | row in Run(events).rows :: SentEarlier(events, row.requestId)
  {
    if events != [] {
      var n := |events| - 1;
      StoredIdsWereSent(events[..n]);
      KeptRows(Run(events[..n]).rows, events[n].phone);
      forall row | row in Run(events).rows ensures SentEarlier(events, row.requestId) {
        if SentEarlier(events[..n], row.requestId) {
          SentLongAgo(events, row.requestId);
        } else {
          RowCameWith(Run(events[..n]), events[n], row);
          assert events[n].gateway == Some(row.requestId);
        }
      }
    }
  }

  lemma {:induction false} FreshIdsNeverRepeat(events: seq<Event>, phone: string, from: int)
    requires FreshIds(events)
    ensures RepeatedWithin(events, phone, from) == 0
  {
    if events != [] {
      var n := |events| - 1;
      FreshIdsNeverRepeat(events[..n], phone, from);
      if Repeats(Run(events[..n]), events[n], phone) {
        StoredIdsWereSent(events[..n]);
        KeptRows(Run(events[..n]).rows, phone);
        assert false;
      }
    }
  }

  /** Main result: ten minutes deliver at most five codes besides those under a repeated identifier, hence at
      most five if the gateway's identifiers are fresh. */
  lemma AtMostFiveDelivered(events: seq<Event>, phone: string, from: int)
    requires InSequence(events, phone)
    ensures DeliveredWithin(events, phone, from) <= 5 + RepeatedWithin(events, phone, from)
    ensures FreshIds(events) ==> DeliveredWithin(events, phone, from) <= 5
  {
    DeliveriesAreMarks(events, phone, from);
    AtMostFiveInTenMinutes(events, phone, from);
    if FreshIds(events) {
      FreshIdsNeverRepeat(events, phone, from);
    }
  }

  // ---- When the documented limit of three holds ----

  lemma {:induction false} SplitCount(a: seq<Mark>, b: seq<Mark>, from: int)
    ensures CountWithin(a + b, from) == CountWithin(a, from) + CountWithin(b, from)
  {
    if b == [] {
      assert a + b == a;
    } else {
      var n := |b| - 1;
      SplitCount(a, b[..n], from);
      assert (a + b)[..|a + b| - 1] == a + b[..n];
    }
  }

  lemma {:induction false} AllCount(marks: seq<Mark>, from: int)
    requires forall i | 0 <= i < |marks| :: Within(marks[i].time, from)
    ensures CountWithin(marks, from) == |marks|
  {
    if marks != [] {
      AllCount(marks[..|marks| - 1], from);
    }
  }

  /** The deliveries before the last `live` ones. */
  function Earlier(marks: seq<Mark>, live: nat): seq<Mark> {
    if live <= |marks| then marks[..|marks| - live] else []
  }

  /** The deliveries of the ten minutes that end now. */
  function LastTenMinutes(marks: seq<Mark>, now: int): nat {
    CountWithin(marks, now - RATE_LIMIT_WINDOW + 1)
  }

  /** What a caller can read at any time: the live counter, and the deliveries of earlier windows that are still
      less than ten minutes old. */
  function Recent(marks: seq<Mark>, cache: map<string, Counter>, phone: string, now: int): nat {
    var live := SendCount(cache, phone, now);
    live + LastTenMinutes(Earlier(marks, live), now)
  }

  /** The live counter counts the deliveries of its own window, all of them recent. */
  lemma LiveCounterIsRecent(marks: seq<Mark>, cache: map<string, Counter>, phone: string, now: int)
    requires Windowed(marks) && CounterMatches(marks, cache, phone) && Alive(cache, phone, now)
    requires forall i | 0 <= i < |marks| :: marks[i].time <= now
    ensures SendCount(cache, phone, now) <= |marks|
    ensures forall i | |marks| - SendCount(cache, phone, now) <= i < |marks| ::
              Within(marks[i].time, now - RATE_LIMIT_WINDOW + 1)
  {
  }

  lemma LiveAndEarlier(marks: seq<Mark>, live: nat, from: int)
    requires live <= |marks| && forall i | |marks| - live <= i < |marks| :: Within(marks[i].time, from)
    ensures CountWithin(marks, from) == live + CountWithin(Earlier(marks, live), from)
  {
    var cut := |marks| - live;
    assert marks == marks[..cut] + marks[cut..];
    SplitCount(marks[..cut], marks[cut..], from);
    AllCount(marks[cut..], from);
  }

  /** What a caller can read is what the last ten minutes delivered. */
  lemma RecentIsExact(marks: seq<Mark>, cache: map<string, Counter>, phone: string, now: int)
    requires Windowed(marks) && CounterMatches(marks, cache, phone)
    requires forall i | 0 <= i < |marks| :: marks[i].time <= now
    ensures Recent(marks, cache, phone, now) == LastTenMinutes(marks, now)
  {
    if Alive(cache, phone, now) {
      LiveCounterIsRecent(marks, cache, phone, now);
      LiveAndEarlier(marks, SendCount(cache, phone, now), now - RATE_LIMIT_WINDOW + 1);
    } else {
      assert Earlier(marks, 0) == marks;
    }
  }

  lemma MarksSnoc(events: seq<Event>, e: Event, phone: string)
    ensures Run(events + [e]) == Do(Run(events), e).0
    ensures Marks(events + [e], phone) == Marked(Marks(events, phone), Run(events), e, phone)
  {
    assert (events + [e])[..|events|] == events;
  }

  lemma EndsBefore(events: seq<Event>, e: Event, phone: string)
    requires InSequence(events + [e], phone) && e.phone == phone
    ensures InSequence(events, phone) && e.start <= EndOf(e)
    ensures forall i | 0 <= i < |events| && events[i].phone == phone :: EndOf(events[i]) <= e.start
  {
    var all, n := events + [e], |events|;
    assert all[n] == e && forall i | 0 <= i < n :: all[i] == events[i];
  }

  /** In order, more than m marks are recent exactly when the last m + 1 are. */
  lemma RecentAreLast(marks: seq<Mark>, from: int, now: int)
    requires InOrder(marks) && forall i | 0 <= i < |marks| :: marks[i].time <= now < from + RATE_LIMIT_WINDOW
    ensures CountWithin(marks, from) <= 2 <==> |marks| < 3 || marks[|marks| - 3].time < from
  {
    var n := |marks|;
    if n < 3 {
      EarlyMarksDoNotCount(marks, from, 0);
    } else if marks[n - 3].time < from {
      EarlyMarksDoNotCount(marks, from, n - 2);
    } else {
      assert marks == marks[..n - 3] + marks[n - 3..];
      SplitCount(marks[..n - 3], marks[n - 3..], from);
      AllCount(marks[n - 3..], from);
    }
  }

  /** The third delivery back is at least ten minutes old, if there is one. */
  predicate ThirdIsOld(marks: seq<Mark>, now: int) {
    |marks| < 3 || marks[|marks| - 3].time + RATE_LIMIT_WINDOW <= now
  }

  /** What a caller can read, and the codes under a repeated identifier, which nothing counts. */
  function Already(events: seq<Event>, phone: string, now: int): nat {
    Recent(Marks(events, phone), Run(events).cache, phone, now)
    + RepeatedWithin(events, phone, now - RATE_LIMIT_WINDOW + 1)
  }

  lemma AlreadyIsExact(events: seq<Event>, phone: string, now: int)
    requires InSequence(events, phone)
    requires forall i | 0 <= i < |events| && events[i].phone == phone :: EndOf(events[i]) <= now
    ensures Already(events, phone, now) == LastTenMinutes(Deliveries(events, phone), now)
  {
    SendsAreWindowed(events, phone);
    MarksNotAhead(events, phone, now);
    RecentIsExact(Marks(events, phone), Run(events).cache, phone, now);
    DeliveriesAreMarks(events, phone, now - RATE_LIMIT_WINDOW + 1);
  }

  lemma {:induction false} DeliveriesNotAhead(events: seq<Event>, phone: string, now: int)
    requires forall i | 0 <= i < |events| && events[i].phone == phone :: EndOf(events[i]) <= now
    ensures forall k | 0 <= k < |Deliveries(events, phone)| :: Deliveries(events, phone)[k].time <= now
  {
    if events != [] {
      DeliveriesNotAhead(events[..|events| - 1], phone, now);
    }
  }

  lemma {:induction false} DeliveriesInOrder(events: seq<Event>, phone: string)
    requires InSequence(events, phone)
    ensures InOrder(Deliveries(events, phone))
  {
    if events != [] {
      var n := |events| - 1;
      PrefixInSequence(events, phone);
      DeliveriesInOrder(events[..n], phone);
      if events[n].phone == phone {
        DeliveriesNotAhead(events[..n], phone, events[n].start);
      }
    }
  }

  /** A delivery adds one mark, at its end and after all others. */
  lemma NewDelivery(events: seq<Event>, e: Event, phone: string) returns (mark: Mark)
    requires InSequence(events + [e], phone) && Delivers(Run(events), e, phone)
    ensures mark.time == e.finish && Deliveries(events + [e], phone) == Deliveries(events, phone) + [mark]
    ensures InOrder(Deliveries(events, phone))
    ensures forall i | 0 <= i < |Deliveries(events, phone)| :: Deliveries(events, phone)[i].time <= mark.time
    ensures Already(events, phone, mark.time) == LastTenMinutes(Deliveries(events, phone), mark.time)
  {
    mark := Mark(e.finish, false, false);
    EndsBefore(events, e, phone);
    DeliveriesInOrder(events, phone);
    DeliveriesNotAhead(events, phone, e.finish);
    AlreadyIsExact(events, phone, e.finish);
    assert (events + [e])[..|events|] == events;
  }

  lemma MarkWithinLimit(m: seq<Mark>, mark: Mark)
    requires InOrder(m) && forall i | 0 <= i < |m| :: m[i].time <= mark.time
    ensures LastTenMinutes(m + [mark], mark.time) == LastTenMinutes(m, mark.time) + 1
    ensures LastTenMinutes(m, mark.time) < RATE_LIMIT_COUNT <==> ThirdIsOld(m, mark.time)
  {
    CountSnoc(m, mark, mark.time - RATE_LIMIT_WINDOW + 1);
    RecentAreLast(m, mark.time - RATE_LIMIT_WINDOW + 1, mark.time);
  }

  /** Main result: a delivery is within the documented limit, at most three in the ten minutes it ends, exactly
      when the live counter, the earlier stored deliveries and the repeated ones still in those ten minutes come
      to at most two, and exactly when the third delivery before it is at least ten minutes old. */
  lemma DeliveryWithinLimit(events: seq<Event>, e: Event, phone: string)
    requires InSequence(events + [e], phone) && Delivers(Run(events), e, phone)
    ensures var d, count := Deliveries(events, phone), LastTenMinutes(Deliveries(events + [e], phone), e.finish);
            && count == Already(events, phone, e.finish) + 1
            && (count <= RATE_LIMIT_COUNT <==> ThirdIsOld(d, e.finish))
  {
    var mark := NewDelivery(events, e, phone);
    MarkWithinLimit(Deliveries(events, phone), mark);
  }

  /** Every delivery of the run found room. */
  ghost predicate RoomForAll(events: seq<Event>, phone: string) {
    events == []
    || var n := |events| - 1;
       && RoomForAll(events[..n], phone)
       && (Delivers(Run(events[..n]), events[n], phone) ==>
             Already(events[..n], phone, events[n].finish) < RATE_LIMIT_COUNT)
  }

  /** The documented limit: no ten minutes hold more than three deliveries. */
  ghost predicate LimitKept(marks: seq<Mark>) {
    forall from: int :: CountWithin(marks, from) <= RATE_LIMIT_COUNT
  }

  lemma {:induction false} EarlierStartCountsMore(marks: seq<Mark>, earlier: int, from: int)
    requires earlier <= from && forall i | 0 <= i < |marks| :: marks[i].time < earlier + RATE_LIMIT_WINDOW
    ensures CountWithin(marks, from) <= CountWithin(marks, earlier)
  {
    if marks != [] {
      EarlierStartCountsMore(marks[..|marks| - 1], earlier, from);
    }
  }

  /** Only the ten minutes that a new delivery ends can break the limit. */
  lemma LimitSnoc(marks: seq<Mark>, mark: Mark)
    requires forall i | 0 <= i < |marks| :: marks[i].time <= mark.time
    ensures LimitKept(marks + [mark]) <==>
            LimitKept(marks) && LastTenMinutes(marks + [mark], mark.time) <= RATE_LIMIT_COUNT
  {
    var all, last := marks + [mark], mark.time - RATE_LIMIT_WINDOW + 1;
    if LimitKept(all) {
      forall from: int ensures CountWithin(marks, from) <= RATE_LIMIT_COUNT {
        CountSnoc(marks, mark, from);
        assert CountWithin(all, from) <= RATE_LIMIT_COUNT;
      }
    }
    if LimitKept(marks) && CountWithin(all, last) <= RATE_LIMIT_COUNT {
      forall from: int ensures CountWithin(all, from) <= RATE_LIMIT_COUNT {
        CountSnoc(marks, mark, from);
        if Within(mark.time, from) {
          EarlierStartCountsMore(all, last, from);
        } else {
          assert CountWithin(marks, from) <= RATE_LIMIT_COUNT;
        }
      }
    }
  }

  lemma LastDelivery(events: seq<Event>, e: Event, phone: string)
    requires InSequence(events + [e], phone) && Delivers(Run(events), e, phone)
    ensures LimitKept(Deliveries(events + [e], phone)) <==>
            LimitKept(Deliveries(events, phone)) && Already(events, phone, e.finish) < RATE_LIMIT_COUNT
  {
    var mark := NewDelivery(events, e, phone);
    MarkWithinLimit(Deliveries(events, phone), mark);
    LimitSnoc(Deliveries(events, phone), mark);
  }

  /** Main result: a run delivers at most three codes in every ten minutes exactly when every delivery found
      room for it. */
  lemma {:induction false} LimitKeptExactly(events: seq<Event>, phone: string)
    requires InSequence(events, phone)
    ensures LimitKept(Deliveries(events, phone)) <==> RoomForAll(events, phone)
  {
    if events != [] {
      var n := |events| - 1;
      PrefixInSequence(events, phone);
      LimitKeptExactly(events[..n], phone);
      assert events[..n] + [events[n]] == events;
      if Delivers(Run(events[..n]), events[n], phone) {
        LastDelivery(events[..n], events[n], phone);
      }
    }
  }

  /** Ten minutes in which no window opens after an earlier delivery hold at most three. */
  lemma {:induction false} OneWindowWithinLimit(marks: seq<Mark>, from: int)
    requires Windowed(marks)
    requires forall i, k | 0 <= i < k < |marks| && Within(marks[i].time, from) && Within(marks[k].time, from) ::
               !marks[k].opens
    ensures CountWithin(marks, from) <= RATE_LIMIT_COUNT
  {
    if marks != [] {
      var n := |marks| - 1;
      if !Within(marks[n].time, from) {
        WindowedPrefix(marks);
        OneWindowWithinLimit(marks[..n], from);
      } else if n < 3 {
        EarlyMarksDoNotCount(marks, from, 0);
      } else {
        assert OpensWithinThree(marks, n - 3);
        EarlyMarksDoNotCount(marks, from, n - 2);
      }
    }
  }

  // ---- The bound is met ----

  function Ping(id: string, seconds: int): Event {
    Sending("p", seconds * SECOND, seconds * SECOND, Some(id))
  }

  /** Sending again replaces the only unused row. */
  lemma PingReplaces(s: State, id: string, seconds: int)
    requires |s.rows| <= 1 && forall i | 0 <= i < |s.rows| :: IsActive(s.rows[i], "p")
    requires SendCount(s.cache, "p", seconds * SECOND) < RATE_LIMIT_COUNT
    ensures var seen := SendCount(s.cache, "p", seconds * SECOND);
            Do(s, Ping(id, seconds)) == (State([Row("p", id, false, seconds * SECOND)],
                                               Counted(s.cache, "p", seen, seconds * SECOND).0), Ok(()))
  {
    assert WithoutActive(s.rows, "p") == [] by {
      if s.rows != [] {
        assert s.rows[..0] == [];
      }
    }
    assert !HasId([], id);
    assert [] + [Row("p", id, false, seconds * SECOND)] == [Row("p", id, false, seconds * SECOND)];
  }

  /** One more code to the same phone. */
  lemma PingSucceeds(events: seq<Event>, id: string, seconds: int, count: nat, expiresAt: int)
    requires var s := Run(events);
             && |s.rows| <= 1 && (forall i | 0 <= i < |s.rows| :: IsActive(s.rows[i], "p"))
             && "p" in s.cache && s.cache["p"] == Counter(count, expiresAt)
    requires count < RATE_LIMIT_COUNT || expiresAt <= seconds * SECOND
    requires count >= 1
    ensures var s, alive := Run(events + [Ping(id, seconds)]), seconds * SECOND < expiresAt;
            && s.rows == [Row("p", id, false, seconds * SECOND)] && "p" in s.cache
            && s.cache["p"] == (if alive then Counter(count + 1, expiresAt)
                                else Counter(1, seconds * SECOND + RATE_LIMIT_WINDOW))
            && Marks(events + [Ping(id, seconds)], "p") == Marks(events, "p") + [Mark(seconds * SECOND, !alive, true)]
  {
    PingReplaces(Run(events), id, seconds);
    MarksSnoc(events, Ping(id, seconds), "p");
  }

  lemma FirstPing()
    ensures var s := Run([Ping("a", 0)]);
            && s.rows == [Row("p", "a", false, 0)] && "p" in s.cache && s.cache["p"] == Counter(1, RATE_LIMIT_WINDOW)
    ensures Marks([Ping("a", 0)], "p") == [Mark(0, true, true)]
  {
    PingReplaces(Run([]), "a", 0);
    MarksSnoc([], Ping("a", 0), "p");
    assert [] + [Ping("a", 0)] == [Ping("a", 0)];
  }

  const OPENING := [Ping("a", 0)] + [Ping("b", 590)] + [Ping("c", 595)]
  const BURST := OPENING + [Ping("d", 600)] + [Ping("e", 601)] + [Ping("f", 602)]

  lemma OpeningMarks()
    ensures var s := Run(OPENING);
            && |s.rows| <= 1 && (forall i | 0 <= i < |s.rows| :: IsActive(s.rows[i], "p"))
            && "p" in s.cache && s.cache["p"] == Counter(3, RATE_LIMIT_WINDOW)
    ensures Marks(OPENING, "p") == [Mark(0, true, true)] + [Mark(590 * SECOND, false, true)] + [Mark(595 * SECOND, false, true)]
  {
    FirstPing();
    PingSucceeds([Ping("a", 0)], "b", 590, 1, RATE_LIMIT_WINDOW);
    PingSucceeds([Ping("a", 0)] + [Ping("b", 590)], "c", 595, 2, RATE_LIMIT_WINDOW);
  }

  lemma BurstMarks()
    ensures Marks(BURST, "p") == Marks(OPENING, "p") + [Mark(600 * SECOND, true, true)] + [Mark(601 * SECOND, false, true)]
                                 + [Mark(602 * SECOND, false, true)]
  {
    var expiresAt := 600 * SECOND + RATE_LIMIT_WINDOW;
    OpeningMarks();
    PingSucceeds(OPENING, "d", 600, 3, RATE_LIMIT_WINDOW);
    PingSucceeds(OPENING + [Ping("d", 600)], "e", 601, 1, expiresAt);
    PingSucceeds(OPENING + [Ping("d", 600)] + [Ping("e", 601)], "f", 602, 2, expiresAt);
  }

  lemma OpeningCount()
    ensures CountWithin(Marks(OPENING, "p"), 590 * SECOND) == 2
  {
    OpeningMarks();
    var from, m1 := 590 * SECOND, [Mark(0, true, true)];
    CountSnoc([], Mark(0, true, true), from);
    assert [] + [Mark(0, true, true)] == m1;
    CountSnoc(m1, Mark(590 * SECOND, false, true), from);
    CountSnoc(m1 + [Mark(590 * SECOND, false, true)], Mark(595 * SECOND, false, true), from);
  }

  lemma BurstInSequence()
    ensures InSequence(BURST, "p")
  {
    assert BURST == [Ping("a", 0), Ping("b", 590), Ping("c", 595), Ping("d", 600), Ping("e", 601), Ping("f", 602)];
  }

  /** The documented limit is not kept by every run: this one delivers five codes within twelve seconds, so the
      bound of five is met. */
  lemma FiveSendsInTenMinutes()
    ensures InSequence(BURST, "p") && CountWithin(Marks(BURST, "p"), 590 * SECOND) == 5
  {
    BurstInSequence();
    BurstMarks();
    OpeningCount();
    var from, m3 := 590 * SECOND, Marks(OPENING, "p");
    CountSnoc(m3, Mark(600 * SECOND, true, true), from);
    CountSnoc(m3 + [Mark(600 * SECOND, true, true)], Mark(601 * SECOND, false, true), from);
    CountSnoc(m3 + [Mark(600 * SECOND, true, true)] + [Mark(601 * SECOND, false, true)], Mark(602 * SECOND, false, true), from);
  }

  // ---- Repeated identifiers are not bounded ----

  /** A code sent and used, and then delivered again n times under the identifier of the used one. */
  function Repeating(n: nat): seq<Event> {
    if n == 0 then [Ping("a", 0), Verifying("p", 0, Some(true))] else Repeating(n - 1) + [Ping("a", 0)]
  }

  /** The state after every such run. */
  ghost predicate OneUsed(s: State) {
    s.rows == [Row("p", "a", true, 0)] && "p" in s.cache && s.cache["p"] == Counter(1, RATE_LIMIT_WINDOW)
  }

  lemma FirstUsed()
    ensures OneUsed(Run(Repeating(0)))
    ensures RepeatedWithin(Repeating(0), "p", 0) == 0
  {
    FirstPing();
    var events := [Ping("a", 0)] + [Verifying("p", 0, Some(true))];
    assert events == Repeating(0) && events[..1] == [Ping("a", 0)] && events[..1][..0] == [];
    assert Latest(Run([Ping("a", 0)]).rows, "p") == Some(0);
  }

  /** Sending again after the code was used changes nothing. */
  lemma RepeatChangesNothing(s: State)
    requires OneUsed(s)
    ensures Do(s, Ping("a", 0)) == (s, Err(Duplicate))
  {
    assert WithoutActive(s.rows, "p") == s.rows by {
      assert s.rows[..0] == [];
    }
    assert s.rows[0].requestId == "a";
  }

  lemma RepeatedSnoc(events: seq<Event>, e: Event, phone: string, from: int)
    requires Repeats(Run(events), e, phone) && Within(e.finish, from)
    ensures RepeatedWithin(events + [e], phone, from) == RepeatedWithin(events, phone, from) + 1
  {
    assert (events + [e])[..|events|] == events;
  }

  lemma {:induction false} RepeatingInSequence(n: nat)
    ensures InSequence(Repeating(n), "p") && forall e | e in Repeating(n) :: e.start == EndOf(e) == 0
  {
    if n > 0 {
      RepeatingInSequence(n - 1);
    }
  }

  lemma {:induction false} RepeatingKeepsState(n: nat)
    ensures OneUsed(Run(Repeating(n)))
  {
    if n == 0 {
      FirstUsed();
    } else {
      RepeatingKeepsState(n - 1);
      RepeatChangesNothing(Run(Repeating(n - 1)));
      MarksSnoc(Repeating(n - 1), Ping("a", 0), "p");
    }
  }

  lemma {:induction false} RepeatedCount(n: nat)
    ensures RepeatedWithin(Repeating(n), "p", 0) == n
  {
    if n == 0 {
      FirstUsed();
    } else {
      RepeatedCount(n - 1);
      RepeatingKeepsState(n - 1);
      RepeatChangesNothing(Run(Repeating(n - 1)));
      RepeatedSnoc(Repeating(n - 1), Ping("a", 0), "p", 0);
    }
  }

  /** Deliveries under a repeated identifier are neither counted nor limited. */
  lemma {:induction false} RepeatsAreUnlimited(n: nat)
    ensures InSequence(Repeating(n), "p")
    ensures RepeatedWithin(Repeating(n), "p", 0) == n && DeliveredWithin(Repeating(n), "p", 0) >= n
  {
    RepeatingInSequence(n);
    RepeatedCount(n);
    DeliveriesAreMarks(Repeating(n), "p", 0);
  }
}
