/** Whole runs of the marketplace from the empty database, one call at a time. */
module Runs {
  import opened Wrappers
  import opened Sums
  import opened Tables
  import opened Marketplace
  import opened Lifecycle
  import opened Escrow
  import opened Books
  import opened JobRows
  import opened Deposits
  import opened Invariants

  /** A call and the time its service read from the clock. */
  datatype Event = Event(call: Call, now: int)

  /** The database after a call: a failed call is rolled back. */
  function After(db: Db, e: Event): Db
    requires Shape(db)
  {
    match Step(db, e.call, e.now)
    case Ok(db') => db'
    case Err(_) => db
  }

  lemma AfterKeepsShape(db: Db, e: Event)
    requires Shape(db)
    ensures Shape(After(db, e))
  {
    if Step(db, e.call, e.now).Ok? {
      StepKeepsShape(db, e.call, e.now);
    }
  }

  /** The database after a run. */
  ghost function Run(pct: nat, trace: seq<Event>): (db: Db)
    ensures Shape(db)
  {
    if trace == [] then Initial(pct)
    else
      var n := |trace| - 1;
      var before := Run(pct, trace[..n]);
      AfterKeepsShape(before, trace[n]);
      After(before, trace[n])
  }

  lemma AfterHolds(db: Db, e: Event)
    requires Inv(db)
    ensures Inv(After(db, e))
  {
    if Step(db, e.call, e.now).Ok? {
      StepKeepsInv(db, e.call, e.now);
    }
  }

  /** Main result: every state of every run satisfies every invariant. */
  lemma {:induction false} RunHolds(pct: nat, trace: seq<Event>)
    ensures Inv(Run(pct, trace))
  {
    if trace == [] {
      InitialHolds(pct);
    } else {
      var n := |trace| - 1;
      RunHolds(pct, trace[..n]);
      AfterHolds(Run(pct, trace[..n]), trace[n]);
    }
  }

  lemma RunJobsOk(pct: nat, trace: seq<Event>)
    ensures JobsOk(Run(pct, trace))
  {
    RunHolds(pct, trace);
  }

  ghost predicate Succeeds(pct: nat, trace: seq<Event>, i: nat)
    requires i < |trace|
  {
    Step(Run(pct, trace[..i]), trace[i].call, trace[i].now).Ok?
  }

  lemma RunSnoc(pct: nat, trace: seq<Event>, e: Event)
    ensures Run(pct, trace + [e]) == After(Run(pct, trace), e)
  {
    assert (trace + [e])[..|trace|] == trace;
  }

  lemma {:induction false} SettingKept(pct: nat, trace: seq<Event>)
    ensures Run(pct, trace).pct == pct
  {
    if trace != [] {
      var n := |trace| - 1;
      SettingKept(pct, trace[..n]);
      if Succeeds(pct, trace, n) {
        StepKeepsShape(Run(pct, trace[..n]), trace[n].call, trace[n].now);
      }
    }
  }

  // ---- Each acceptance and each deposit happens once ----

  /** How many successful calls of the run satisfy `counts`. */
  ghost function Successes(pct: nat, trace: seq<Event>, counts: Call -> bool): nat {
    if trace == [] then 0
    else
      var n := |trace| - 1;
      Successes(pct, trace[..n], counts) + if Succeeds(pct, trace, n) && counts(trace[n].call) then 1 else 0
  }

  function AcceptsOf(j: nat): Call -> bool {
    (c: Call) => c.Accept? && c.job == j
  }

  function ConfirmsOf(r: nat): Call -> bool {
    (c: Call) => c.Confirm? && c.request == r
  }

  /** Only accepting job j changes whether j carries an acceptance, and only from no to yes. */
  lemma AcceptanceFlips(db: Db, call: Call, now: int, j: nat)
    requires Shape(db) && JobsOk(db) && Step(db, call, now).Ok?
    ensures var db' := Step(db, call, now).value;
            var was := j < |db.jobs| && db.jobs[j].acceptedAt.Some?;
            var isNow := j < |db'.jobs| && db'.jobs[j].acceptedAt.Some?;
            if AcceptsOf(j)(call) then !was && isNow else isNow == was
  {
    StepEvolvesJobs(db, call, now);
    if j < |db.jobs| {
      assert StampsMatchStatus(db.jobs[j]);
    }
  }

  /** Main result: over any run, a job is accepted at most once, and exactly when its row says so. */
  lemma {:induction false} AcceptedAtMostOnce(pct: nat, trace: seq<Event>, j: nat)
    ensures var db := Run(pct, trace);
            Successes(pct, trace, AcceptsOf(j)) ==
            if j < |db.jobs| && db.jobs[j].acceptedAt.Some? then 1 else 0
  {
    if trace != [] {
      var n := |trace| - 1;
      AcceptedAtMostOnce(pct, trace[..n], j);
      if Succeeds(pct, trace, n) {
        RunHolds(pct, trace[..n]);
        AcceptanceFlips(Run(pct, trace[..n]), trace[n].call, trace[n].now, j);
      }
    }
  }

  lemma ConfirmationFlips(db: Db, call: Call, now: int, r: nat)
    requires Shape(db) && Step(db, call, now).Ok?
    ensures var db' := Step(db, call, now).value;
            var was := r < |db.requests| && db.requests[r].status == Confirmed;
            var isNow := r < |db'.requests| && db'.requests[r].status == Confirmed;
            if ConfirmsOf(r)(call) then !was && isNow else isNow == was
  {
  }

  /** Main result: over any run, a deposit request is credited at most once, and exactly when it is marked so. */
  lemma {:induction false} ConfirmedAtMostOnce(pct: nat, trace: seq<Event>, r: nat)
    ensures var db := Run(pct, trace);
            Successes(pct, trace, ConfirmsOf(r)) ==
            if r < |db.requests| && db.requests[r].status == Confirmed then 1 else 0
  {
    if trace != [] {
      var n := |trace| - 1;
      ConfirmedAtMostOnce(pct, trace[..n], r);
      if Succeeds(pct, trace, n) {
        ConfirmationFlips(Run(pct, trace[..n]), trace[n].call, trace[n].now, r);
      }
    }
  }

  // ---- Lifecycle over whole runs ----

  predicate Reaches(a: JobStatus, b: JobStatus) {
    a == b || Edge(a, b)
    || (a == Created && (b == InProgress || b == Completed))
    || (a == Accepted && b == Completed)
  }

  /** What a job row at one time says about the same row at any later time. */
  predicate Later(a: Job, b: Job) {
    && Reaches(a.status, b.status)
    && b.employer == a.employer && b.price == a.price && b.createdAt == a.createdAt
    && Kept(a.worker, b.worker)
    && Kept(a.acceptedAt, b.acceptedAt) && Kept(a.startedAt, b.startedAt)
    && Kept(a.completedAt, b.completedAt) && Kept(a.cancelledAt, b.cancelledAt)
    && (!IsLive(a.status) ==> b == a)
  }

  lemma RunLast(pct: nat, trace: seq<Event>)
    requires trace != []
    ensures Run(pct, trace) == After(Run(pct, trace[..|trace| - 1]), trace[|trace| - 1])
  {
  }

  lemma LaterIsReflexive(job: Job)
    ensures Later(job, job)
  {
  }

  lemma EvolvesLater(a: Job, b: Job, c: Job)
    requires Later(a, b) && Evolves(b, c)
    ensures Later(a, c)
  {
  }

  lemma StaysLater(db: Db, e: Event, first: Job, j: nat)
    requires Shape(db) && JobsOk(db) && j < |db.jobs| && Later(first, db.jobs[j])
    ensures j < |After(db, e).jobs| && Later(first, After(db, e).jobs[j])
  {
    if Step(db, e.call, e.now).Ok? {
      StepEvolvesJobs(db, e.call, e.now);
      EvolvesLater(first, db.jobs[j], After(db, e).jobs[j]);
    }
  }

  /** Main result: from any point n of a run to its end, statuses only move along the life cycle, ended jobs
      never change, and parties, price and stamps are set once. */
  lemma {:induction false} JobsOnlyMoveForward(pct: nat, trace: seq<Event>, n: nat, j: nat)
    requires n <= |trace| && j < |Run(pct, trace[..n]).jobs|
    ensures j < |Run(pct, trace).jobs|
    ensures Later(Run(pct, trace[..n]).jobs[j], Run(pct, trace).jobs[j])
    decreases |trace|
  {
    var m, first := |trace| - 1, Run(pct, trace[..n]).jobs[j];
    if n == |trace| {
      assert trace[..n] == trace;
      LaterIsReflexive(first);
    } else {
      assert trace[..m][..n] == trace[..n];
      JobsOnlyMoveForward(pct, trace[..m], n, j);
      RunJobsOk(pct, trace[..m]);
      StaysLater(Run(pct, trace[..m]), trace[m], first, j);
      RunLast(pct, trace);
    }
  }

  predicate TouchesJob(call: Call) {
    call.Create? || Target(call).Some?
  }

  function JobCalls(): Call -> bool {
    (c: Call) => TouchesJob(c)
  }

  lemma CreateAppendsJob(db: Db, user: nat, price: int, now: int)
    requires Shape(db) && user < |db.roles| && CreateJob(db, user, price, now).Ok?
    ensures CreateJob(db, user, price, now).value.jobs == db.jobs + [NewJob(user, price, now)]
  {
  }

  lemma EvolvedSum(jobs: seq<Job>, jobs': seq<Job>, j: nat)
    requires |jobs'| == |jobs| && j < |jobs|
    requires forall k | 0 <= k < |jobs| :: k != j ==> jobs'[k] == jobs[k]
    requires Evolves(jobs[j], jobs'[j]) && jobs'[j].status != jobs[j].status
    ensures Sum(jobs', ProgressOf()) >= Sum(jobs, ProgressOf()) + 1
  {
    assert jobs' == jobs[j := jobs'[j]];
    SumUpdate(jobs, j, jobs'[j], ProgressOf());
    EdgesProgress(jobs[j], jobs'[j]);
  }

  lemma SuccessRaisesProgress(db: Db, call: Call, now: int)
    requires Shape(db) && JobsOk(db) && Step(db, call, now).Ok?
    ensures var db' := Step(db, call, now).value;
            Sum(db'.jobs, ProgressOf()) >= Sum(db.jobs, ProgressOf()) + (if TouchesJob(call) then 1 else 0)
  {
    var db' := Step(db, call, now).value;
    StepEvolvesJobs(db, call, now);
    if call.Create? {
      CreateAppendsJob(db, call.user, call.price, now);
      SumSnoc(db.jobs, db'.jobs[|db.jobs|], ProgressOf());
    } else if Target(call).Some? {
      EvolvedSum(db.jobs, db'.jobs, Target(call).value);
    } else {
      assert db'.jobs == db.jobs;
    }
  }

  lemma {:induction false} ProgressAtMostFour(jobs: seq<Job>)
    ensures Sum(jobs, ProgressOf()) <= 4 * |jobs|
  {
    if jobs != [] {
      ProgressAtMostFour(jobs[..|jobs| - 1]);
    }
  }

  lemma {:induction false} SuccessesWithinProgress(pct: nat, trace: seq<Event>)
    ensures Successes(pct, trace, JobCalls()) <= Sum(Run(pct, trace).jobs, ProgressOf())
  {
    if trace != [] {
      var n := |trace| - 1;
      SuccessesWithinProgress(pct, trace[..n]);
      if Succeeds(pct, trace, n) {
        RunHolds(pct, trace[..n]);
        SuccessRaisesProgress(Run(pct, trace[..n]), trace[n].call, trace[n].now);
      }
    }
  }

  /** Main result: a run has at most four successful job calls for every job it creates. */
  lemma AtMostFourCallsPerJob(pct: nat, trace: seq<Event>)
    ensures Successes(pct, trace, JobCalls()) <= 4 * |Run(pct, trace).jobs|
  {
    SuccessesWithinProgress(pct, trace);
    ProgressAtMostFour(Run(pct, trace).jobs);
  }

  // ---- Order of the stamps ----

  /** Every call read a clock that was not behind the stamps of the job it works on. */
  ghost predicate TimelyTrace(pct: nat, trace: seq<Event>) {
    forall i | 0 <= i < |trace| :: Timely(Run(pct, trace[..i]), trace[i].call, trace[i].now)
  }

  lemma TimelyPrefix(pct: nat, trace: seq<Event>, n: nat)
    requires TimelyTrace(pct, trace) && n <= |trace|
    ensures TimelyTrace(pct, trace[..n])
  {
    forall i | 0 <= i < n ensures Timely(Run(pct, trace[..n][..i]), trace[..n][i].call, trace[..n][i].now) {
      assert trace[..n][..i] == trace[..i];
    }
  }

  lemma AfterKeepsOrder(db: Db, e: Event)
    requires Shape(db) && JobsOk(db) && AllOrdered(db) && Timely(db, e.call, e.now)
    ensures AllOrdered(After(db, e))
  {
    if Step(db, e.call, e.now).Ok? {
      StepKeepsOrder(db, e.call, e.now);
    }
  }

  lemma {:induction false} StampsAlwaysOrdered(pct: nat, trace: seq<Event>)
    requires TimelyTrace(pct, trace)
    ensures AllOrdered(Run(pct, trace))
  {
    if trace != [] {
      var n := |trace| - 1;
      TimelyPrefix(pct, trace, n);
      StampsAlwaysOrdered(pct, trace[..n]);
      RunHolds(pct, trace[..n]);
      AfterKeepsOrder(Run(pct, trace[..n]), trace[n]);
    }
  }

  predicate MonotoneClock(trace: seq<Event>) {
    forall i, k | 0 <= i < k < |trace| :: trace[i].now <= trace[k].now
  }

  lemma TargetStamped(db: Db, call: Call, at: int, now: int)
    requires Shape(db) && Step(db, call, at).Ok? && Target(call).Some? && at <= now
    requires Target(call).value < |db.jobs| && StampedBy(db.jobs[Target(call).value], now)
    ensures StampedBy(Step(db, call, at).value.jobs[Target(call).value], now)
  {
  }

  lemma StepStamps(db: Db, e: Event, now: int)
    requires Shape(db) && e.now <= now
    requires forall j | 0 <= j < |db.jobs| :: StampedBy(db.jobs[j], now)
    ensures forall j | 0 <= j < |After(db, e).jobs| :: StampedBy(After(db, e).jobs[j], now)
  {
    if Step(db, e.call, e.now).Ok? {
      StepWritesOneJob(db, e.call, e.now);
      if Target(e.call).Some? {
        TargetStamped(db, e.call, e.now, now);
      }
    }
  }

  lemma {:induction false} StampsNotAhead(pct: nat, trace: seq<Event>, now: int)
    requires forall i | 0 <= i < |trace| :: trace[i].now <= now
    ensures forall j | 0 <= j < |Run(pct, trace).jobs| :: StampedBy(Run(pct, trace).jobs[j], now)
  {
    if trace != [] {
      var n := |trace| - 1;
      StampsNotAhead(pct, trace[..n], now);
      StepStamps(Run(pct, trace[..n]), trace[n], now);
    }
  }

  /** Main result: under a clock that never runs back, the stamps of every job are in life-cycle order. */
  lemma MonotoneClockOrdersStamps(pct: nat, trace: seq<Event>)
    requires MonotoneClock(trace)
    ensures AllOrdered(Run(pct, trace))
  {
    forall i | 0 <= i < |trace| ensures Timely(Run(pct, trace[..i]), trace[i].call, trace[i].now) {
      StampsNotAhead(pct, trace[..i], trace[i].now);
    }
    StampsAlwaysOrdered(pct, trace);
  }

  // ---- What the invariants say of every run ----

  /** The wallet is a function of the tables, at every point of every run. */
  lemma WalletsAreImplied(pct: nat, trace: seq<Event>, u: nat)
    requires u < |Run(pct, trace).wallets|
    ensures var db := Run(pct, trace);
            && db.wallets[u].held == Sum(db.jobs, Live(u))
            && db.wallets[u].spent == Sum(db.jobs, Funded(u))
            && db.wallets[u].earned == Sum(db.jobs, Worked(u, pct))
            && db.wallets[u].balance ==
               Sum(db.requests, Credited(u)) - Sum(db.jobs, Funded(u)) + Sum(db.jobs, Worked(u, pct))
  {
    SettingKept(pct, trace);
    RunHolds(pct, trace);
    assert Run(pct, trace).wallets[u] == ImpliedWallet(Run(pct, trace), u);
  }

  /** The ledger alone gives the available balance and the escrow of every wallet, at every point of every run. */
  lemma LedgerGivesBothBalances(pct: nat, trace: seq<Event>, u: nat)
    requires u < |Run(pct, trace).wallets|
    ensures var db := Run(pct, trace);
            && Chained(db.ledger)
            && db.wallets[u].balance ==
               Sum(db.ledger, OfKind(u, Deposit)) + Sum(db.ledger, OfKind(u, Refund))
               + Sum(db.ledger, OfKind(u, JobRelease)) - Sum(db.ledger, OfKind(u, JobPayment))
            && db.wallets[u].held == Sum(db.ledger, EscrowOfRow(db.ledger, u))
  {
    RunHolds(pct, trace);
    BalanceFromLedger(Run(pct, trace), u);
    EscrowFromLedger(Run(pct, trace), u);
  }

  /** The ledger rows of every job are those its status implies, at every point of every run. */
  lemma JobRowsAreImplied(pct: nat, trace: seq<Event>, j: nat)
    requires j < |Run(pct, trace).jobs|
    ensures PostingsOf(Run(pct, trace).ledger, j) == ImpliedPostings(Run(pct, trace).jobs[j], pct)
  {
    SettingKept(pct, trace);
    RunHolds(pct, trace);
  }

  /** No run makes or loses money. */
  lemma RunConserves(pct: nat, trace: seq<Event>)
    ensures var db := Run(pct, trace);
            Sum(db.wallets, Funds()) + Sum(db.ledger, Amount(Kind.Commission)) == Sum(db.ledger, Amount(Deposit))
            == Sum(db.requests, ConfirmedAmount())
  {
    RunHolds(pct, trace);
  }

  function BalanceOnly(): Wallet -> int {
    (w: Wallet) => w.balance
  }

  /** When every job has ended, all money is in available balances or was taken as commission. */
  lemma EndedMarketplaceConserves(pct: nat, trace: seq<Event>)
    requires forall j | 0 <= j < |Run(pct, trace).jobs| :: !IsLive(Run(pct, trace).jobs[j].status)
    ensures var db := Run(pct, trace);
            && (forall u | 0 <= u < |db.wallets| :: db.wallets[u].held == 0)
            && Sum(db.wallets, BalanceOnly()) + Sum(db.ledger, Amount(Kind.Commission))
               == Sum(db.requests, ConfirmedAmount())
  {
    var db := Run(pct, trace);
    RunHolds(pct, trace);
    NothingHeldWhenAllEnded(db);
    SumSame(db.wallets, Funds(), BalanceOnly());
  }

  predicate SerializedPrices(trace: seq<Event>) {
    forall i | 0 <= i < |trace| :: trace[i].call.Create? ==> trace[i].call.price >= MIN_PRICE
  }

  /** Main result: no ledger row of a run is empty exactly when every job has a price, and every completed one a
      price whose share is at least one tiyin and not the whole. */
  lemma AmountsPositiveWhen(pct: nat, trace: seq<Event>)
    ensures var db := Run(pct, trace);
            AmountsPositive(db) <==> forall j | 0 <= j < |db.jobs| :: PaysInFull(db.jobs[j], pct)
  {
    SettingKept(pct, trace);
    RunHolds(pct, trace);
    AmountsPositiveExactly(Run(pct, trace));
  }

  lemma {:induction false} PricesStayAboveMinimum(pct: nat, trace: seq<Event>)
    requires SerializedPrices(trace)
    ensures PricesAboveMinimum(Run(pct, trace))
  {
    if trace != [] {
      var n := |trace| - 1;
      PricesStayAboveMinimum(pct, trace[..n]);
      RunJobsOk(pct, trace[..n]);
      if Succeeds(pct, trace, n) {
        StepEvolvesJobs(Run(pct, trace[..n]), trace[n].call, trace[n].now);
        StepWritesOneJob(Run(pct, trace[..n]), trace[n].call, trace[n].now);
      }
    }
  }

  /** Main result: when prices come through the serializer and the percentage is 1 to 99, every ledger amount
      of the run is at least 1. */
  lemma AmountsAlwaysPositive(pct: nat, trace: seq<Event>)
    requires 1 <= pct <= 99 && SerializedPrices(trace)
    ensures AmountsPositive(Run(pct, trace)) && PricesAboveMinimum(Run(pct, trace))
  {
    PricesStayAboveMinimum(pct, trace);
    AmountsPositiveWhen(pct, trace);
    forall j | 0 <= j < |Run(pct, trace).jobs| ensures PaysInFull(Run(pct, trace).jobs[j], pct) {
      MinimumPaysInFull(Run(pct, trace).jobs[j], pct);
    }
  }

  /** Over any run, commission falls short of its exact share by less than one tiyin per completed job. */
  lemma RunCommissionNearShare(pct: nat, trace: seq<Event>)
    ensures var db := Run(pct, trace);
            var taken, share := Sum(db.ledger, Amount(Kind.Commission)), Sum(db.jobs, CompletedPrice()) * pct;
            100 * taken <= share <= 100 * taken + 99 * Sum(db.jobs, IsCompleted())
  {
    SettingKept(pct, trace);
    RunHolds(pct, trace);
    CommissionNearShare(Run(pct, trace));
  }
}
