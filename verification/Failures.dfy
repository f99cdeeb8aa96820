/** Which exception a refused call raises, from the roles, the rows and the call alone. */
module Failures {
  import opened Wrappers
  import opened Tables
  import opened Marketplace
  import opened Lifecycle
  import opened Escrow

  predicate SignedIn(db: Db, call: Call) {
    call.Register? || call.Confirm? || call.user < |db.roles|
  }

  /** The caller has the wrong role or no part in the job. */
  predicate IsForbidden(db: Db, call: Call)
    requires SignedIn(db, call)
  {
    match call
    case Create(u, _) => db.roles[u] == Worker
    case Accept(j, u) =>
      db.roles[u] == Employer || (j < |db.jobs| && db.jobs[j].status == Created && db.jobs[j].employer == u)
    case Complete(_, u) => db.roles[u] == Worker
    case Cancel(j, u, _) => j < |db.jobs| && u != db.jobs[j].employer && db.jobs[j].worker != Some(u)
    case _ => false
  }

  /** There is no such job among those the caller may work on. */
  predicate IsNotFound(db: Db, call: Call)
    requires SignedIn(db, call)
  {
    match call
    case Accept(j, u) => db.roles[u] == Worker && j >= |db.jobs|
    case Start(j, u) => j >= |db.jobs| || db.jobs[j].worker != Some(u)
    case Complete(j, u) => db.roles[u] == Employer && (j >= |db.jobs| || db.jobs[j].employer != u)
    case Cancel(j, _, _) => j >= |db.jobs|
    case _ => false
  }

  /** The job is in another state. */
  predicate IsWrongState(db: Db, call: Call)
    requires SignedIn(db, call)
  {
    match call
    case Accept(j, u) => db.roles[u] == Worker && j < |db.jobs| && db.jobs[j].status != Created
    case Start(j, u) => j < |db.jobs| && db.jobs[j].worker == Some(u) && db.jobs[j].status != Accepted
    case Complete(j, u) =>
      db.roles[u] == Employer && j < |db.jobs| && db.jobs[j].employer == u && db.jobs[j].status != InProgress
    case Cancel(j, u, _) =>
      && j < |db.jobs| && (u == db.jobs[j].employer || db.jobs[j].worker == Some(u))
      && (db.jobs[j].status == Completed || db.jobs[j].status == Cancelled)
    case _ => false
  }

  /** The amount is outside the deposit limits, or the request is not pending. */
  predicate IsInvalid(db: Db, call: Call) {
    match call
    case Initiate(_, amount, _, _) => amount < 10_000 || amount > 10_000_000
    case Confirm(r, _) =>
      || r >= |db.requests| || db.requests[r].status == Confirmed
      || db.requests[r].amount < 10_000 || db.requests[r].amount > 10_000_000
    case _ => false
  }

  predicate Overflows(v: int) {
    v >= 0x8000_0000_0000_0000
  }

  /** Completing this job would take a column of a wallet or a ledger row out of its range. */
  predicate ReleaseOverflows(db: Db, job: Job)
    requires Shape(db) && job.employer < |db.roles|
    requires job.worker.Some? ==> job.worker.value < |db.roles|
  {
    var fee := job.price * db.pct / 100;
    || job.price > db.wallets[job.employer].held
    || fee > job.price
    || (job.worker.Some?
        && (Overflows(db.wallets[job.worker.value].balance + job.price - fee)
            || Overflows(db.wallets[job.worker.value].earned + job.price - fee)))
  }

  /** Some column cannot hold what the call writes. */
  predicate IsOutOfRange(db: Db, call: Call)
    requires Shape(db) && SignedIn(db, call)
  {
    match call
    case Create(u, price) =>
      && db.roles[u] == Employer && price <= db.wallets[u].balance
      && (price < 0 || price > 2_147_483_647
          || Overflows(db.wallets[u].held + price) || Overflows(db.wallets[u].spent + price))
    case Complete(j, u) =>
      && db.roles[u] == Employer && j < |db.jobs| && db.jobs[j].employer == u && db.jobs[j].status == InProgress
      && ReleaseOverflows(db, db.jobs[j])
    case Cancel(j, u, _) =>
      && j < |db.jobs| && (u == db.jobs[j].employer || db.jobs[j].worker == Some(u))
      && db.jobs[j].status != Completed && db.jobs[j].status != Cancelled
      && (var w := db.wallets[db.jobs[j].employer];
          Overflows(w.balance + if w.held < db.jobs[j].price then w.held else db.jobs[j].price))
    case Initiate(_, amount, provider, gateway) =>
      && 10_000 <= amount <= 10_000_000
      && (|provider| > 20 || (gateway.Some? && |gateway.value| > 200))
    case Confirm(r, x) =>
      && r < |db.requests| && db.requests[r].status == Pending && 10_000 <= db.requests[r].amount <= 10_000_000
      && (Overflows(db.wallets[db.requests[r].wallet].balance + db.requests[r].amount)
          || |db.requests[r].provider| > 50 || |x| > 200 || (x == "" && |db.requests[r].externalId| > 200))
    case _ => false
  }

  predicate RefusedFor(db: Db, call: Call, e: Error)
    requires Shape(db)
  {
    if !SignedIn(db, call) then e == Unauthenticated
    else
      match e
      case Unauthenticated => false
      case Forbidden => IsForbidden(db, call)
      case NotFound => IsNotFound(db, call)
      case JobState => IsWrongState(db, call)
      case InsufficientBalance =>
        call.Create? && db.roles[call.user] == Employer && db.wallets[call.user].balance < call.price
      case Validation => IsInvalid(db, call)
      case ProviderFailed =>
        call.Initiate? && 10_000 <= call.amount <= 10_000_000 && |call.provider| <= 20 && call.gateway.None?
      case Integrity => IsOutOfRange(db, call)
  }

  lemma CreateFailsExactly(db: Db, call: Call, now: int, e: Error)
    requires Shape(db) && WalletsFit(db) && call.Create?
    ensures Step(db, call, now) == Err(e) <==> RefusedFor(db, call, e)
  {
    if call.user < |db.roles| {
      assert WalletFits(db.wallets[call.user]);
    }
  }

  lemma ReleaseFailsExactly(db: Db, j: nat)
    requires Shape(db) && WalletsFit(db) && j < |db.jobs| && db.jobs[j].worker.Some?
    requires db.jobs[j].worker.value != db.jobs[j].employer
    ensures Release(db, j) == Err(Integrity) <==> ReleaseOverflows(db, db.jobs[j])
    ensures Release(db, j).Err? ==> Release(db, j) == Err(Integrity)
  {
    var job := db.jobs[j];
    assert WalletFits(db.wallets[job.employer]) && WalletFits(db.wallets[job.worker.value]);
    assert job.price * db.pct >= 0;
  }

  lemma CompleteFailsExactly(db: Db, call: Call, now: int, e: Error)
    requires Shape(db) && JobsOk(db) && WalletsFit(db) && call.Complete?
    ensures Step(db, call, now) == Err(e) <==> RefusedFor(db, call, e)
  {
    var j := call.job;
    if j < |db.jobs| && db.jobs[j].status == InProgress {
      assert StampsMatchStatus(db.jobs[j]);
      WorkerIsNotEmployer(db, j);
      ReleaseFailsExactly(db.(jobs := db.jobs[j := db.jobs[j].(status := Completed, completedAt := Some(now))]), j);
    }
  }

  lemma CancelFailsExactly(db: Db, call: Call, now: int, e: Error)
    requires Shape(db) && WalletsFit(db) && call.Cancel?
    ensures Step(db, call, now) == Err(e) <==> RefusedFor(db, call, e)
  {
    if call.job < |db.jobs| {
      assert WalletFits(db.wallets[db.jobs[call.job].employer]);
    }
  }

  lemma DepositFailsExactly(db: Db, call: Call, now: int, e: Error)
    requires Shape(db) && WalletsFit(db) && (call.Initiate? || call.Confirm?)
    ensures Step(db, call, now) == Err(e) <==> RefusedFor(db, call, e)
  {
    if call.Confirm? && call.request < |db.requests| {
      assert WalletFits(db.wallets[db.requests[call.request].wallet]);
    }
  }

  lemma MoveFailsExactly(db: Db, call: Call, now: int, e: Error)
    requires Shape(db) && (call.Register? || call.Accept? || call.Start?)
    ensures Step(db, call, now) == Err(e) <==> RefusedFor(db, call, e)
  {
  }

  /** Main result: every call raises each error exactly when the roles, the rows and the call say so. */
  lemma FailsExactly(db: Db, call: Call, now: int, e: Error)
    requires Shape(db) && JobsOk(db) && WalletsFit(db)
    ensures Step(db, call, now) == Err(e) <==> RefusedFor(db, call, e)
  {
    match call
    case Create(_, _) => CreateFailsExactly(db, call, now, e);
    case Complete(_, _) => CompleteFailsExactly(db, call, now, e);
    case Cancel(_, _, _) => CancelFailsExactly(db, call, now, e);
    case Initiate(_, _, _, _) => DepositFailsExactly(db, call, now, e);
    case Confirm(_, _) => DepositFailsExactly(db, call, now, e);
    case _ => MoveFailsExactly(db, call, now, e);
  }
}
