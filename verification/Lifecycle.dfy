/** The states a job passes through, who may be on it, and when it was stamped. */
module Lifecycle {
  import opened Wrappers
  import opened Tables
  import opened Marketplace

  /** Which stamps a job in each status carries; a reason comes with a cancellation. */
  predicate StampsMatchStatus(job: Job) {
    && (job.acceptedAt.Some? <==> job.worker.Some?)
    && (job.startedAt.Some? ==> job.acceptedAt.Some?)
    && (job.completedAt.Some? <==> job.status == Completed)
    && (job.cancelledAt.Some? <==> job.status == Cancelled)
    && (job.cancelReason != "" ==> job.status == Cancelled)
    && match job.status
       case Created => job.acceptedAt.None?
       case Accepted => job.acceptedAt.Some? && job.startedAt.None?
       case InProgress => job.startedAt.Some?
       case Completed => job.startedAt.Some?
       case Cancelled => true
  }

  /** The employer has the employer role and the worker, if any, the worker role. */
  predicate PartiesMatchRoles(roles: seq<Role>, job: Job) {
    && job.employer < |roles| && roles[job.employer] == Employer
    && (job.worker.Some? ==> job.worker.value < |roles| && roles[job.worker.value] == Worker)
  }

  ghost predicate JobsOk(db: Db) {
    forall j | 0 <= j < |db.jobs| ::
      StampsMatchStatus(db.jobs[j]) && PartiesMatchRoles(db.roles, db.jobs[j])
  }

  lemma WorkerIsNotEmployer(db: Db, j: nat)
    requires JobsOk(db) && j < |db.jobs| && db.jobs[j].worker.Some?
    ensures db.jobs[j].worker.value != db.jobs[j].employer
  {
    assert PartiesMatchRoles(db.roles, db.jobs[j]);
  }

  /** The edges of the life cycle. */
  predicate Edge(a: JobStatus, b: JobStatus) {
    match a
    case Created => b == Accepted || b == Cancelled
    case Accepted => b == InProgress || b == Cancelled
    case InProgress => b == Completed || b == Cancelled
    case Completed => false
    case Cancelled => false
  }

  predicate Kept<T(==)>(a: Option<T>, b: Option<T>) {
    a.Some? ==> b == a
  }

  /** What a job row can become: itself, or the far end of an edge with its parties, price and stamps kept. Only
      the edge that a stamp belongs to sets it. */
  predicate Evolves(a: Job, b: Job) {
    || b == a
    || (&& Edge(a.status, b.status)
        && b.employer == a.employer && b.price == a.price && b.createdAt == a.createdAt
        && Kept(a.worker, b.worker) && (b.worker != a.worker ==> b.status == Accepted)
        && Kept(a.acceptedAt, b.acceptedAt) && (b.acceptedAt != a.acceptedAt <==> b.status == Accepted)
        && Kept(a.startedAt, b.startedAt) && (b.startedAt != a.startedAt <==> b.status == InProgress)
        && Kept(a.completedAt, b.completedAt) && (b.completedAt != a.completedAt <==> b.status == Completed)
        && Kept(a.cancelledAt, b.cancelledAt) && (b.cancelledAt != a.cancelledAt <==> b.status == Cancelled)
        && (b.cancelReason != a.cancelReason ==> b.status == Cancelled))
  }

  /** The job a call works on, if it is a call on an existing job. */
  function Target(call: Call): Option<nat> {
    match call
    case Accept(j, _) => Some(j)
    case Start(j, _) => Some(j)
    case Complete(j, _) => Some(j)
    case Cancel(j, _, _) => Some(j)
    case _ => None
  }

  /** What a successful call does to the job table. */
  lemma StepWritesOneJob(db: Db, call: Call, now: int)
    requires Shape(db) && Step(db, call, now).Ok?
    ensures var jobs' := Step(db, call, now).value.jobs;
            match Target(call)
            case Some(j) => j < |db.jobs| && jobs' == db.jobs[j := jobs'[j]]
            case None => if call.Create? then jobs' == db.jobs + [NewJob(call.user, call.price, now)] else jobs' == db.jobs
  {
  }

  lemma TargetEvolves(db: Db, call: Call, now: int)
    requires Shape(db) && Step(db, call, now).Ok? && Target(call).Some?
    requires Target(call).value < |db.jobs| && StampsMatchStatus(db.jobs[Target(call).value])
    ensures var j := Target(call).value;
            var job' := Step(db, call, now).value.jobs[j];
            Evolves(db.jobs[j], job') && job'.status != db.jobs[j].status && StampsMatchStatus(job')
  {
  }

  /** A successful call only evolves the job it names, strictly, and leaves every other job as it was. */
  lemma StepEvolvesJobs(db: Db, call: Call, now: int)
    requires Shape(db) && Step(db, call, now).Ok?
    requires JobsOk(db)
    ensures var db' := Step(db, call, now).value;
            && |db.jobs| <= |db'.jobs|
            && (forall j | 0 <= j < |db.jobs| :: Evolves(db.jobs[j], db'.jobs[j]))
            && (forall j | 0 <= j < |db.jobs| :: Target(call) == Some(j) <==> db'.jobs[j].status != db.jobs[j].status)
            && (forall j | 0 <= j < |db.jobs| :: Target(call) != Some(j) ==> db'.jobs[j] == db.jobs[j])
            && (|db'.jobs| > |db.jobs| <==> call.Create?)
  {
    StepWritesOneJob(db, call, now);
    if Target(call).Some? {
      TargetEvolves(db, call, now);
    }
  }

  lemma StepKeepsShape(db: Db, call: Call, now: int)
    requires Shape(db) && Step(db, call, now).Ok?
    ensures Shape(Step(db, call, now).value)
    ensures db.roles <= Step(db, call, now).value.roles && Step(db, call, now).value.pct == db.pct
  {
    StepWritesOneJob(db, call, now);
  }

  lemma TargetKeepsParties(db: Db, call: Call, now: int)
    requires Shape(db) && Step(db, call, now).Ok? && Target(call).Some?
    requires Target(call).value < |db.jobs| && PartiesMatchRoles(db.roles, db.jobs[Target(call).value])
    ensures PartiesMatchRoles(db.roles, Step(db, call, now).value.jobs[Target(call).value])
  {
  }

  lemma StepKeepsJobsOk(db: Db, call: Call, now: int)
    requires Shape(db) && Step(db, call, now).Ok?
    requires JobsOk(db)
    ensures JobsOk(Step(db, call, now).value)
  {
    StepKeepsShape(db, call, now);
    StepWritesOneJob(db, call, now);
    if Target(call).Some? {
      TargetEvolves(db, call, now);
      TargetKeepsParties(db, call, now);
    }
  }

  // ---- Order of the stamps ----

  predicate NotAfter(a: Option<int>, b: Option<int>) {
    a.Some? && b.Some? ==> a.value <= b.value
  }

  /** Creation, acceptance, start and the end of a job are stamped in this order. */
  predicate StampsOrdered(job: Job) {
    && NotAfter(Some(job.createdAt), job.acceptedAt)
    && NotAfter(job.acceptedAt, job.startedAt)
    && NotAfter(job.startedAt, job.completedAt)
    && NotAfter(Some(job.createdAt), job.cancelledAt)
    && NotAfter(job.acceptedAt, job.cancelledAt)
    && NotAfter(job.startedAt, job.cancelledAt)
  }

  /** Every stamp of the job is at most `now`. */
  predicate StampedBy(job: Job, now: int) {
    && job.createdAt <= now
    && NotAfter(job.acceptedAt, Some(now)) && NotAfter(job.startedAt, Some(now))
    && NotAfter(job.completedAt, Some(now)) && NotAfter(job.cancelledAt, Some(now))
  }

  /** The clock read by a call on a job is not behind that job's stamps. */
  predicate Timely(db: Db, call: Call, now: int) {
    Target(call).Some? && Target(call).value < |db.jobs| ==> StampedBy(db.jobs[Target(call).value], now)
  }

  ghost predicate AllOrdered(db: Db) {
    forall j | 0 <= j < |db.jobs| :: StampsOrdered(db.jobs[j])
  }

  lemma TargetKeepsOrder(db: Db, call: Call, now: int)
    requires Shape(db) && Step(db, call, now).Ok? && Target(call).Some?
    requires Target(call).value < |db.jobs| && Timely(db, call, now)
    requires StampsMatchStatus(db.jobs[Target(call).value]) && StampsOrdered(db.jobs[Target(call).value])
    ensures StampsOrdered(Step(db, call, now).value.jobs[Target(call).value])
  {
  }

  lemma StepKeepsOrder(db: Db, call: Call, now: int)
    requires Shape(db) && Step(db, call, now).Ok?
    requires JobsOk(db) && AllOrdered(db) && Timely(db, call, now)
    ensures AllOrdered(Step(db, call, now).value)
  {
    StepWritesOneJob(db, call, now);
    if Target(call).Some? {
      TargetKeepsOrder(db, call, now);
    }
  }

  // ---- Progress ----

  /** How many life-cycle steps the job has behind it; a terminal job counts all four. */
  function Progress(job: Job): int {
    match job.status
    case Created => 1
    case Accepted => 2
    case InProgress => 3
    case Completed => 4
    case Cancelled => 4
  }

  function ProgressOf(): Job -> int {
    (job: Job) => Progress(job)
  }

  lemma EdgesProgress(a: Job, b: Job)
    requires Evolves(a, b) && a.status != b.status
    ensures Progress(a) < Progress(b) <= 4
  {
  }
}
