/** The tables say what happened: every row is what the successful calls of the run made it, and nothing else. */
module History {
  import opened Wrappers
  import opened Tables
  import opened Marketplace
  import opened Lifecycle
  import opened Deposits
  import opened Runs

  /** What a run can do to the row of a user, a job or a deposit request. */
  datatype Fact =
    | Membership(role: Role)
    | Creation(employer: nat, price: int, at: int)
    | Acceptance(worker: nat, at: int)
    | Beginning(worker: nat, at: int)
    | Completion(employer: nat, at: int)
    | Cancellation(reason: string, at: int)
    | Asking(user: nat, amount: int, provider: string, externalId: string)
    | Crediting

  /** The call and the clock that make it true of row `id`; a new row gets the next position of its table. */
  ghost predicate Makes(db: Db, e: Event, id: nat, fact: Fact) {
    match fact
    case Membership(role) => e.call == Register(role) && id == |db.roles|
    case Creation(u, price, at) => e == Event(Create(u, price), at) && id == |db.jobs|
    case Acceptance(u, at) => e == Event(Accept(id, u), at)
    case Beginning(u, at) => e == Event(Start(id, u), at)
    case Completion(u, at) => e == Event(Complete(id, u), at)
    case Cancellation(reason, at) => e.call.Cancel? && e.call.job == id && e.call.reason == reason && e.now == at
    case Asking(u, amount, provider, x) => e.call == Initiate(u, amount, provider, Some(x)) && id == |db.requests|
    case Crediting => e.call.Confirm? && e.call.request == id
  }

  predicate JobSays(job: Job, fact: Fact) {
    match fact
    case Creation(u, price, at) => job.employer == u && job.price == price && job.createdAt == at
    case Acceptance(u, at) => job.worker == Some(u) && job.acceptedAt == Some(at)
    case Beginning(u, at) => job.worker == Some(u) && job.startedAt == Some(at)
    case Completion(u, at) => job.employer == u && job.completedAt == Some(at)
    case Cancellation(reason, at) => job.cancelReason == reason && job.cancelledAt == Some(at)
    case _ => false
  }

  predicate RequestSays(req: Request, fact: Fact) {
    match fact
    case Asking(u, amount, provider, x) =>
      req.wallet == u && req.amount == amount && req.provider == provider && req.externalId == x
    case Crediting => req.status == Confirmed
    case _ => false
  }

  /** Row `id` of the fact's table says so. */
  predicate Recorded(db: Db, id: nat, fact: Fact) {
    match fact
    case Membership(role) => id < |db.roles| && db.roles[id] == role
    case Asking(_, _, _, _) => id < |db.requests| && RequestSays(db.requests[id], fact)
    case Crediting => id < |db.requests| && RequestSays(db.requests[id], fact)
    case _ => id < |db.jobs| && JobSays(db.jobs[id], fact)
  }

  // ---- What one call records ----

  lemma TargetRecords(db: Db, e: Event, fact: Fact)
    requires Shape(db) && Step(db, e.call, e.now).Ok? && Target(e.call).Some?
    requires Target(e.call).value < |db.jobs| && StampsMatchStatus(db.jobs[Target(e.call).value])
    requires !fact.Membership? && !fact.Asking? && !fact.Crediting?
    ensures var j := Target(e.call).value;
            JobSays(Step(db, e.call, e.now).value.jobs[j], fact) <==> JobSays(db.jobs[j], fact) || Makes(db, e, j, fact)
  {
  }

  lemma StepRecordsJobs(db: Db, e: Event, j: nat, fact: Fact)
    requires Shape(db) && JobsOk(db) && Step(db, e.call, e.now).Ok?
    requires !fact.Membership? && !fact.Asking? && !fact.Crediting?
    ensures Recorded(After(db, e), j, fact) <==> Recorded(db, j, fact) || Makes(db, e, j, fact)
  {
    StepWritesOneJob(db, e.call, e.now);
    if Target(e.call) == Some(j) {
      TargetRecords(db, e, fact);
    }
  }

  lemma StepRecordsUsers(db: Db, e: Event, u: nat, role: Role)
    requires Shape(db) && Step(db, e.call, e.now).Ok?
    ensures Recorded(After(db, e), u, Membership(role)) <==>
            Recorded(db, u, Membership(role)) || Makes(db, e, u, Membership(role))
  {
  }

  lemma StepRecordsRequests(db: Db, e: Event, r: nat, fact: Fact)
    requires Shape(db) && Step(db, e.call, e.now).Ok? && (fact.Asking? || fact.Crediting?)
    ensures Recorded(After(db, e), r, fact) <==> Recorded(db, r, fact) || Makes(db, e, r, fact)
  {
  }

  /** A successful call adds to the tables exactly the facts it makes. */
  lemma StepRecords(db: Db, e: Event, id: nat, fact: Fact)
    requires Shape(db) && JobsOk(db) && Step(db, e.call, e.now).Ok?
    ensures Recorded(After(db, e), id, fact) <==> Recorded(db, id, fact) || Makes(db, e, id, fact)
  {
    if fact.Membership? {
      StepRecordsUsers(db, e, id, fact.role);
    } else if fact.Asking? || fact.Crediting? {
      StepRecordsRequests(db, e, id, fact);
    } else {
      StepRecordsJobs(db, e, id, fact);
    }
  }

  // ---- What a run records ----

  ghost predicate HappenedAt(pct: nat, trace: seq<Event>, n: nat, id: nat, fact: Fact)
    requires n < |trace|
  {
    Succeeds(pct, trace, n) && Makes(Run(pct, trace[..n]), trace[n], id, fact)
  }

  /** The run has a successful call that made it true. */
  ghost predicate Happened(pct: nat, trace: seq<Event>, id: nat, fact: Fact) {
    exists n | 0 <= n < |trace| :: HappenedAt(pct, trace, n, id, fact)
  }

  lemma SamePrefix(pct: nat, trace: seq<Event>, n: nat, id: nat, fact: Fact)
    requires n < |trace| - 1
    ensures HappenedAt(pct, trace[..|trace| - 1], n, id, fact) <==> HappenedAt(pct, trace, n, id, fact)
  {
    assert trace[..|trace| - 1][..n] == trace[..n];
  }

  lemma HappenedStays(pct: nat, trace: seq<Event>, id: nat, fact: Fact)
    requires trace != [] && Happened(pct, trace[..|trace| - 1], id, fact)
    ensures Happened(pct, trace, id, fact)
  {
    var before := trace[..|trace| - 1];
    var n :| 0 <= n < |before| && HappenedAt(pct, before, n, id, fact);
    SamePrefix(pct, trace, n, id, fact);
  }

  lemma HappenedEarlier(pct: nat, trace: seq<Event>, n: nat, id: nat, fact: Fact)
    requires n < |trace| - 1 && HappenedAt(pct, trace, n, id, fact)
    ensures Happened(pct, trace[..|trace| - 1], id, fact)
  {
    SamePrefix(pct, trace, n, id, fact);
  }

  /** The position at which it happened. */
  lemma WhenHappened(pct: nat, trace: seq<Event>, id: nat, fact: Fact) returns (n: nat)
    requires Happened(pct, trace, id, fact)
    ensures n < |trace| && HappenedAt(pct, trace, n, id, fact)
  {
    n :| 0 <= n < |trace| && HappenedAt(pct, trace, n, id, fact);
  }

  lemma HappenedLast(pct: nat, trace: seq<Event>, id: nat, fact: Fact)
    requires trace != []
    ensures Happened(pct, trace, id, fact) <==>
            Happened(pct, trace[..|trace| - 1], id, fact) || HappenedAt(pct, trace, |trace| - 1, id, fact)
  {
    if Happened(pct, trace[..|trace| - 1], id, fact) {
      HappenedStays(pct, trace, id, fact);
    } else if Happened(pct, trace, id, fact) {
      var n := WhenHappened(pct, trace, id, fact);
      if n < |trace| - 1 {
        HappenedEarlier(pct, trace, n, id, fact);
      }
    }
  }

  /** Main result: at every point of every run, a row records a fact exactly when a successful call of the run
      made it. */
  lemma {:induction false} RecordsAreHistory(pct: nat, trace: seq<Event>, id: nat, fact: Fact)
    ensures Recorded(Run(pct, trace), id, fact) <==> Happened(pct, trace, id, fact)
  {
    if trace != [] {
      var n := |trace| - 1;
      RecordsAreHistory(pct, trace[..n], id, fact);
      HappenedLast(pct, trace, id, fact);
      RunLast(pct, trace);
      if Succeeds(pct, trace, n) {
        RunJobsOk(pct, trace[..n]);
        StepRecords(Run(pct, trace[..n]), trace[n], id, fact);
      }
    }
  }

  /** So no fact is ever lost or overwritten. */
  lemma {:induction false} RecordsStay(pct: nat, trace: seq<Event>, n: nat, id: nat, fact: Fact)
    requires n <= |trace| && Recorded(Run(pct, trace[..n]), id, fact)
    ensures Recorded(Run(pct, trace), id, fact)
    decreases |trace|
  {
    if n == |trace| {
      assert trace[..n] == trace;
    } else {
      var before := trace[..|trace| - 1];
      assert before[..n] == trace[..n];
      RecordsStay(pct, before, n, id, fact);
      RecordsAreHistory(pct, before, id, fact);
      HappenedStays(pct, trace, id, fact);
      RecordsAreHistory(pct, trace, id, fact);
    }
  }

  // ---- The deposit rows ----

  /** A successful confirmation: the request, and the provider's identifier it brought. */
  datatype Confirmation = Confirmation(request: nat, brought: string)

  /** The successful confirmations of a run, in order. */
  ghost function Confirmations(pct: nat, trace: seq<Event>): seq<Confirmation> {
    if trace == [] then []
    else
      var n := |trace| - 1;
      Confirmations(pct, trace[..n])
      + if Succeeds(pct, trace, n) && trace[n].call.Confirm?
        then [Confirmation(trace[n].call.request, trace[n].call.externalId)] else []
  }

  /** The row credits the request, under the identifier brought with the confirmation or else the request's own. */
  predicate CreditsAs(tx: Tx, req: Request, brought: string) {
    && tx.kind == Deposit && tx.direction == Credit && tx.job == None
    && tx.wallet == req.wallet && tx.amount == req.amount && tx.provider == req.provider
    && (brought != "" ==> tx.externalId == brought)
    && (brought == "" ==> tx.externalId == req.externalId)
  }

  /** A successful confirmation appends one row, which credits its request. */
  lemma ConfirmWritesRow(db: Db, r: nat, brought: string, now: int)
    requires Shape(db) && Step(db, Confirm(r, brought), now).Ok?
    ensures var db', n := Step(db, Confirm(r, brought), now).value, |db.ledger|;
            && r < |db.requests| && |db'.ledger| == n + 1 && db'.ledger[..n] == db.ledger
            && CreditsAs(db'.ledger[n], db.requests[r], brought)
            && DepositRows(db'.ledger) == DepositRows(db.ledger) + [db'.ledger[n]]
  {
    var db', n := Step(db, Confirm(r, brought), now).value, |db.ledger|;
    assert db'.ledger == db.ledger + [db'.ledger[n]];
    DepositRowsSnoc(db.ledger, db'.ledger[n]);
  }

  /** A request keeps its wallet, amount, provider and identifier. */
  lemma StepKeepsRequests(db: Db, e: Event)
    requires Shape(db) && Step(db, e.call, e.now).Ok?
    ensures |db.requests| <= |After(db, e).requests|
    ensures forall r | 0 <= r < |db.requests| ::
              After(db, e).requests[r].(status := db.requests[r].status) == db.requests[r]
  {
  }

  /** Each deposit row credits the request of the confirmation at the same position. */
  ghost predicate RowsCredit(rows: seq<Tx>, made: seq<Confirmation>, requests: seq<Request>) {
    && |rows| == |made|
    && (forall i | 0 <= i < |made| ::
          made[i].request < |requests| && CreditsAs(rows[i], requests[made[i].request], made[i].brought))
  }

  lemma StepRowsCredit(db: Db, e: Event, made: seq<Confirmation>)
    requires Shape(db) && Step(db, e.call, e.now).Ok?
    requires RowsCredit(DepositRows(db.ledger), made, db.requests)
    ensures RowsCredit(DepositRows(After(db, e).ledger),
                       made + if e.call.Confirm? then [Confirmation(e.call.request, e.call.externalId)] else [],
                       After(db, e).requests)
  {
    StepKeepsRequests(db, e);
    if e.call.Confirm? {
      ConfirmWritesRow(db, e.call.request, e.call.externalId, e.now);
    } else {
      JobCallsWriteNoDeposit(db, e.call, e.now);
      assert made + [] == made;
    }
  }

  /** Main result: the deposit rows of a run are its successful confirmations in order, each with the wallet, amount
      and provider of its request, and with the identifier it brought or else the request's own. */
  lemma {:induction false} DepositRowsAreHistory(pct: nat, trace: seq<Event>)
    ensures RowsCredit(DepositRows(Run(pct, trace).ledger), Confirmations(pct, trace), Run(pct, trace).requests)
  {
    if trace != [] {
      var n := |trace| - 1;
      DepositRowsAreHistory(pct, trace[..n]);
      RunLast(pct, trace);
      if Succeeds(pct, trace, n) {
        StepRowsCredit(Run(pct, trace[..n]), trace[n], Confirmations(pct, trace[..n]));
      } else {
        assert Confirmations(pct, trace[..n]) + [] == Confirmations(pct, trace[..n]);
      }
    }
  }
}
