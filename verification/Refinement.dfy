/** Every schedule of transactions is explained by the atomic calls in commit order. */
module Refinement {
  import opened Wrappers
  import opened Tables
  import opened Marketplace
  import opened Lifecycle
  import opened Interleaving
  import ChatRooms

  // ---- What a transaction in flight knows ----

  ghost predicate JobCopy(db: Db, j: nat, job: Job) {
    j < |db.jobs| && db.jobs[j] == job
  }

  ghost predicate WalletCopy(db: Db, u: nat, w: Wallet) {
    u < |db.wallets| && db.wallets[u] == w
  }

  ghost predicate RequestCopy(db: Db, r: nat, request: Request) {
    r < |db.requests| && db.requests[r] == request
  }

  /** The filter under which the job row was fetched. */
  ghost predicate Fetched(db: Db, call: Call, job: Job) {
    match call
    case Accept(_, u) => u < |db.roles| && db.roles[u] == Worker
    case Start(_, u) => job.worker == Some(u)
    case Complete(_, u) => u < |db.roles| && db.roles[u] == Employer && job.employer == u
    case Cancel(_, _, _) => true
    case _ => false
  }

  /** The job passed the checks of its call. */
  ghost predicate Checked(call: Call, job: Job) {
    match call
    case Accept(_, u) => job.status == Created && job.employer != u
    case Start(_, _) => job.status == Accepted
    case Complete(_, _) => job.status == InProgress && job.worker.Some?
    case Cancel(_, u, _) => (u == job.employer || job.worker == Some(u)) && IsLive(job.status)
    case _ => false
  }

  ghost predicate JobHeld(db: Db, call: Call, job: Job) {
    Target(call).Some? && JobCopy(db, Target(call).value, job) && Fetched(db, call, job)
  }

  ghost predicate JobPassed(db: Db, call: Call, now: int, job: Job) {
    JobHeld(db, call, job) && Checked(call, job) && StampedBy(job, now) && !call.Start?
  }

  ghost predicate PayerHeld(db: Db, call: Call, now: int, job: Job, payer: Wallet) {
    JobPassed(db, call, now, job) && WalletCopy(db, job.employer, payer) && !call.Accept?
  }

  ghost predicate RequestHeld(db: Db, call: Call, request: Request) {
    call.Confirm? && RequestCopy(db, call.request, request) && request.status == Pending
  }

  /** The last checks before the commit. */
  ghost predicate MayCommit(pct: nat, call: Call, now: int, last: Stage) {
    match last
    case Opened =>
      || call.Register?
      || (&& call.Initiate? && DepositInBounds(call.amount) && |call.provider| <= REQUEST_PROVIDER_LENGTH
          && call.gateway.Some? && |call.gateway.value| <= EXTERNAL_ID_LENGTH)
    case GotPurse(purse) =>
      call.Create? && purse.balance >= call.price && FitsInteger(call.price) && WalletFits(Debited(purse, call.price))
    case GotJob(job) => call.Start? && Checked(call, job) && StampedBy(job, now)
    case RoomChecked(_, _) => true
    case GotPayer(job, payer) =>
      call.Cancel? && WalletFits(Refunded(payer, job.price)) && FitsBig(Min(job.price, payer.held))
    case GotBoth(job, payer, payee) =>
      var fee := FeeOf(job, pct);
      && WalletFits(payer.(held := payer.held - job.price)) && FitsBig(fee) && FitsBig(job.price - fee)
      && WalletFits(Paid(payee, job.price - fee))
    case GotCredited(request, credited) =>
      && DepositInBounds(request.amount) && WalletFits(credited.(balance := credited.balance + request.amount))
      && call.Confirm? && TxFits(CreditTx(request, credited, call.externalId))
    case _ => false
  }

  /** Every copy a transaction holds equals the committed row. */
  ghost predicate CopiesCurrent(db: Db, call: Call, now: int, stage: Stage) {
    match stage
    case Opened => true
    case GotPurse(purse) =>
      call.Create? && CallerExists(db, call) && db.roles[call.user] == Employer && WalletCopy(db, call.user, purse)
    case GotJob(job) => JobHeld(db, call, job)
    case JobSaved(job) => JobPassed(db, call, now, job)
    case RoomChecked(job, found) =>
      call.Accept? && JobPassed(db, call, now, job) && found == HasRoom(db.rooms, call.job)
    case GotPayer(job, payer) => PayerHeld(db, call, now, job, payer)
    case GotBoth(job, payer, payee) =>
      && call.Complete? && PayerHeld(db, call, now, job, payer)
      && job.worker.Some? && WalletCopy(db, job.worker.value, payee)
    case GotRequest(request) => RequestHeld(db, call, request)
    case GotCredited(request, credited) =>
      RequestHeld(db, call, request) && WalletCopy(db, request.wallet, credited)
    case Ready(last) => CopiesCurrent(db, call, now, last) && MayCommit(db.pct, call, now, last)
  }

  ghost function LocksOf(call: Call, stage: Stage): set<Row> {
    match stage
    case Opened => {}
    case GotPurse(_) => if call.Create? then {WalletRow(call.user)} else {}
    case GotJob(_) => if Target(call).Some? then {JobRow(Target(call).value)} else {}
    case JobSaved(_) => if Target(call).Some? then {JobRow(Target(call).value)} else {}
    case RoomChecked(_, _) => if Target(call).Some? then {JobRow(Target(call).value)} else {}
    case GotPayer(job, _) =>
      if Target(call).Some? then {JobRow(Target(call).value), WalletRow(job.employer)} else {}
    case GotBoth(job, _, _) =>
      if Target(call).Some? && job.worker.Some?
      then {JobRow(Target(call).value), WalletRow(job.employer), WalletRow(job.worker.value)} else {}
    case GotRequest(_) => if call.Confirm? then {RequestRow(call.request)} else {}
    case GotCredited(request, _) =>
      if call.Confirm? then {RequestRow(call.request), WalletRow(request.wallet)} else {}
    case Ready(last) => LocksOf(call, last)
  }

  ghost function JobWrite(call: Call, job: Job, now: int): seq<Write> {
    match call
    case Accept(j, u) => [SaveJob(j, AcceptedCopy(job, u, now))]
    case Start(j, _) => [SaveJob(j, StartedCopy(job, now))]
    case Complete(j, _) => [SaveJob(j, CompletedCopy(job, now))]
    case Cancel(j, _, reason) => [SaveJob(j, CancelledCopy(job, reason, now))]
    case _ => []
  }

  /** The buffer is a function of the call and the copies. */
  ghost function WritesOf(pct: nat, call: Call, now: int, stage: Stage): seq<Write> {
    match stage
    case JobSaved(job) => JobWrite(call, job, now)
    case GotPayer(job, _) => JobWrite(call, job, now)
    case GotBoth(job, _, _) => JobWrite(call, job, now)
    case Ready(Opened) =>
      (match call
       case Register(role) => [InsertUser(role)]
       case Initiate(u, amount, provider, gateway) =>
         if gateway.Some? then [InsertRequest(Request(u, amount, provider, gateway.value, Pending))] else []
       case _ => [])
    case Ready(GotPurse(purse)) => if call.Create? then EscrowWrites(call.user, call.price, purse, now) else []
    case Ready(GotJob(job)) => JobWrite(call, job, now)
    case Ready(RoomChecked(job, found)) =>
      if call.Accept? then
        JobWrite(call, job, now)
        + if found then [] else [InsertRoomAndMessage(Room(call.job, job.employer, call.user))]
      else []
    case Ready(GotPayer(job, payer)) =>
      if call.Cancel? then JobWrite(call, job, now) + RefundWrites(call.job, job, payer) else []
    case Ready(GotBoth(job, payer, payee)) =>
      if call.Complete? then JobWrite(call, job, now) + ReleaseWrites(call.job, job, payer, payee, pct) else []
    case Ready(GotCredited(request, credited)) =>
      if call.Confirm? then CreditWrites(call.request, request, credited, call.externalId) else []
    case _ => []
  }

  ghost predicate TxnOk(db: Db, t: Txn) {
    && (t.stage.Opened? || CallerExists(db, t.call)) && !t.stage.RoomChecked?
    && CopiesCurrent(db, t.call, t.now, t.stage)
    && t.locks == LocksOf(t.call, t.stage)
    && t.writes == WritesOf(db.pct, t.call, t.now, t.stage)
  }

  // ---- Other commits cannot disturb a locked row ----

  /** Nothing under these locks differs between the two databases, and tables only grew. */
  ghost predicate Undisturbed(db: Db, db': Db, locks: set<Row>) {
    && db'.pct == db.pct && db.roles <= db'.roles
    && (forall j: nat | j < |db.jobs| && JobRow(j) in locks ::
          j < |db'.jobs| && db'.jobs[j] == db.jobs[j] && HasRoom(db'.rooms, j) == HasRoom(db.rooms, j))
    && (forall u: nat | u < |db.wallets| && WalletRow(u) in locks ::
          u < |db'.wallets| && db'.wallets[u] == db.wallets[u])
    && (forall r: nat | r < |db.requests| && RequestRow(r) in locks ::
          r < |db'.requests| && db'.requests[r] == db.requests[r])
  }

  lemma {:induction false} CopiesStayCurrent(db: Db, db': Db, call: Call, now: int, stage: Stage, locks: set<Row>)
    requires Undisturbed(db, db', locks) && LocksOf(call, stage) <= locks
    requires CopiesCurrent(db, call, now, stage)
    ensures CopiesCurrent(db', call, now, stage)
    decreases stage
  {
    if stage.Ready? {
      CopiesStayCurrent(db, db', call, now, stage.last, locks);
    }
  }

  lemma TxnStaysOk(db: Db, db': Db, t: Txn)
    requires TxnOk(db, t) && Undisturbed(db, db', t.locks)
    ensures TxnOk(db', t)
  {
    CopiesStayCurrent(db, db', t.call, t.now, t.stage, t.locks);
  }

  // ---- A move keeps the copies current, or ends as the atomic call ends ----

  /** The clock is not behind any stamp. */
  ghost predicate ClockAhead(db: Db, clock: int) {
    forall j | 0 <= j < |db.jobs| :: StampedBy(db.jobs[j], clock)
  }

  lemma OpenedGoes(db: Db, clock: int, blocked: set<Row>, t: Txn, t': Txn)
    requires Shape(db) && TxnOk(db, t) && t.stage.Opened? && Next(db, clock, blocked, t) == Go(t')
    ensures TxnOk(db, t') && t'.call == t.call && t'.locks !! blocked && t'.now == t.now
  {
  }

  lemma JobGoes(db: Db, clock: int, blocked: set<Row>, t: Txn, t': Txn)
    requires Shape(db) && ClockAhead(db, clock)
    requires TxnOk(db, t) && t.stage.GotJob? && Next(db, clock, blocked, t) == Go(t')
    ensures TxnOk(db, t') && t'.call == t.call && t'.locks == t.locks && t'.now == clock
  {
  }

  lemma SavedGoes(db: Db, clock: int, blocked: set<Row>, t: Txn, t': Txn)
    requires Shape(db)
    requires TxnOk(db, t) && t.stage.JobSaved? && Next(db, clock, blocked, t) == Go(t')
    ensures TxnOk(db, t') && t'.call == t.call && t.locks <= t'.locks && (t'.locks - t.locks) !! blocked && t'.now == t.now
  {
  }

  lemma PayerGoes(db: Db, clock: int, blocked: set<Row>, t: Txn, t': Txn)
    requires Shape(db)
    requires TxnOk(db, t) && t.stage.GotPayer? && Next(db, clock, blocked, t) == Go(t')
    ensures TxnOk(db, t') && t'.call == t.call && t.locks <= t'.locks && (t'.locks - t.locks) !! blocked && t'.now == t.now
  {
  }

  lemma BothGoes(db: Db, clock: int, blocked: set<Row>, t: Txn, t': Txn)
    requires Shape(db)
    requires TxnOk(db, t) && t.stage.GotBoth? && Next(db, clock, blocked, t) == Go(t')
    ensures TxnOk(db, t') && t'.call == t.call && t'.locks == t.locks && t'.now == t.now
  {
  }

  lemma RequestGoes(db: Db, clock: int, blocked: set<Row>, t: Txn, t': Txn)
    requires Shape(db)
    requires TxnOk(db, t) && (t.stage.GotRequest? || t.stage.GotCredited?) && Next(db, clock, blocked, t) == Go(t')
    ensures TxnOk(db, t') && t'.call == t.call && t.locks <= t'.locks && (t'.locks - t.locks) !! blocked && t'.now == t.now
  {
  }

  lemma PurseGoes(db: Db, clock: int, blocked: set<Row>, t: Txn, t': Txn)
    requires Shape(db)
    requires TxnOk(db, t) && t.stage.GotPurse? && Next(db, clock, blocked, t) == Go(t')
    ensures TxnOk(db, t') && t'.call == t.call && t'.locks == t.locks && t'.now == clock
  {
  }

  /** A move takes only free rows and leaves every copy current. */
  lemma MoveGoes(db: Db, clock: int, blocked: set<Row>, t: Txn, t': Txn)
    requires Shape(db) && ClockAhead(db, clock) && TxnOk(db, t) && t.now <= clock
    requires Next(db, clock, blocked, t) == Go(t')
    ensures TxnOk(db, t') && t'.call == t.call && t'.now <= clock
    ensures t.locks <= t'.locks && (t'.locks - t.locks) !! blocked
  {
    match t.stage
    case Opened => OpenedGoes(db, clock, blocked, t, t');
    case GotPurse(_) => PurseGoes(db, clock, blocked, t, t');
    case GotJob(_) => JobGoes(db, clock, blocked, t, t');
    case JobSaved(_) => SavedGoes(db, clock, blocked, t, t');
    case GotPayer(_, _) => PayerGoes(db, clock, blocked, t, t');
    case GotBoth(_, _, _) => BothGoes(db, clock, blocked, t, t');
    case GotRequest(_) => RequestGoes(db, clock, blocked, t, t');
    case GotCredited(_, _) => RequestGoes(db, clock, blocked, t, t');
    case _ =>
  }

  /** A transaction that fails does so with the error the atomic call gives on the committed database. */
  lemma FailureIsAtomic(db: Db, clock: int, blocked: set<Row>, t: Txn)
    requires Shape(db) && JobsOk(db) && TxnOk(db, t) && Next(db, clock, blocked, t).Fail?
    ensures Step(db, t.call, t.now) == Err(Next(db, clock, blocked, t).error)
  {
    if t.stage.GotPayer? || t.stage.GotBoth? {
      if t.call.Complete? && t.stage.job.worker.Some? {
        WorkerIsNotEmployer(db, t.call.job);
      }
    }
  }

  lemma ApplySnoc(db: Db, writes: seq<Write>, w: Write)
    ensures Apply(db, writes + [w]) == Put(Apply(db, writes), w)
  {
    assert (writes + [w])[..|writes|] == writes;
  }

  lemma ApplyOne(db: Db, a: Write)
    ensures Apply(db, [a]) == Put(db, a)
  {
    ApplySnoc(db, [], a);
    assert [] + [a] == [a];
  }

  lemma ApplyThree(db: Db, a: Write, b: Write, c: Write)
    ensures Apply(db, [a, b, c]) == Put(Put(Put(db, a), b), c)
  {
    ApplyOne(db, a);
    ApplySnoc(db, [a], b);
    ApplySnoc(db, [a] + [b], c);
    assert [a, b, c] == [a] + [b] + [c];
  }

  lemma ApplyFive(db: Db, a: Write, b: Write, c: Write, d: Write, e: Write)
    ensures Apply(db, [a] + [b, c, d, e]) == Put(Put(Put(Put(Put(db, a), b), c), d), e)
  {
    ApplyThree(db, a, b, c);
    ApplySnoc(db, [a, b, c], d);
    ApplySnoc(db, [a, b, c] + [d], e);
    assert [a] + [b, c, d, e] == [a, b, c] + [d] + [e];
  }

  /** Each call commits from one stage only. */
  lemma LastStage(db: Db, t: Txn)
    requires TxnOk(db, t) && t.stage.Ready?
    ensures CopiesCurrent(db, t.call, t.now, t.stage.last)
    ensures match t.call
            case Register(_) => t.stage.last.Opened?
            case Initiate(_, _, _, _) => t.stage.last.Opened?
            case Create(_, _) => t.stage.last.GotPurse?
            case Accept(_, _) => t.stage.last.RoomChecked?
            case Start(_, _) => t.stage.last.GotJob?
            case Complete(_, _) => t.stage.last.GotBoth?
            case Cancel(_, _, _) => t.stage.last.GotPayer?
            case Confirm(_, _) => t.stage.last.GotCredited?
  {
    assert CopiesCurrent(db, t.call, t.now, t.stage.last);
  }

  lemma CreateCommits(db: Db, t: Txn)
    requires Shape(db) && TxnOk(db, t) && t.stage.Ready? && t.call.Create?
    ensures Step(db, t.call, t.now) == Ok(Apply(db, t.writes))
  {
    LastStage(db, t);
    var w := t.writes;
    ApplyThree(db, w[0], w[1], w[2]);
  }

  lemma FirstAcceptCommits(db: Db, t: Txn)
    requires Shape(db) && TxnOk(db, t) && t.stage.Ready? && t.call.Accept?
    requires t.stage.last.RoomChecked? && !t.stage.last.found && CopiesCurrent(db, t.call, t.now, t.stage.last)
    ensures Step(db, t.call, t.now) == Ok(Apply(db, t.writes))
  {
    var first := t.writes[0];
    ApplyOne(db, first);
    ApplySnoc(db, [first], t.writes[1]);
    assert t.writes == [first] + [t.writes[1]];
  }

  lemma AcceptAgainCommits(db: Db, t: Txn)
    requires Shape(db) && TxnOk(db, t) && t.stage.Ready? && t.call.Accept?
    requires t.stage.last.RoomChecked? && t.stage.last.found && CopiesCurrent(db, t.call, t.now, t.stage.last)
    ensures Step(db, t.call, t.now) == Ok(Apply(db, t.writes))
  {
    var first := t.writes[0];
    ApplyOne(db, first);
    assert t.writes == [first];
  }

  lemma AcceptCommits(db: Db, t: Txn)
    requires Shape(db) && TxnOk(db, t) && t.stage.Ready? && t.call.Accept?
    ensures Step(db, t.call, t.now) == Ok(Apply(db, t.writes))
  {
    LastStage(db, t);
    if t.stage.last.found {
      AcceptAgainCommits(db, t);
    } else {
      FirstAcceptCommits(db, t);
    }
  }

  lemma StartCommits(db: Db, t: Txn)
    requires Shape(db) && TxnOk(db, t) && t.stage.Ready? && t.call.Start?
    ensures Step(db, t.call, t.now) == Ok(Apply(db, t.writes))
  {
    LastStage(db, t);
    ApplyOne(db, t.writes[0]);
  }

  lemma CancelCommits(db: Db, t: Txn)
    requires Shape(db) && TxnOk(db, t) && t.stage.Ready? && t.call.Cancel?
    ensures Step(db, t.call, t.now) == Ok(Apply(db, t.writes))
  {
    LastStage(db, t);
    var w := t.writes;
    assert w == [w[0], w[1], w[2]];
    ApplyThree(db, w[0], w[1], w[2]);
  }

  lemma ReleasePublishes(db: Db, j: nat, payer: Wallet, payee: Wallet)
    requires Shape(db) && j < |db.jobs| && db.jobs[j].worker.Some?
    requires db.jobs[j].worker.value != db.jobs[j].employer
    requires WalletCopy(db, db.jobs[j].employer, payer) && WalletCopy(db, db.jobs[j].worker.value, payee)
    requires MayCommit(db.pct, Complete(j, 0), 0, GotBoth(db.jobs[j], payer, payee))
    ensures var w := ReleaseWrites(j, db.jobs[j], payer, payee, db.pct);
            Release(db, j) == Ok(Put(Put(Put(Put(db, w[0]), w[1]), w[2]), w[3]))
  {
    var job, w := db.jobs[j], ReleaseWrites(j, db.jobs[j], payer, payee, db.pct);
    var held := Put(db, w[0]);
    assert held.wallets == db.wallets[job.employer := payer.(held := payer.held - job.price)];
    var paid := Put(Put(held, w[1]), w[2]);
    assert paid.wallets == held.wallets[job.worker.value := Paid(payee, job.price - FeeOf(job, db.pct))];
    var done := Put(paid, w[3]);
    assert done.ledger == db.ledger + [w[1].tx, w[3].tx];
  }

  lemma CompleteCommits(db: Db, t: Txn)
    requires Shape(db) && JobsOk(db) && TxnOk(db, t) && t.stage.Ready? && t.call.Complete?
    ensures Step(db, t.call, t.now) == Ok(Apply(db, t.writes))
  {
    LastStage(db, t);
    var j, last := t.call.job, t.stage.last;
    WorkerIsNotEmployer(db, j);
    var save := SaveJob(j, CompletedCopy(last.job, t.now));
    var saved := Put(db, save);
    assert saved == db.(jobs := db.jobs[j := CompletedCopy(last.job, t.now)]);
    var w := ReleaseWrites(j, last.job, last.payer, last.payee, db.pct);
    assert w == ReleaseWrites(j, saved.jobs[j], last.payer, last.payee, db.pct);
    ReleasePublishes(saved, j, last.payer, last.payee);
    assert t.writes == [save] + [w[0], w[1], w[2], w[3]];
    ApplyFive(db, save, w[0], w[1], w[2], w[3]);
    assert Step(db, t.call, t.now) == Release(saved, j);
  }

  lemma ConfirmCommits(db: Db, t: Txn)
    requires Shape(db) && TxnOk(db, t) && t.stage.Ready? && t.call.Confirm?
    ensures Step(db, t.call, t.now) == Ok(Apply(db, t.writes))
  {
    LastStage(db, t);
    var w := t.writes;
    ApplyThree(db, w[0], w[1], w[2]);
  }

  /** A commit publishes exactly what the atomic call computes from the committed database. */
  lemma CommitIsAtomic(db: Db, clock: int, blocked: set<Row>, t: Txn)
    requires Shape(db) && JobsOk(db) && TxnOk(db, t) && Next(db, clock, blocked, t) == Commit
    ensures t.stage.Ready? && Step(db, t.call, t.now) == Ok(Apply(db, t.writes))
  {
    if !t.stage.Ready? {
      assert false;
    }
    LastStage(db, t);
    match t.call
    case Register(_) => ApplyOne(db, t.writes[0]);
    case Create(_, _) => CreateCommits(db, t);
    case Accept(_, _) => AcceptCommits(db, t);
    case Start(_, _) => StartCommits(db, t);
    case Complete(_, _) => CompleteCommits(db, t);
    case Cancel(_, _, _) => CancelCommits(db, t);
    case Initiate(_, _, _, _) => ApplyOne(db, t.writes[0]);
    case Confirm(_, _) => ConfirmCommits(db, t);
  }

  // ---- A commit touches only the rows it locked ----

  ghost function Footprint(db: Db, call: Call): set<Row>
    requires Shape(db)
  {
    match call
    case Register(_) => {}
    case Initiate(_, _, _, _) => {}
    case Create(u, _) => {WalletRow(u)}
    case Accept(j, _) => {JobRow(j)}
    case Start(j, _) => {JobRow(j)}
    case Cancel(j, _, _) => if j < |db.jobs| then {JobRow(j), WalletRow(db.jobs[j].employer)} else {}
    case Complete(j, _) =>
      if j < |db.jobs| && db.jobs[j].worker.Some?
      then {JobRow(j), WalletRow(db.jobs[j].employer), WalletRow(db.jobs[j].worker.value)} else {}
    case Confirm(r, _) => if r < |db.requests| then {RequestRow(r), WalletRow(db.requests[r].wallet)} else {}
  }

  lemma ReadyHoldsFootprint(db: Db, t: Txn)
    requires Shape(db) && TxnOk(db, t) && t.stage.Ready?
    ensures Footprint(db, t.call) <= t.locks
  {
    LastStage(db, t);
    assert t.locks == LocksOf(t.call, t.stage.last);
  }

  lemma RoomsElsewhere(db: Db, j: nat, employer: nat, worker: nat, k: nat)
    requires k != j
    ensures HasRoom(OpenRoom(db, j, employer, worker).rooms, k) == HasRoom(db.rooms, k)
  {
    if !HasRoom(db.rooms, j) {
      ChatRooms.RoomAppended(db.rooms, Room(j, employer, worker), k);
    }
  }

  lemma ConfinedWithoutRooms(db: Db, call: Call, now: int, locks: set<Row>)
    requires Shape(db) && Step(db, call, now).Ok? && Footprint(db, call) !! locks && !call.Accept?
    ensures Undisturbed(db, Step(db, call, now).value, locks)
  {
    StepKeepsShape(db, call, now);
    forall row | row in Footprint(db, call) ensures row !in locks {
    }
  }

  /** An atomic call leaves alone every row outside its footprint. */
  lemma StepConfined(db: Db, call: Call, now: int, locks: set<Row>)
    requires Shape(db) && Step(db, call, now).Ok? && Footprint(db, call) !! locks
    ensures Undisturbed(db, Step(db, call, now).value, locks)
  {
    StepKeepsShape(db, call, now);
    var db' := Step(db, call, now).value;
    if call.Accept? {
      var j, u := call.job, call.user;
      assert JobRow(j) in Footprint(db, call);
      var saved := db.(jobs := db'.jobs);
      assert db' == OpenRoom(saved, j, db.jobs[j].employer, u);
      forall k: nat | k < |db.jobs| && JobRow(k) in locks ensures HasRoom(db'.rooms, k) == HasRoom(db.rooms, k) {
        RoomsElsewhere(saved, j, db.jobs[j].employer, u, k);
      }
    } else {
      ConfinedWithoutRooms(db, call, now, locks);
    }
  }
}
