/** Every service call as one atomic step on the database: a new database, or an error and no change. */
module Marketplace {
  import opened Wrappers
  import opened Tables
  import Commission

  datatype Call =
    | Register(role: Role)
    | Create(user: nat, price: int)
    | Accept(job: nat, user: nat)
    | Start(job: nat, user: nat)
    | Complete(job: nat, user: nat)
    | Cancel(job: nat, user: nat, reason: string)
    | Initiate(user: nat, amount: int, provider: string, gateway: Option<string>)
    | Confirm(request: nat, externalId: string)

  type Outcome = Result<Db, Error>

  function NewJob(employer: nat, price: int, now: int): Job {
    Job(employer, None, price, Created, now, None, None, None, None, "")
  }

  function Debited(w: Wallet, amount: int): Wallet {
    w.(balance := w.balance - amount, held := w.held + amount, spent := w.spent + amount)
  }

  function CreateJob(db: Db, user: nat, price: int, now: int): Outcome
    requires Shape(db) && user < |db.roles|
  {
    if db.roles[user] != Employer then Err(Forbidden)
    else
      var w := db.wallets[user];
      if w.balance < price then Err(InsufficientBalance)
      else if !FitsInteger(price) || !WalletFits(Debited(w, price)) then Err(Integrity)
      else
        Ok(db.(
          wallets := db.wallets[user := Debited(w, price)],
          jobs := db.jobs + [NewJob(user, price, now)],
          ledger := db.ledger + [Tx(user, JobPayment, Debit, price, w.balance, w.balance - price,
                                    Some(|db.jobs|), "internal", "")]))
  }

  /** The chat signal: one room and one system message for a job, unless it has a room already. */
  function OpenRoom(db: Db, j: nat, employer: nat, worker: nat): Db {
    if HasRoom(db.rooms, j) then db
    else db.(rooms := db.rooms + [Room(j, employer, worker)],
             messages := db.messages + [Message(|db.rooms|)])
  }

  function AcceptJob(db: Db, j: nat, user: nat, now: int): Outcome
    requires Shape(db) && user < |db.roles|
  {
    if db.roles[user] != Worker then Err(Forbidden)
    else if j >= |db.jobs| then Err(NotFound)
    else
      var job := db.jobs[j];
      if job.status != Created then Err(JobState)
      else if job.employer == user then Err(Forbidden)
      else
        var job' := job.(worker := Some(user), status := Accepted, acceptedAt := Some(now));
        Ok(OpenRoom(db.(jobs := db.jobs[j := job']), j, job.employer, user))
  }

  function StartJob(db: Db, j: nat, user: nat, now: int): Outcome
    requires Shape(db)
  {
    if j >= |db.jobs| || db.jobs[j].worker != Some(user) then Err(NotFound)
    else if db.jobs[j].status != Accepted then Err(JobState)
    else Ok(db.(jobs := db.jobs[j := db.jobs[j].(status := InProgress, startedAt := Some(now))]))
  }

  /** Escrow leaves the employer's wallet; the worker is paid what the commission leaves. */
  function Release(db: Db, j: nat): Outcome
    requires Shape(db) && j < |db.jobs| && db.jobs[j].worker.Some?
  {
    var job := db.jobs[j];
    var e, w := job.employer, job.worker.value;
    var fee := Commission.Fee(job.price, db.pct);
    var payout := job.price - fee;
    var wallets1 := db.wallets[e := db.wallets[e].(held := db.wallets[e].held - job.price)];
    var paid := wallets1[w].(balance := wallets1[w].balance + payout,
                             earned := wallets1[w].earned + payout);
    if !WalletFits(wallets1[e]) || !FitsBig(fee) || !FitsBig(payout) || !WalletFits(paid) then Err(Integrity)
    else
      Ok(db.(
        wallets := wallets1[w := paid],
        ledger := db.ledger + [
          Tx(e, Kind.Commission, Debit, fee, db.wallets[e].balance, db.wallets[e].balance, Some(j), "internal", ""),
          Tx(w, JobRelease, Credit, payout, db.wallets[w].balance, paid.balance, Some(j), "internal", "")]))
  }

  function CompleteJob(db: Db, j: nat, user: nat, now: int): Outcome
    requires Shape(db) && user < |db.roles|
  {
    if db.roles[user] != Employer then Err(Forbidden)
    else if j >= |db.jobs| || db.jobs[j].employer != user then Err(NotFound)
    else if db.jobs[j].status != InProgress || db.jobs[j].worker.None? then Err(JobState)
    else Release(db.(jobs := db.jobs[j := db.jobs[j].(status := Completed, completedAt := Some(now))]), j)
  }

  function Min(a: int, b: int): int { if a < b then a else b }

  function Max(a: int, b: int): int { if a < b then b else a }

  /** The refunded wallet, with the clamps of the service. */
  function Refunded(w: Wallet, price: int): Wallet {
    var back := Min(price, w.held);
    w.(balance := w.balance + back, held := w.held - back, spent := Max(0, w.spent - back))
  }

  function RefundJob(db: Db, j: nat): Outcome
    requires Shape(db) && j < |db.jobs|
  {
    var job := db.jobs[j];
    var w := db.wallets[job.employer];
    var w' := Refunded(w, job.price);
    var back := Min(job.price, w.held);
    if !WalletFits(w') || !FitsBig(back) then Err(Integrity)
    else
      Ok(db.(
        wallets := db.wallets[job.employer := w'],
        ledger := db.ledger + [Tx(job.employer, Refund, Credit, back, w.balance, w'.balance,
                                  Some(j), "internal", "")]))
  }

  function CancelJob(db: Db, j: nat, user: nat, reason: string, now: int): Outcome
    requires Shape(db)
  {
    if j >= |db.jobs| then Err(NotFound)
    else
      var job := db.jobs[j];
      if user != job.employer && job.worker != Some(user) then Err(Forbidden)
      else if job.status == Completed || job.status == Cancelled then Err(JobState)
      else
        var job' := job.(status := Cancelled, cancelledAt := Some(now), cancelReason := reason);
        RefundJob(db.(jobs := db.jobs[j := job']), j)
  }

  predicate DepositInBounds(amount: int) {
    MIN_DEPOSIT <= amount <= MAX_DEPOSIT
  }

  /** `gateway` is the provider's answer: its identifier for the payment, or a failure. */
  function InitiateDeposit(db: Db, user: nat, amount: int, provider: string, gateway: Option<string>): Outcome
    requires Shape(db) && user < |db.roles|
  {
    if !DepositInBounds(amount) then Err(Validation)
    else if |provider| > REQUEST_PROVIDER_LENGTH then Err(Integrity)
    else if gateway.None? then Err(ProviderFailed)
    else if |gateway.value| > EXTERNAL_ID_LENGTH then Err(Integrity)
    else Ok(db.(requests := db.requests + [Request(user, amount, provider, gateway.value, Pending)]))
  }

  /** The provider's identifier of a payment: the one it confirms with, or else the one it first gave. */
  function Reference(externalId: string, req: Request): string {
    if externalId != "" then externalId else req.externalId
  }

  function CreditTx(req: Request, w: Wallet, externalId: string): Tx {
    Tx(req.wallet, Deposit, Credit, req.amount, w.balance, w.balance + req.amount, None, req.provider,
       Reference(externalId, req))
  }

  function ConfirmDeposit(db: Db, r: nat, externalId: string): Outcome
    requires Shape(db)
  {
    if r >= |db.requests| || db.requests[r].status != Pending then Err(Validation)
    else
      var req := db.requests[r];
      var w := db.wallets[req.wallet];
      var w' := w.(balance := w.balance + req.amount);
      if !DepositInBounds(req.amount) then Err(Validation)
      else if !WalletFits(w') || !TxFits(CreditTx(req, w, externalId)) then Err(Integrity)
      else
        Ok(db.(
          wallets := db.wallets[req.wallet := w'],
          ledger := db.ledger + [CreditTx(req, w, externalId)],
          requests := db.requests[r := req.(status := Confirmed)]))
  }

  /** The signed-in user a call needs must exist. */
  predicate CallerExists(db: Db, call: Call) {
    match call
    case Register(_) => true
    case Confirm(_, _) => true
    case Create(u, _) => u < |db.roles|
    case Accept(_, u) => u < |db.roles|
    case Start(_, u) => u < |db.roles|
    case Complete(_, u) => u < |db.roles|
    case Cancel(_, u, _) => u < |db.roles|
    case Initiate(u, _, _, _) => u < |db.roles|
  }

  function Step(db: Db, call: Call, now: int): Outcome
    requires Shape(db)
  {
    if !CallerExists(db, call) then Err(Unauthenticated)
    else
      match call
      case Register(role) => Ok(db.(roles := db.roles + [role], wallets := db.wallets + [EMPTY_WALLET]))
      case Create(u, price) => CreateJob(db, u, price, now)
      case Accept(j, u) => AcceptJob(db, j, u, now)
      case Start(j, u) => StartJob(db, j, u, now)
      case Complete(j, u) => CompleteJob(db, j, u, now)
      case Cancel(j, u, reason) => CancelJob(db, j, u, reason, now)
      case Initiate(u, amount, provider, gateway) => InitiateDeposit(db, u, amount, provider, gateway)
      case Confirm(r, externalId) => ConfirmDeposit(db, r, externalId)
  }
}
