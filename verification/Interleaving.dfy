/** The same calls at lock granularity: transactions of many callers take row locks, copy the rows they
    locked, buffer their writes, and publish them at commit. */
module Interleaving {
  import opened Wrappers
  import opened Tables
  import opened Marketplace
  import Commission

  /** The rows that `select_for_update` names. */
  datatype Row = JobRow(id: nat) | WalletRow(id: nat) | RequestRow(id: nat)

  /** A buffered statement. Saves overwrite the committed row with values computed from the local copy. */
  datatype Write =
    | InsertUser(role: Role)
    | InsertJob(job: Job)
    | SaveJob(id: nat, saved: Job)
    | SaveWallet(id: nat, columns: Columns)
    | InsertTx(tx: Tx)
    | InsertTxOfNewJob(tx: Tx)
    | InsertRequest(request: Request)
    | SaveRequest(id: nat, status: RequestStatus)
    | InsertRoomAndMessage(room: Room)

  function Put(db: Db, write: Write): Db {
    match write
    case InsertUser(role) => db.(roles := db.roles + [role], wallets := db.wallets + [EMPTY_WALLET])
    case InsertJob(job) => db.(jobs := db.jobs + [job])
    case SaveJob(j, job) => if j < |db.jobs| then db.(jobs := db.jobs[j := job]) else db
    case SaveWallet(u, columns) =>
      if u < |db.wallets| then db.(wallets := db.wallets[u := Overlay(db.wallets[u], columns)]) else db
    case InsertTx(tx) => db.(ledger := db.ledger + [tx])
    case InsertTxOfNewJob(tx) =>
      if db.jobs == [] then db else db.(ledger := db.ledger + [tx.(job := Some(|db.jobs| - 1))])
    case InsertRequest(request) => db.(requests := db.requests + [request])
    case SaveRequest(r, status) =>
      if r < |db.requests| then db.(requests := db.requests[r := db.requests[r].(status := status)]) else db
    case InsertRoomAndMessage(room) =>
      db.(rooms := db.rooms + [room], messages := db.messages + [Message(|db.rooms|)])
  }

  /** Publishing a buffer, statement by statement. */
  function Apply(db: Db, writes: seq<Write>): Db {
    if writes == [] then db
    else Put(Apply(db, writes[..|writes| - 1]), writes[|writes| - 1])
  }

  /** How far a transaction has got, with the local copies it has taken. */
  datatype Stage =
    | Opened
    | GotPurse(purse: Wallet)
    | GotJob(job: Job)
    | JobSaved(job: Job)
    | RoomChecked(job: Job, found: bool)
    | GotPayer(job: Job, payer: Wallet)
    | GotBoth(job: Job, payer: Wallet, payee: Wallet)
    | GotRequest(request: Request)
    | GotCredited(request: Request, credited: Wallet)
    | Ready(last: Stage)

  datatype Txn = Txn(call: Call, stage: Stage, now: int, locks: set<Row>, writes: seq<Write>)

  /** What a transaction can do next. */
  datatype Move =
    | Wait(row: Row)
    | Go(next: Txn)
    | Fail(error: Error)
    | Busy
    | Commit

  function WalletAt(db: Db, u: nat): Wallet {
    if u < |db.wallets| then db.wallets[u] else EMPTY_WALLET
  }

  // ---- The rows a transaction writes, computed from its local copies alone ----

  function AcceptedCopy(job: Job, user: nat, now: int): Job {
    job.(worker := Some(user), status := Accepted, acceptedAt := Some(now))
  }

  function StartedCopy(job: Job, now: int): Job {
    job.(status := InProgress, startedAt := Some(now))
  }

  function CompletedCopy(job: Job, now: int): Job {
    job.(status := Completed, completedAt := Some(now))
  }

  function CancelledCopy(job: Job, reason: string, now: int): Job {
    job.(status := Cancelled, cancelledAt := Some(now), cancelReason := reason)
  }

  function EscrowWrites(user: nat, price: int, purse: Wallet, now: int): seq<Write> {
    var after := Debited(purse, price);
    [InsertJob(NewJob(user, price, now)),
     SaveWallet(user, NO_COLUMNS.(balance := Some(after.balance), held := Some(after.held), spent := Some(after.spent))),
     InsertTxOfNewJob(Tx(user, JobPayment, Debit, price, purse.balance, after.balance, None, "internal", ""))]
  }

  function RefundWrites(j: nat, job: Job, payer: Wallet): seq<Write> {
    var after := Refunded(payer, job.price);
    [SaveWallet(job.employer,
                NO_COLUMNS.(balance := Some(after.balance), held := Some(after.held), spent := Some(after.spent))),
     InsertTx(Tx(job.employer, Refund, Credit, Min(job.price, payer.held), payer.balance, after.balance,
                 Some(j), "internal", ""))]
  }

  function FeeOf(job: Job, pct: nat): int {
    if job.price < 0 then 0 else Commission.Fee(job.price, pct)
  }

  function Paid(payee: Wallet, amount: int): Wallet {
    payee.(balance := payee.balance + amount, earned := payee.earned + amount)
  }

  function ReleaseWrites(j: nat, job: Job, payer: Wallet, payee: Wallet, pct: nat): seq<Write> {
    var worker := if job.worker.Some? then job.worker.value else 0;
    var fee := FeeOf(job, pct);
    var after := Paid(payee, job.price - fee);
    [SaveWallet(job.employer, NO_COLUMNS.(held := Some(payer.held - job.price))),
     InsertTx(Tx(job.employer, Kind.Commission, Debit, fee, payer.balance, payer.balance, Some(j), "internal", "")),
     SaveWallet(worker, NO_COLUMNS.(balance := Some(after.balance), earned := Some(after.earned))),
     InsertTx(Tx(worker, JobRelease, Credit, job.price - fee, payee.balance, after.balance, Some(j), "internal", ""))]
  }

  function CreditWrites(r: nat, request: Request, credited: Wallet, externalId: string): seq<Write> {
    [SaveWallet(request.wallet, NO_COLUMNS.(balance := Some(credited.balance + request.amount))),
     InsertTx(CreditTx(request, credited, externalId)),
     SaveRequest(r, Confirmed)]
  }

  // ---- One move of one transaction ----

  function OpenedMove(db: Db, blocked: set<Row>, t: Txn): Move {
    if !CallerExists(db, t.call) then Fail(Unauthenticated)
    else
      match t.call
      case Register(role) => Go(t.(stage := Ready(Opened), writes := [InsertUser(role)]))
      case Create(u, _) =>
        if db.roles[u] != Employer then Fail(Forbidden)
        else if WalletRow(u) in blocked then Wait(WalletRow(u))
        else Go(t.(stage := GotPurse(WalletAt(db, u)), locks := {WalletRow(u)}))
      case Accept(j, u) =>
        if db.roles[u] != Worker then Fail(Forbidden)
        else if j >= |db.jobs| then Fail(NotFound)
        else if JobRow(j) in blocked then Busy
        else Go(t.(stage := GotJob(db.jobs[j]), locks := {JobRow(j)}))
      case Start(j, u) =>
        if j >= |db.jobs| || db.jobs[j].worker != Some(u) then Fail(NotFound)
        else if JobRow(j) in blocked then Wait(JobRow(j))
        else Go(t.(stage := GotJob(db.jobs[j]), locks := {JobRow(j)}))
      case Complete(j, u) =>
        if db.roles[u] != Employer then Fail(Forbidden)
        else if j >= |db.jobs| || db.jobs[j].employer != u then Fail(NotFound)
        else if JobRow(j) in blocked then Wait(JobRow(j))
        else Go(t.(stage := GotJob(db.jobs[j]), locks := {JobRow(j)}))
      case Cancel(j, _, _) =>
        if j >= |db.jobs| then Fail(NotFound)
        else if JobRow(j) in blocked then Wait(JobRow(j))
        else Go(t.(stage := GotJob(db.jobs[j]), locks := {JobRow(j)}))
      case Initiate(u, amount, provider, gateway) =>
        if !DepositInBounds(amount) then Fail(Validation)
        else if |provider| > REQUEST_PROVIDER_LENGTH then Fail(Integrity)
        else if gateway.None? then Fail(ProviderFailed)
        else if |gateway.value| > EXTERNAL_ID_LENGTH then Fail(Integrity)
        else Go(t.(stage := Ready(Opened),
                   writes := [InsertRequest(Request(u, amount, provider, gateway.value, Pending))]))
      case Confirm(r, _) =>
        if r >= |db.requests| || db.requests[r].status != Pending then Fail(Validation)
        else if RequestRow(r) in blocked then Wait(RequestRow(r))
        else Go(t.(stage := GotRequest(db.requests[r]), locks := {RequestRow(r)}))
  }

  /** With the job row locked and copied: check it, stamp it and save it. */
  function JobMove(t: Txn, job: Job, clock: int): Move {
    match t.call
    case Accept(j, u) =>
      if job.status != Created then Fail(JobState)
      else if job.employer == u then Fail(Forbidden)
      else Go(t.(stage := JobSaved(job), now := clock, writes := [SaveJob(j, AcceptedCopy(job, u, clock))]))
    case Start(j, _) =>
      if job.status != Accepted then Fail(JobState)
      else Go(t.(stage := Ready(GotJob(job)), now := clock, writes := [SaveJob(j, StartedCopy(job, clock))]))
    case Complete(j, _) =>
      if job.status != InProgress || job.worker.None? then Fail(JobState)
      else Go(t.(stage := JobSaved(job), now := clock, writes := [SaveJob(j, CompletedCopy(job, clock))]))
    case Cancel(j, u, reason) =>
      if u != job.employer && job.worker != Some(u) then Fail(Forbidden)
      else if job.status == Completed || job.status == Cancelled then Fail(JobState)
      else Go(t.(stage := JobSaved(job), now := clock, writes := [SaveJob(j, CancelledCopy(job, reason, clock))]))
    case _ => Commit
  }

  function SavedMove(db: Db, blocked: set<Row>, t: Txn, job: Job): Move {
    match t.call
    case Accept(j, u) =>
      var found := HasRoom(db.rooms, j);
      Go(t.(stage := Ready(RoomChecked(job, found)),
            writes := t.writes + if found then [] else [InsertRoomAndMessage(Room(j, job.employer, u))]))
    case _ =>
      if WalletRow(job.employer) in blocked then Wait(WalletRow(job.employer))
      else Go(t.(stage := GotPayer(job, WalletAt(db, job.employer)), locks := t.locks + {WalletRow(job.employer)}))
  }

  function PayerMove(db: Db, blocked: set<Row>, t: Txn, job: Job, payer: Wallet): Move {
    match t.call
    case Cancel(j, _, _) =>
      if !WalletFits(Refunded(payer, job.price)) || !FitsBig(Min(job.price, payer.held)) then Fail(Integrity)
      else Go(t.(stage := Ready(t.stage), writes := t.writes + RefundWrites(j, job, payer)))
    case _ =>
      if job.worker.None? then Fail(JobState)
      else if WalletRow(job.worker.value) in blocked then Wait(WalletRow(job.worker.value))
      else Go(t.(stage := GotBoth(job, payer, WalletAt(db, job.worker.value)),
                 locks := t.locks + {WalletRow(job.worker.value)}))
  }

  function BothMove(t: Txn, job: Job, payer: Wallet, payee: Wallet, pct: nat): Move {
    var fee := FeeOf(job, pct);
    if t.call.Complete? then
      if !WalletFits(payer.(held := payer.held - job.price)) || !FitsBig(fee) || !FitsBig(job.price - fee)
         || !WalletFits(Paid(payee, job.price - fee))
      then Fail(Integrity)
      else Go(t.(stage := Ready(t.stage), writes := t.writes + ReleaseWrites(t.call.job, job, payer, payee, pct)))
    else Commit
  }

  function CreditMove(t: Txn, request: Request, credited: Wallet): Move {
    if t.call.Confirm? then
      if !DepositInBounds(request.amount) then Fail(Validation)
      else if !WalletFits(credited.(balance := credited.balance + request.amount))
           || !TxFits(CreditTx(request, credited, t.call.externalId)) then Fail(Integrity)
      else Go(t.(stage := Ready(t.stage),
                 writes := CreditWrites(t.call.request, request, credited, t.call.externalId)))
    else Commit
  }

  function PurseMove(t: Txn, purse: Wallet, clock: int): Move {
    if t.call.Create? then
      if purse.balance < t.call.price then Fail(InsufficientBalance)
      else if !FitsInteger(t.call.price) || !WalletFits(Debited(purse, t.call.price)) then Fail(Integrity)
      else Go(t.(stage := Ready(t.stage), now := clock,
                 writes := EscrowWrites(t.call.user, t.call.price, purse, clock)))
    else Commit
  }

  /** The next move of a transaction; `blocked` is the set of rows other transactions have locked. */
  function Next(db: Db, clock: int, blocked: set<Row>, t: Txn): Move {
    match t.stage
    case Opened => OpenedMove(db, blocked, t)
    case GotPurse(purse) => PurseMove(t, purse, clock)
    case GotJob(job) => JobMove(t, job, clock)
    case JobSaved(job) => SavedMove(db, blocked, t, job)
    case RoomChecked(_, _) => Commit
    case GotPayer(job, payer) => PayerMove(db, blocked, t, job, payer)
    case GotBoth(job, payer, payee) => BothMove(t, job, payer, payee, db.pct)
    case GotRequest(request) =>
      if WalletRow(request.wallet) in blocked then Wait(WalletRow(request.wallet))
      else Go(t.(stage := GotCredited(request, WalletAt(db, request.wallet)),
                 locks := t.locks + {WalletRow(request.wallet)}))
    case GotCredited(request, credited) => CreditMove(t, request, credited)
    case Ready(_) => Commit
  }

  // ---- Schedules ----

  datatype Ending = Committed | Failed(error: Error) | Refused | Crashed

  datatype Entry = Entry(call: Call, now: int, ending: Ending)

  /** The committed database, the clock, the transactions in flight, and how the finished ones ended. */
  datatype Config = Config(db: Db, clock: int, txns: map<nat, Txn>, log: seq<Entry>)

  /** A schedule is any sequence of these: calls arrive, transactions move, connections die, time passes. */
  datatype Act = Arrive(id: nat, call: Call) | Advance(id: nat) | Die(id: nat) | Tick(delta: nat)

  function LockedByOthers(txns: map<nat, Txn>, id: nat): set<Row> {
    set k, row | k in txns && k != id && row in txns[k].locks :: row
  }

  function Finish(c: Config, id: nat, ending: Ending): Config
    requires id in c.txns
  {
    c.(txns := c.txns - {id}, log := c.log + [Entry(c.txns[id].call, c.txns[id].now, ending)])
  }

  function Perform(c: Config, act: Act): Config {
    match act
    case Tick(delta) => c.(clock := c.clock + delta)
    case Arrive(id, call) =>
      if id in c.txns then c
      else c.(txns := c.txns[id := Txn(call, Opened, c.clock, {}, [])])
    case Die(id) => if id in c.txns then Finish(c, id, Crashed) else c
    case Advance(id) =>
      if id !in c.txns then c
      else
        match Next(c.db, c.clock, LockedByOthers(c.txns, id), c.txns[id])
        case Wait(_) => c
        case Go(t) => c.(txns := c.txns[id := t])
        case Fail(error) => Finish(c, id, Failed(error))
        case Busy => Finish(c, id, Refused)
        case Commit => Finish(c.(db := Apply(c.db, c.txns[id].writes)), id, Committed)
  }
}
