/** The rows of the marketplace database. A row's identifier is its position in its table. */
module Tables {
  import opened Wrappers

  datatype Role = Employer | Worker

  datatype JobStatus = Created | Accepted | InProgress | Completed | Cancelled

  datatype Job = Job(
    employer: nat,
    worker: Option<nat>,
    price: int,
    status: JobStatus,
    createdAt: int,
    acceptedAt: Option<int>,
    startedAt: Option<int>,
    completedAt: Option<int>,
    cancelledAt: Option<int>,
    cancelReason: string)

  datatype Wallet = Wallet(balance: int, held: int, earned: int, spent: int)

  datatype Kind = Deposit | JobPayment | JobRelease | Commission | Refund

  datatype Direction = Credit | Debit

  /** One immutable ledger row. */
  datatype Tx = Tx(
    wallet: nat,
    kind: Kind,
    direction: Direction,
    amount: int,
    before: int,
    after: int,
    job: Option<nat>,
    provider: string,
    externalId: string)

  datatype RequestStatus = Pending | Confirmed

  datatype Request = Request(
    wallet: nat,
    amount: int,
    provider: string,
    externalId: string,
    status: RequestStatus)

  datatype Room = Room(job: nat, employer: nat, worker: nat)

  /** A system message: it has a room and no sender. */
  datatype Message = Message(room: nat)

  /** The whole database; `pct` is the commission setting, which no call changes. */
  datatype Db = Db(
    pct: nat,
    roles: seq<Role>,
    wallets: seq<Wallet>,
    jobs: seq<Job>,
    requests: seq<Request>,
    ledger: seq<Tx>,
    rooms: seq<Room>,
    messages: seq<Message>)

  /** The exceptions a call can raise. `Integrity` is a column constraint refusing a write. */
  datatype Error =
    | Forbidden
    | NotFound
    | JobState
    | InsufficientBalance
    | Validation
    | Integrity
    | ProviderFailed
    | Unauthenticated

  const MIN_DEPOSIT := 10_000
  const MAX_DEPOSIT := 10_000_000
  const MAX_PRICE := 0x7fff_ffff
  const BIGINT_LIMIT := 0x8000_0000_0000_0000

  const EMPTY_WALLET := Wallet(0, 0, 0, 0)

  /** Range of a PositiveIntegerField column. */
  predicate FitsInteger(v: int) {
    0 <= v <= MAX_PRICE
  }

  /** Range of a PositiveBigIntegerField column. */
  predicate FitsBig(v: int) {
    0 <= v < BIGINT_LIMIT
  }

  /** Lengths of the text columns. */
  const REQUEST_PROVIDER_LENGTH := 20
  const TX_PROVIDER_LENGTH := 50
  const EXTERNAL_ID_LENGTH := 200

  predicate TxFits(tx: Tx) {
    && FitsBig(tx.amount) && FitsBig(tx.before) && FitsBig(tx.after)
    && |tx.provider| <= TX_PROVIDER_LENGTH && |tx.externalId| <= EXTERNAL_ID_LENGTH
  }

  predicate RequestTextsFit(req: Request) {
    |req.provider| <= REQUEST_PROVIDER_LENGTH && |req.externalId| <= EXTERNAL_ID_LENGTH
  }

  predicate WalletFits(w: Wallet) {
    FitsBig(w.balance) && FitsBig(w.held) && FitsBig(w.earned) && FitsBig(w.spent)
  }

  /** The `update_fields` of a wallet save: only the columns present are written. */
  datatype Columns = Columns(balance: Option<int>, held: Option<int>, earned: Option<int>, spent: Option<int>)

  function Or(column: Option<int>, stored: int): int {
    if column.Some? then column.value else stored
  }

  function Overlay(w: Wallet, c: Columns): Wallet {
    Wallet(Or(c.balance, w.balance), Or(c.held, w.held), Or(c.earned, w.earned), Or(c.spent, w.spent))
  }

  const NO_COLUMNS := Columns(None, None, None, None)

  predicate IsLive(s: JobStatus) {
    s == Created || s == Accepted || s == InProgress
  }

  predicate HasRoom(rooms: seq<Room>, j: nat) {
    exists i | 0 <= i < |rooms| :: rooms[i].job == j
  }

  /** Foreign keys point at existing users, every user has a wallet, and prices fit their column. */
  predicate Shape(db: Db) {
    && |db.wallets| == |db.roles|
    && (forall j | 0 <= j < |db.jobs| ::
          && db.jobs[j].employer < |db.roles|
          && FitsInteger(db.jobs[j].price)
          && (db.jobs[j].worker.Some? ==> db.jobs[j].worker.value < |db.roles|))
    && (forall r | 0 <= r < |db.requests| :: db.requests[r].wallet < |db.roles|)
  }
}
