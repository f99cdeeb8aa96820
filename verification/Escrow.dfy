/** The four stored wallet fields, updated piecemeal by five calls, are always sums over the job and
    request tables. */
module Escrow {
  import opened Wrappers
  import opened Sums
  import opened Tables
  import opened Marketplace
  import opened Lifecycle
  import Commission

  function Payout(price: nat, pct: nat): int {
    price - Commission.Fee(price, pct)
  }

  // What one job contributes to a user's wallet.

  function Live(u: nat): Job -> int {
    (job: Job) => if job.employer == u && IsLive(job.status) then job.price else 0
  }

  function Funded(u: nat): Job -> int {
    (job: Job) => if job.employer == u && job.status != Cancelled then job.price else 0
  }

  function Worked(u: nat, pct: nat): Job -> int {
    (job: Job) =>
      if job.worker == Some(u) && job.status == Completed && job.price >= 0 then Payout(job.price, pct) else 0
  }

  // What one deposit request contributes.

  function Credited(u: nat): Request -> int {
    (r: Request) => if r.wallet == u && r.status == Confirmed then r.amount else 0
  }

  /** The wallet the tables imply for user u. */
  ghost function ImpliedWallet(db: Db, u: nat): Wallet {
    var spent := Sum(db.jobs, Funded(u));
    var earned := Sum(db.jobs, Worked(u, db.pct));
    Wallet(Sum(db.requests, Credited(u)) - spent + earned, Sum(db.jobs, Live(u)), earned, spent)
  }

  ghost predicate WalletsMatch(db: Db) {
    |db.wallets| == |db.roles| && forall u | 0 <= u < |db.wallets| :: db.wallets[u] == ImpliedWallet(db, u)
  }

  ghost predicate WalletsFit(db: Db) {
    forall u | 0 <= u < |db.wallets| :: WalletFits(db.wallets[u])
  }

  /** A live job's price is still in its employer's escrow and still counted as spent. */
  lemma LiveJobIsCovered(db: Db, j: nat)
    requires Shape(db) && WalletsMatch(db)
    requires j < |db.jobs| && IsLive(db.jobs[j].status)
    ensures 0 <= db.jobs[j].price <= db.wallets[db.jobs[j].employer].held
    ensures db.jobs[j].price <= db.wallets[db.jobs[j].employer].spent
  {
    var e := db.jobs[j].employer;
    SumBoundsEach(db.jobs, Live(e), j);
    SumBoundsEach(db.jobs, Funded(e), j);
    assert db.wallets[e] == ImpliedWallet(db, e);
  }

  /** The clamps never bite: a refund returns the whole price from all three fields. */
  lemma RefundIsExact(db: Db, j: nat)
    requires Shape(db) && WalletsMatch(db)
    requires j < |db.jobs| && IsLive(db.jobs[j].status)
    ensures var job, w := db.jobs[j], db.wallets[db.jobs[j].employer];
            && Min(job.price, w.held) == job.price
            && Refunded(w, job.price) ==
               Wallet(w.balance + job.price, w.held - job.price, w.earned, w.spent - job.price)
  {
    LiveJobIsCovered(db, j);
  }

  /** Overwriting one job moves the implied wallets by the difference of its contributions. */
  lemma JobRewriteMovesWallet(db: Db, j: nat, job: Job, u: nat)
    requires j < |db.jobs|
    ensures var w, w' := ImpliedWallet(db, u), ImpliedWallet(db.(jobs := db.jobs[j := job]), u);
            && w'.held == w.held - Live(u)(db.jobs[j]) + Live(u)(job)
            && w'.spent == w.spent - Funded(u)(db.jobs[j]) + Funded(u)(job)
            && w'.earned == w.earned - Worked(u, db.pct)(db.jobs[j]) + Worked(u, db.pct)(job)
            && w'.balance == w.balance + (w.spent - w'.spent) + (w'.earned - w.earned)
  {
    SumUpdate(db.jobs, j, job, Live(u));
    SumUpdate(db.jobs, j, job, Funded(u));
    SumUpdate(db.jobs, j, job, Worked(u, db.pct));
  }

  lemma RegisterKeepsWallets(db: Db, role: Role)
    requires Shape(db) && WalletsMatch(db)
    ensures WalletsMatch(db.(roles := db.roles + [role], wallets := db.wallets + [EMPTY_WALLET]))
  {
    var u := |db.roles|;
    SumZero(db.jobs, Live(u));
    SumZero(db.jobs, Funded(u));
    SumZero(db.jobs, Worked(u, db.pct));
    SumZero(db.requests, Credited(u));
    var db' := db.(roles := db.roles + [role], wallets := db.wallets + [EMPTY_WALLET]);
    forall v | 0 <= v < |db'.wallets| ensures db'.wallets[v] == ImpliedWallet(db', v) {
      if v < u {
        assert db.wallets[v] == ImpliedWallet(db, v);
      }
    }
  }

  lemma CreateKeepsWallets(db: Db, user: nat, price: int, now: int)
    requires Shape(db) && WalletsMatch(db) && user < |db.roles| && CreateJob(db, user, price, now).Ok?
    ensures WalletsMatch(CreateJob(db, user, price, now).value)
  {
    var db' := CreateJob(db, user, price, now).value;
    var job := NewJob(user, price, now);
    forall u | 0 <= u < |db'.wallets| ensures db'.wallets[u] == ImpliedWallet(db', u) {
      SumSnoc(db.jobs, job, Live(u));
      SumSnoc(db.jobs, job, Funded(u));
      SumSnoc(db.jobs, job, Worked(u, db.pct));
      assert db.wallets[u] == ImpliedWallet(db, u);
    }
  }

  /** Accepting and starting a job moves no money. */
  lemma MoveKeepsWallets(db: Db, j: nat, job: Job)
    requires Shape(db) && WalletsMatch(db) && j < |db.jobs|
    requires job.employer == db.jobs[j].employer && job.price == db.jobs[j].price
    requires IsLive(db.jobs[j].status) && IsLive(job.status)
    ensures WalletsMatch(db.(jobs := db.jobs[j := job]))
  {
    forall u | 0 <= u < |db.wallets| ensures db.wallets[u] == ImpliedWallet(db.(jobs := db.jobs[j := job]), u) {
      JobRewriteMovesWallet(db, j, job, u);
      assert db.wallets[u] == ImpliedWallet(db, u);
    }
  }

  lemma CompleteKeepsWallets(db: Db, j: nat, user: nat, now: int)
    requires Shape(db) && WalletsMatch(db) && JobsOk(db) && user < |db.roles|
    requires CompleteJob(db, j, user, now).Ok?
    ensures WalletsMatch(CompleteJob(db, j, user, now).value)
  {
    var db' := CompleteJob(db, j, user, now).value;
    WorkerIsNotEmployer(db, j);
    forall u | 0 <= u < |db'.wallets| ensures db'.wallets[u] == ImpliedWallet(db', u) {
      JobRewriteMovesWallet(db, j, db'.jobs[j], u);
      assert db.wallets[u] == ImpliedWallet(db, u);
    }
  }

  lemma CancelKeepsWallets(db: Db, j: nat, user: nat, reason: string, now: int)
    requires Shape(db) && WalletsMatch(db)
    requires CancelJob(db, j, user, reason, now).Ok?
    ensures WalletsMatch(CancelJob(db, j, user, reason, now).value)
  {
    var db' := CancelJob(db, j, user, reason, now).value;
    RefundIsExact(db, j);
    forall u | 0 <= u < |db'.wallets| ensures db'.wallets[u] == ImpliedWallet(db', u) {
      JobRewriteMovesWallet(db, j, db'.jobs[j], u);
      assert db.wallets[u] == ImpliedWallet(db, u);
    }
  }

  lemma InitiateKeepsWallets(db: Db, request: Request)
    requires WalletsMatch(db) && request.status == Pending
    ensures WalletsMatch(db.(requests := db.requests + [request]))
  {
    var db' := db.(requests := db.requests + [request]);
    forall u | 0 <= u < |db'.wallets| ensures db'.wallets[u] == ImpliedWallet(db', u) {
      SumSnoc(db.requests, request, Credited(u));
      assert db.wallets[u] == ImpliedWallet(db, u);
    }
  }

  lemma ConfirmKeepsWallets(db: Db, r: nat, externalId: string)
    requires Shape(db) && WalletsMatch(db) && ConfirmDeposit(db, r, externalId).Ok?
    ensures WalletsMatch(ConfirmDeposit(db, r, externalId).value)
  {
    var db' := ConfirmDeposit(db, r, externalId).value;
    forall u | 0 <= u < |db'.wallets| ensures db'.wallets[u] == ImpliedWallet(db', u) {
      SumUpdate(db.requests, r, db'.requests[r], Credited(u));
      assert db.wallets[u] == ImpliedWallet(db, u);
    }
  }

  lemma OpenRoomKeepsWallets(db: Db, j: nat, employer: nat, worker: nat)
    requires WalletsMatch(db)
    ensures WalletsMatch(OpenRoom(db, j, employer, worker))
  {
    var db' := OpenRoom(db, j, employer, worker);
    forall u | 0 <= u < |db'.wallets| ensures db'.wallets[u] == ImpliedWallet(db', u) {
      assert db.wallets[u] == ImpliedWallet(db, u);
    }
  }

  lemma StepKeepsWallets(db: Db, call: Call, now: int)
    requires Shape(db) && Step(db, call, now).Ok?
    requires JobsOk(db) && WalletsMatch(db)
    ensures WalletsMatch(Step(db, call, now).value)
  {
    var db' := Step(db, call, now).value;
    match call
    case Register(role) => RegisterKeepsWallets(db, role);
    case Create(u, price) => CreateKeepsWallets(db, u, price, now);
    case Accept(j, u) =>
      MoveKeepsWallets(db, j, db'.jobs[j]);
      OpenRoomKeepsWallets(db.(jobs := db'.jobs), j, db.jobs[j].employer, u);
    case Start(j, u) => MoveKeepsWallets(db, j, db'.jobs[j]);
    case Complete(j, u) => CompleteKeepsWallets(db, j, u, now);
    case Cancel(j, u, reason) => CancelKeepsWallets(db, j, u, reason, now);
    case Initiate(u, amount, provider, gateway) =>
      InitiateKeepsWallets(db, Request(u, amount, provider, gateway.value, Pending));
    case Confirm(r, externalId) => ConfirmKeepsWallets(db, r, externalId);
  }

  lemma StepKeepsWalletsFit(db: Db, call: Call, now: int)
    requires Shape(db) && Step(db, call, now).Ok?
    requires WalletsFit(db)
    ensures WalletsFit(Step(db, call, now).value)
  {
  }

  /** With no live job left, nothing is held for anyone. */
  lemma NothingHeldWhenAllEnded(db: Db)
    requires WalletsMatch(db)
    requires forall j | 0 <= j < |db.jobs| :: !IsLive(db.jobs[j].status)
    ensures forall u | 0 <= u < |db.wallets| :: db.wallets[u].held == 0
  {
    forall u | 0 <= u < |db.wallets| ensures db.wallets[u].held == 0 {
      SumZero(db.jobs, Live(u));
      assert db.wallets[u] == ImpliedWallet(db, u);
    }
  }
}
