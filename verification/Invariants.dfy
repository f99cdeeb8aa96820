/** Everything that holds between calls, kept by every call, and the failures it rules out. */
module Invariants {
  import opened Wrappers
  import opened Sums
  import opened Tables
  import opened Marketplace
  import opened Lifecycle
  import opened Escrow
  import opened Books
  import opened JobRows
  import opened Deposits
  import opened ChatRooms
  import Commission

  ghost predicate Inv(db: Db) {
    && Shape(db) && JobsOk(db)
    && WalletsMatch(db) && WalletsFit(db)
    && BooksMatch(db) && EscrowMatchesLedger(db) && Conserved(db)
    && JobRowsMatch(db) && FeesMatch(db) && OnlyDepositsLackJobs(db)
    && RequestsInBounds(db) && DepositsMatch(db) && DepositTotalMatches(db) && AmountsNotNegative(db)
    && RoomsMatch(db)
  }

  /** The empty database under a commission setting. */
  function Initial(pct: nat): Db {
    Db(pct, [], [], [], [], [], [], [])
  }

  lemma InitialHolds(pct: nat)
    ensures Inv(Initial(pct))
  {
    var none: seq<nat> := [];
    assert Pairs(Initial(pct), none);
  }

  /** Main result: every successful call keeps every invariant. */
  lemma StepKeepsInv(db: Db, call: Call, now: int)
    requires Inv(db) && Step(db, call, now).Ok?
    ensures Inv(Step(db, call, now).value)
  {
    StepKeepsShape(db, call, now);
    StepKeepsJobsOk(db, call, now);
    StepKeepsWallets(db, call, now);
    StepKeepsWalletsFit(db, call, now);
    StepKeepsBooks(db, call, now);
    StepKeepsEscrowMatch(db, call, now);
    StepConserves(db, call, now);
    StepKeepsJobRows(db, call, now);
    StepKeepsFees(db, call, now);
    StepKeepsDepositsApart(db, call, now);
    StepKeepsRequestBounds(db, call, now);
    StepKeepsDeposits(db, call, now);
    StepKeepsDepositTotal(db, call, now);
    StepKeepsAmountsNotNegative(db, call, now);
    StepKeepsRooms(db, call, now);
  }

  lemma CallPaysInFull(db: Db, call: Call, now: int)
    requires Shape(db) && JobsOk(db) && Step(db, call, now).Ok?
    requires forall j | 0 <= j < |db.jobs| :: PaysInFull(db.jobs[j], db.pct)
    ensures (call.Complete? ==> call.job < |db.jobs|)
    ensures var db' := Step(db, call, now).value;
            (forall j | 0 <= j < |db'.jobs| :: PaysInFull(db'.jobs[j], db'.pct)) <==>
            && (call.Create? ==> call.price >= 1)
            && (call.Complete? ==> db.jobs[call.job].price * db.pct >= 100 && db.pct < 100)
  {
    var db' := Step(db, call, now).value;
    StepKeepsShape(db, call, now);
    StepEvolvesJobs(db, call, now);
    StepWritesOneJob(db, call, now);
    if call.Create? {
      assert db'.jobs[|db.jobs|].price == call.price;
    }
  }

  /** Main result: a successful call writes an empty row exactly when it creates a job without a price, or
      completes one whose share rounds to nothing or takes everything. */
  lemma StepAmountsPositive(db: Db, call: Call, now: int)
    requires Inv(db) && Step(db, call, now).Ok? && AmountsPositive(db)
    ensures AmountsPositive(Step(db, call, now).value) <==>
            && (call.Create? ==> call.price >= 1)
            && (call.Complete? ==> db.jobs[call.job].price * db.pct >= 100 && db.pct < 100)
  {
    var db' := Step(db, call, now).value;
    StepKeepsInv(db, call, now);
    AmountsPositiveExactly(db);
    AmountsPositiveExactly(db');
    CallPaysInFull(db, call, now);
  }

  // ---- Which writes a column refuses ----

  lemma TwoWalletsBounded(wallets: seq<Wallet>, u: nat, v: nat)
    requires u < |wallets| && v < |wallets| && u != v
    requires forall i | 0 <= i < |wallets| :: WalletFits(wallets[i])
    ensures Funds()(wallets[u]) + Funds()(wallets[v]) <= Sum(wallets, Funds())
  {
    SumUpdate(wallets, u, EMPTY_WALLET, Funds());
    SumBoundsEach(wallets[u := EMPTY_WALLET], Funds(), v);
  }

  lemma FundsBounded(db: Db)
    requires RequestsInBounds(db) && Conserved(db) && DepositTotalMatches(db) && AmountsNotNegative(db)
    ensures Sum(db.wallets, Funds()) <= MAX_DEPOSIT * ConfirmedCount(db)
  {
    CreditsBounded(db.requests, 0);
    FeesNotNegative(db);
  }

  /** What an employer holds was spent, and what was spent and what is left were deposited. */
  lemma EmployerWithinDeposits(db: Db, u: nat)
    requires Shape(db) && JobsOk(db) && WalletsMatch(db) && RequestsInBounds(db)
    requires u < |db.roles| && db.roles[u] == Employer
    ensures var w := db.wallets[u];
            w.held <= w.spent && w.spent + w.balance <= MAX_DEPOSIT * ConfirmedCount(db) && w.earned == 0
  {
    assert db.wallets[u] == ImpliedWallet(db, u);
    MoneyNeverRecirculates(db, u);
    CreditsBounded(db.requests, u);
    SumMonotone(db.jobs, Live(u), Funded(u));
  }

  lemma DebitFits(w: Wallet, price: int, bound: int)
    requires WalletFits(w) && 0 <= price <= w.balance && bound < BIGINT_LIMIT
    requires w.held <= w.spent && w.spent + w.balance <= bound
    ensures WalletFits(Debited(w, price))
  {
  }

  lemma CreateRefusedOnlyByPrice(db: Db, user: nat, price: int, now: int)
    requires Inv(db) && user < |db.roles| && MAX_DEPOSIT * ConfirmedCount(db) < BIGINT_LIMIT
    ensures CreateJob(db, user, price, now) == Err(Integrity) <==>
            db.roles[user] == Employer && db.wallets[user].balance >= price && !FitsInteger(price)
  {
    var w := db.wallets[user];
    assert WalletFits(w);
    if db.roles[user] == Employer && w.balance >= price && FitsInteger(price) {
      EmployerWithinDeposits(db, user);
      DebitFits(w, price, MAX_DEPOSIT * ConfirmedCount(db));
    }
  }

  /** A worker's earnings are part of the available balance. */
  lemma EarningsAvailable(db: Db, u: nat)
    requires Shape(db) && JobsOk(db) && WalletsMatch(db) && RequestsInBounds(db)
    requires u < |db.roles| && db.roles[u] == Worker
    ensures db.wallets[u].earned <= db.wallets[u].balance
  {
    assert db.wallets[u] == ImpliedWallet(db, u);
    MoneyNeverRecirculates(db, u);
    CreditsBounded(db.requests, u);
  }

  /** What a release needs of the two wallets. */
  lemma ReleaseHasRoom(db: Db, j: nat)
    requires Shape(db) && JobsOk(db) && WalletsMatch(db) && WalletsFit(db)
    requires RequestsInBounds(db) && Conserved(db) && DepositTotalMatches(db) && AmountsNotNegative(db)
    requires j < |db.jobs| && db.jobs[j].status == InProgress && db.jobs[j].worker.Some?
    ensures var e, w := db.wallets[db.jobs[j].employer], db.wallets[db.jobs[j].worker.value];
            && db.jobs[j].price <= e.held && w.earned <= w.balance
            && w.balance + db.jobs[j].price <= MAX_DEPOSIT * ConfirmedCount(db)
  {
    var e, w := db.jobs[j].employer, db.jobs[j].worker.value;
    LiveJobIsCovered(db, j);
    WorkerIsNotEmployer(db, j);
    assert PartiesMatchRoles(db.roles, db.jobs[j]);
    assert WalletFits(db.wallets[e]) && WalletFits(db.wallets[w]);
    TwoWalletsBounded(db.wallets, e, w);
    FundsBounded(db);
    EarningsAvailable(db, w);
  }

  /** The percentage is so far above 100 that nothing is left for the worker. */
  predicate FeeExceedsPrice(job: Job, pct: nat)
    requires job.price >= 0
  {
    Commission.Fee(job.price, pct) > job.price
  }

  lemma ReleaseRefusedOnlyByFee(db: Db, j: nat, bound: int)
    requires Shape(db) && j < |db.jobs| && db.jobs[j].worker.Some?
    requires db.jobs[j].worker.value != db.jobs[j].employer && WalletsFit(db)
    requires var e, w := db.wallets[db.jobs[j].employer], db.wallets[db.jobs[j].worker.value];
             && db.jobs[j].price <= e.held && w.earned <= w.balance
             && w.balance + db.jobs[j].price <= bound < BIGINT_LIMIT
    ensures Release(db, j).Ok? <==> !FeeExceedsPrice(db.jobs[j], db.pct)
  {
    assert Commission.Fee(db.jobs[j].price, db.pct) >= 0 by {
      assert db.jobs[j].price * db.pct >= 0;
    }
    assert WalletFits(db.wallets[db.jobs[j].employer]) && WalletFits(db.wallets[db.jobs[j].worker.value]);
  }

  lemma CompleteRefusedOnlyByFee(db: Db, j: nat, user: nat, now: int)
    requires Inv(db) && user < |db.roles| && MAX_DEPOSIT * ConfirmedCount(db) < BIGINT_LIMIT
    ensures CompleteJob(db, j, user, now) == Err(Integrity) <==>
            && j < |db.jobs| && db.jobs[j].status == InProgress && db.jobs[j].employer == user
            && FeeExceedsPrice(db.jobs[j], db.pct)
  {
    if j < |db.jobs| && db.jobs[j].status == InProgress {
      assert StampsMatchStatus(db.jobs[j]) && PartiesMatchRoles(db.roles, db.jobs[j]);
      ReleaseHasRoom(db, j);
      WorkerIsNotEmployer(db, j);
      var job' := db.jobs[j].(status := Completed, completedAt := Some(now));
      ReleaseRefusedOnlyByFee(db.(jobs := db.jobs[j := job']), j, MAX_DEPOSIT * ConfirmedCount(db));
    }
  }

  lemma OneWalletBounded(db: Db, u: nat)
    requires WalletsFit(db) && u < |db.wallets|
    requires RequestsInBounds(db) && Conserved(db) && DepositTotalMatches(db) && AmountsNotNegative(db)
    ensures db.wallets[u].balance + db.wallets[u].held <= MAX_DEPOSIT * ConfirmedCount(db)
  {
    assert forall i | 0 <= i < |db.wallets| :: WalletFits(db.wallets[i]);
    SumBoundsEach(db.wallets, Funds(), u);
    FundsBounded(db);
  }

  lemma RefundNotRefused(db: Db, j: nat)
    requires Shape(db) && WalletsMatch(db) && WalletsFit(db) && j < |db.jobs| && IsLive(db.jobs[j].status)
    requires var w := db.wallets[db.jobs[j].employer]; w.balance + w.held < BIGINT_LIMIT
    ensures WalletFits(Refunded(db.wallets[db.jobs[j].employer], db.jobs[j].price))
    ensures FitsBig(Min(db.jobs[j].price, db.wallets[db.jobs[j].employer].held))
  {
    RefundIsExact(db, j);
    LiveJobIsCovered(db, j);
    assert WalletFits(db.wallets[db.jobs[j].employer]);
  }

  lemma CancelNeverRefused(db: Db, j: nat, user: nat, reason: string, now: int)
    requires Inv(db) && MAX_DEPOSIT * ConfirmedCount(db) < BIGINT_LIMIT
    ensures CancelJob(db, j, user, reason, now) != Err(Integrity)
  {
    if j < |db.jobs| && IsLive(db.jobs[j].status) {
      OneWalletBounded(db, db.jobs[j].employer);
      RefundNotRefused(db, j);
    }
  }

  lemma CreditFits(req: Request, w: Wallet, externalId: string)
    requires WalletFits(w) && DepositInBounds(req.amount) && w.balance + req.amount < BIGINT_LIMIT
    requires RequestTextsFit(req)
    ensures WalletFits(w.(balance := w.balance + req.amount))
    ensures TxFits(CreditTx(req, w, externalId)) <==> |externalId| <= EXTERNAL_ID_LENGTH
  {
  }

  /** A confirmation is refused only for the length of the identifier it brings. */
  lemma ConfirmRefusedOnlyByText(db: Db, r: nat, externalId: string)
    requires Inv(db) && MAX_DEPOSIT * (ConfirmedCount(db) + 1) < BIGINT_LIMIT
    ensures ConfirmDeposit(db, r, externalId) == Err(Integrity) <==>
            r < |db.requests| && db.requests[r].status == Pending && |externalId| > EXTERNAL_ID_LENGTH
  {
    if r < |db.requests| {
      OneWalletBounded(db, db.requests[r].wallet);
      CreditFits(db.requests[r], db.wallets[db.requests[r].wallet], externalId);
    }
  }

  /** How many confirmed deposits the balance columns have room for. */
  const DEPOSIT_CAPACITY := 922_337_203_685

  /** The calls that a column refuses: a price out of range, a negative payout, or a text too long. */
  ghost predicate ColumnRefuses(db: Db, call: Call)
    requires Shape(db)
  {
    match call
    case Create(u, price) =>
      u < |db.roles| && db.roles[u] == Employer && db.wallets[u].balance >= price && !FitsInteger(price)
    case Complete(j, u) =>
      && j < |db.jobs| && u < |db.roles| && db.jobs[j].status == InProgress && db.jobs[j].employer == u
      && FeeExceedsPrice(db.jobs[j], db.pct)
    case Initiate(u, amount, provider, gateway) =>
      && u < |db.roles| && DepositInBounds(amount)
      && (|provider| > REQUEST_PROVIDER_LENGTH || (gateway.Some? && |gateway.value| > EXTERNAL_ID_LENGTH))
    case Confirm(r, externalId) =>
      r < |db.requests| && db.requests[r].status == Pending && |externalId| > EXTERNAL_ID_LENGTH
    case _ => false
  }

  lemma QuietCallsRefused(db: Db, call: Call, now: int)
    requires Shape(db) && (call.Register? || call.Accept? || call.Start? || call.Initiate?)
    ensures Step(db, call, now) == Err(Integrity) <==> ColumnRefuses(db, call)
  {
  }

  /** Main result: a column refuses a write exactly when a new job's price is out of its range, a commission
      exceeds the price, or a text of a deposit is too long. In particular no clamp, no bare subtraction and no sum leaves its column. */
  lemma RefusedExactly(db: Db, call: Call, now: int)
    requires Inv(db) && ConfirmedCount(db) < DEPOSIT_CAPACITY
    ensures Step(db, call, now) == Err(Integrity) <==> ColumnRefuses(db, call)
  {
    if call.Create? {
      if call.user < |db.roles| { CreateRefusedOnlyByPrice(db, call.user, call.price, now); }
    } else if call.Complete? {
      if call.user < |db.roles| { CompleteRefusedOnlyByFee(db, call.job, call.user, now); }
    } else if call.Cancel? {
      CancelNeverRefused(db, call.job, call.user, call.reason, now);
    } else if call.Confirm? {
      ConfirmRefusedOnlyByText(db, call.request, call.externalId);
    } else {
      QuietCallsRefused(db, call, now);
    }
  }

  /** All four fields of every wallet, in terms of the number of deposits. */
  lemma FieldsWithinColumns(db: Db, u: nat)
    requires Inv(db) && u < |db.wallets| && ConfirmedCount(db) <= DEPOSIT_CAPACITY
    ensures WalletFits(db.wallets[u])
    ensures db.wallets[u].balance <= MAX_DEPOSIT * ConfirmedCount(db)
    ensures db.wallets[u].held <= MAX_DEPOSIT * ConfirmedCount(db)
    ensures db.wallets[u].earned <= MAX_DEPOSIT * ConfirmedCount(db)
    ensures db.wallets[u].spent <= MAX_DEPOSIT * ConfirmedCount(db)
    ensures MAX_DEPOSIT * ConfirmedCount(db) < BIGINT_LIMIT
  {
    FieldsBounded(db, u);
  }

  // ---- Exactly which calls succeed ----

  /** Who may do what, and when. */
  ghost predicate Enabled(db: Db, call: Call)
    requires Shape(db)
  {
    && CallerExists(db, call)
    && match call
       case Register(_) => true
       case Create(u, price) =>
         db.roles[u] == Employer && 0 <= price <= MAX_PRICE && price <= db.wallets[u].balance
       case Accept(j, u) => j < |db.jobs| && db.jobs[j].status == Created && db.roles[u] == Worker
       case Start(j, u) => j < |db.jobs| && db.jobs[j].status == Accepted && db.jobs[j].worker == Some(u)
       case Complete(j, u) =>
         && j < |db.jobs| && db.jobs[j].status == InProgress && db.jobs[j].employer == u
         && !FeeExceedsPrice(db.jobs[j], db.pct)
       case Cancel(j, u, _) =>
         j < |db.jobs| && IsLive(db.jobs[j].status) && (db.jobs[j].employer == u || db.jobs[j].worker == Some(u))
       case Initiate(_, amount, provider, gateway) =>
         && MIN_DEPOSIT <= amount <= MAX_DEPOSIT && |provider| <= REQUEST_PROVIDER_LENGTH
         && gateway.Some? && |gateway.value| <= EXTERNAL_ID_LENGTH
       case Confirm(r, externalId) =>
         r < |db.requests| && db.requests[r].status == Pending && |externalId| <= EXTERNAL_ID_LENGTH
  }

  lemma AcceptExactlyWhenEnabled(db: Db, j: nat, user: nat, now: int)
    requires Shape(db) && JobsOk(db) && user < |db.roles|
    ensures AcceptJob(db, j, user, now).Ok? <==> Enabled(db, Accept(j, user))
  {
    if j < |db.jobs| {
      assert PartiesMatchRoles(db.roles, db.jobs[j]);
    }
  }

  lemma CompleteExactlyWhenEnabled(db: Db, j: nat, user: nat, now: int)
    requires Shape(db) && JobsOk(db) && user < |db.roles|
    requires CompleteJob(db, j, user, now) == Err(Integrity) <==> ColumnRefuses(db, Complete(j, user))
    ensures CompleteJob(db, j, user, now).Ok? <==> Enabled(db, Complete(j, user))
  {
    if j < |db.jobs| {
      assert PartiesMatchRoles(db.roles, db.jobs[j]) && StampsMatchStatus(db.jobs[j]);
    }
  }

  lemma ConfirmExactlyWhenEnabled(db: Db, r: nat, externalId: string)
    requires Shape(db) && RequestsInBounds(db)
    requires ConfirmDeposit(db, r, externalId) == Err(Integrity) <==> ColumnRefuses(db, Confirm(r, externalId))
    ensures ConfirmDeposit(db, r, externalId).Ok? <==> Enabled(db, Confirm(r, externalId))
  {
    if r < |db.requests| {
      assert DepositInBounds(db.requests[r].amount);
    }
  }

  lemma OthersExactlyWhenEnabled(db: Db, call: Call, now: int)
    requires Shape(db) && (Step(db, call, now) == Err(Integrity) <==> ColumnRefuses(db, call))
    requires !call.Accept? && !call.Complete? && !call.Confirm?
    ensures Step(db, call, now).Ok? <==> Enabled(db, call)
  {
  }

  /** Main result: a call succeeds exactly when it is enabled. The remaining checks of the services, and every
      column constraint but that of the price, never decide. */
  lemma SucceedsExactlyWhenEnabled(db: Db, call: Call, now: int)
    requires Inv(db) && ConfirmedCount(db) < DEPOSIT_CAPACITY
    ensures Step(db, call, now).Ok? <==> Enabled(db, call)
  {
    RefusedExactly(db, call, now);
    if call.Accept? {
      if call.user < |db.roles| { AcceptExactlyWhenEnabled(db, call.job, call.user, now); }
    } else if call.Complete? {
      if call.user < |db.roles| { CompleteExactlyWhenEnabled(db, call.job, call.user, now); }
    } else if call.Confirm? {
      ConfirmExactlyWhenEnabled(db, call.request, call.externalId);
    } else {
      OthersExactlyWhenEnabled(db, call, now);
    }
  }
}
