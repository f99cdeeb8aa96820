/** The append-only ledger: its rows chain, they alone give both balances, and no money is made or lost. */
module Books {
  import opened Sums
  import opened Tables
  import opened Marketplace
  import opened Lifecycle
  import opened Escrow

  /** What a row does to the available balance of its wallet. */
  function Signed(kind: Kind, amount: int): int {
    match kind
    case Deposit => amount
    case Refund => amount
    case JobRelease => amount
    case JobPayment => -amount
    case Commission => 0
  }

  predicate IsCredit(kind: Kind) {
    kind == Deposit || kind == Refund || kind == JobRelease
  }

  /** The balance the ledger last recorded for a wallet; an untouched wallet has 0. */
  ghost function Standing(ledger: seq<Tx>, u: nat): int {
    if ledger == [] then 0
    else
      var last := ledger[|ledger| - 1];
      if last.wallet == u then last.after else Standing(ledger[..|ledger| - 1], u)
  }

  /** Every row starts from where its wallet stood and moves it by its signed amount. */
  ghost predicate Chained(ledger: seq<Tx>) {
    ledger == []
    || (var n := |ledger| - 1;
        && Chained(ledger[..n])
        && ledger[n].before == Standing(ledger[..n], ledger[n].wallet)
        && ledger[n].after == ledger[n].before + Signed(ledger[n].kind, ledger[n].amount)
        && (ledger[n].direction == Credit <==> IsCredit(ledger[n].kind)))
  }

  ghost predicate BooksMatch(db: Db) {
    && Chained(db.ledger)
    && (forall u | 0 <= u < |db.wallets| :: Standing(db.ledger, u) == db.wallets[u].balance)
    && (forall i | 0 <= i < |db.ledger| :: db.ledger[i].wallet < |db.wallets|)
    && (forall i | 0 <= i < |db.ledger| :: db.ledger[i].job.Some? ==> db.ledger[i].job.value < |db.jobs|)
  }

  /** Appending one row that starts from the wallet's standing keeps the chain. */
  lemma AppendChains(ledger: seq<Tx>, tx: Tx)
    requires Chained(ledger) && tx.before == Standing(ledger, tx.wallet)
    requires tx.after == tx.before + Signed(tx.kind, tx.amount)
    requires tx.direction == Credit <==> IsCredit(tx.kind)
    ensures Chained(ledger + [tx])
    ensures forall u: nat :: Standing(ledger + [tx], u) == if u == tx.wallet then tx.after else Standing(ledger, u)
  {
    assert (ledger + [tx])[..|ledger|] == ledger;
  }

  lemma {:induction false} StandingOfStranger(ledger: seq<Tx>, u: nat)
    requires forall i | 0 <= i < |ledger| :: ledger[i].wallet != u
    ensures Standing(ledger, u) == 0
  {
    if ledger != [] {
      StandingOfStranger(ledger[..|ledger| - 1], u);
    }
  }

  /** A new row that moves its wallet's balance as it says, and nothing else, keeps the books. */
  lemma RowKeepsBooks(db: Db, db': Db, tx: Tx)
    requires BooksMatch(db) && db'.ledger == db.ledger + [tx]
    requires |db'.wallets| == |db.wallets| && |db.jobs| <= |db'.jobs|
    requires tx.wallet < |db.wallets| && tx.before == db.wallets[tx.wallet].balance
    requires tx.after == tx.before + Signed(tx.kind, tx.amount) && (tx.direction == Credit <==> IsCredit(tx.kind))
    requires tx.job.Some? ==> tx.job.value < |db'.jobs|
    requires forall u | 0 <= u < |db.wallets| ::
               db'.wallets[u].balance == if u == tx.wallet then tx.after else db.wallets[u].balance
    ensures BooksMatch(db')
  {
    AppendChains(db.ledger, tx);
  }

  lemma RegisterKeepsBooks(db: Db, role: Role)
    requires BooksMatch(db)
    ensures BooksMatch(db.(roles := db.roles + [role], wallets := db.wallets + [EMPTY_WALLET]))
  {
    StandingOfStranger(db.ledger, |db.wallets|);
  }

  lemma CreateKeepsBooks(db: Db, user: nat, price: int, now: int)
    requires Shape(db) && BooksMatch(db) && user < |db.roles| && CreateJob(db, user, price, now).Ok?
    ensures BooksMatch(CreateJob(db, user, price, now).value)
  {
    var db' := CreateJob(db, user, price, now).value;
    RowKeepsBooks(db, db', db'.ledger[|db.ledger|]);
  }

  lemma CompleteKeepsBooks(db: Db, j: nat, user: nat, now: int)
    requires Shape(db) && JobsOk(db) && BooksMatch(db) && user < |db.roles|
    requires CompleteJob(db, j, user, now).Ok?
    ensures BooksMatch(CompleteJob(db, j, user, now).value)
  {
    var db' := CompleteJob(db, j, user, now).value;
    WorkerIsNotEmployer(db, j);
    var fee, pay := db'.ledger[|db.ledger|], db'.ledger[|db.ledger| + 1];
    var charged := db.(ledger := db.ledger + [fee]);
    RowKeepsBooks(db, charged, fee);
    RowKeepsBooks(charged, db', pay);
  }

  lemma CancelKeepsBooks(db: Db, j: nat, user: nat, reason: string, now: int)
    requires Shape(db) && WalletsMatch(db) && BooksMatch(db)
    requires CancelJob(db, j, user, reason, now).Ok?
    ensures BooksMatch(CancelJob(db, j, user, reason, now).value)
  {
    var db' := CancelJob(db, j, user, reason, now).value;
    RowKeepsBooks(db, db', db'.ledger[|db.ledger|]);
  }

  lemma ConfirmKeepsBooks(db: Db, r: nat, externalId: string)
    requires Shape(db) && BooksMatch(db) && ConfirmDeposit(db, r, externalId).Ok?
    ensures BooksMatch(ConfirmDeposit(db, r, externalId).value)
  {
    var db' := ConfirmDeposit(db, r, externalId).value;
    RowKeepsBooks(db, db', db'.ledger[|db.ledger|]);
  }

  lemma StepKeepsBooks(db: Db, call: Call, now: int)
    requires Shape(db) && Step(db, call, now).Ok?
    requires JobsOk(db) && WalletsMatch(db) && BooksMatch(db)
    ensures BooksMatch(Step(db, call, now).value)
  {
    match call
    case Register(role) => RegisterKeepsBooks(db, role);
    case Create(u, price) => CreateKeepsBooks(db, u, price, now);
    case Accept(_, _) =>
    case Start(_, _) =>
    case Complete(j, u) => CompleteKeepsBooks(db, j, u, now);
    case Cancel(j, u, reason) => CancelKeepsBooks(db, j, u, reason, now);
    case Initiate(_, _, _, _) =>
    case Confirm(r, externalId) => ConfirmKeepsBooks(db, r, externalId);
  }

  lemma {:induction false} StandingAt(ledger: seq<Tx>, i: nat)
    requires i < |ledger|
    requires forall m | i < m < |ledger| :: ledger[m].wallet != ledger[i].wallet
    ensures Standing(ledger, ledger[i].wallet) == ledger[i].after
  {
    if i < |ledger| - 1 {
      StandingAt(ledger[..|ledger| - 1], i);
    }
  }

  /** Consecutive rows of one wallet meet: the later one starts where the earlier one ended. */
  lemma {:induction false} ConsecutiveRowsMeet(ledger: seq<Tx>, i: nat, k: nat)
    requires Chained(ledger) && i < k < |ledger|
    requires ledger[i].wallet == ledger[k].wallet
    requires forall m | i < m < k :: ledger[m].wallet != ledger[k].wallet
    ensures ledger[k].before == ledger[i].after
    decreases |ledger|
  {
    if k < |ledger| - 1 {
      ConsecutiveRowsMeet(ledger[..|ledger| - 1], i, k);
    } else {
      StandingAt(ledger[..k], i);
    }
  }

  // ---- Balances from the ledger alone ----

  function Net(u: nat): Tx -> int {
    (tx: Tx) => if tx.wallet == u then Signed(tx.kind, tx.amount) else 0
  }

  function OfKind(u: nat, kind: Kind): Tx -> int {
    (tx: Tx) => if tx.wallet == u && tx.kind == kind then tx.amount else 0
  }

  lemma {:induction false} StandingIsNet(ledger: seq<Tx>, u: nat)
    requires Chained(ledger)
    ensures Standing(ledger, u) == Sum(ledger, Net(u))
  {
    if ledger != [] {
      StandingIsNet(ledger[..|ledger| - 1], u);
    }
  }

  lemma {:induction false} NetByKind(ledger: seq<Tx>, u: nat)
    ensures Sum(ledger, Net(u)) ==
            Sum(ledger, OfKind(u, Deposit)) + Sum(ledger, OfKind(u, Refund)) + Sum(ledger, OfKind(u, JobRelease))
            - Sum(ledger, OfKind(u, JobPayment))
  {
    if ledger != [] {
      NetByKind(ledger[..|ledger| - 1], u);
    }
  }

  /** Main result: the ledger alone gives every available balance. */
  lemma BalanceFromLedger(db: Db, u: nat)
    requires BooksMatch(db) && u < |db.wallets|
    ensures db.wallets[u].balance ==
            Sum(db.ledger, OfKind(u, Deposit)) + Sum(db.ledger, OfKind(u, Refund))
            + Sum(db.ledger, OfKind(u, JobRelease)) - Sum(db.ledger, OfKind(u, JobPayment))
  {
    StandingIsNet(db.ledger, u);
    NetByKind(db.ledger, u);
  }

  /** What a row does to the escrow of employer e: releases count against the employer who funded the job. */
  function EscrowFlow(jobs: seq<Job>, e: nat): Tx -> int {
    (tx: Tx) =>
      if tx.kind == JobPayment && tx.wallet == e then tx.amount
      else if (tx.kind == Refund || tx.kind == Kind.Commission) && tx.wallet == e then -tx.amount
      else if tx.kind == JobRelease && tx.job.Some? && tx.job.value < |jobs| && jobs[tx.job.value].employer == e
      then -tx.amount
      else 0
  }

  ghost predicate EscrowMatchesLedger(db: Db) {
    forall e | 0 <= e < |db.wallets| :: db.wallets[e].held == Sum(db.ledger, EscrowFlow(db.jobs, e))
  }

  /** The flow reads nothing of a job but its employer. */
  lemma FlowReadsEmployersOnly(db: Db, jobs: seq<Job>, e: nat)
    requires BooksMatch(db) && |db.jobs| <= |jobs|
    requires forall j | 0 <= j < |db.jobs| :: jobs[j].employer == db.jobs[j].employer
    ensures Sum(db.ledger, EscrowFlow(jobs, e)) == Sum(db.ledger, EscrowFlow(db.jobs, e))
  {
    SumSame(db.ledger, EscrowFlow(jobs, e), EscrowFlow(db.jobs, e));
  }

  lemma SumOfTwo(ledger: seq<Tx>, a: Tx, b: Tx, weight: Tx -> int)
    ensures Sum(ledger + [a, b], weight) == Sum(ledger, weight) + weight(a) + weight(b)
  {
    SumSnoc(ledger, a, weight);
    SumSnoc(ledger + [a], b, weight);
    assert ledger + [a, b] == ledger + [a] + [b];
  }

  /** What a batch of at most two new rows does to an escrow. */
  function FlowOf(jobs: seq<Job>, e: nat, rows: seq<Tx>): int {
    (if |rows| >= 1 then EscrowFlow(jobs, e)(rows[0]) else 0) + (if |rows| >= 2 then EscrowFlow(jobs, e)(rows[1]) else 0)
  }

  lemma SumWithBatch(ledger: seq<Tx>, rows: seq<Tx>, jobs: seq<Job>, e: nat)
    requires |rows| <= 2
    ensures Sum(ledger + rows, EscrowFlow(jobs, e)) == Sum(ledger, EscrowFlow(jobs, e)) + FlowOf(jobs, e, rows)
  {
    if |rows| == 0 {
      assert ledger + rows == ledger;
    } else if |rows| == 1 {
      assert rows == [rows[0]];
      SumSnoc(ledger, rows[0], EscrowFlow(jobs, e));
    } else {
      assert rows == [rows[0], rows[1]];
      SumOfTwo(ledger, rows[0], rows[1], EscrowFlow(jobs, e));
    }
  }

  /** Rows whose flow equals the change of escrow keep the match. */
  lemma RowsKeepEscrowMatch(db: Db, db': Db, rows: seq<Tx>)
    requires BooksMatch(db) && EscrowMatchesLedger(db)
    requires db'.ledger == db.ledger + rows && |rows| <= 2
    requires |db'.wallets| == |db.wallets| && |db.jobs| <= |db'.jobs|
    requires forall j | 0 <= j < |db.jobs| :: db'.jobs[j].employer == db.jobs[j].employer
    requires forall e | 0 <= e < |db.wallets| ::
               db'.wallets[e].held == db.wallets[e].held + FlowOf(db'.jobs, e, rows)
    ensures EscrowMatchesLedger(db')
  {
    forall e | 0 <= e < |db'.wallets| ensures db'.wallets[e].held == Sum(db'.ledger, EscrowFlow(db'.jobs, e)) {
      FlowReadsEmployersOnly(db, db'.jobs, e);
      SumWithBatch(db.ledger, rows, db'.jobs, e);
    }
  }

  lemma NoRowKeepsEscrowMatch(db: Db, db': Db)
    requires BooksMatch(db) && EscrowMatchesLedger(db)
    requires db'.ledger == db.ledger && db'.wallets == db.wallets && |db.jobs| <= |db'.jobs|
    requires forall j | 0 <= j < |db.jobs| :: db'.jobs[j].employer == db.jobs[j].employer
    ensures EscrowMatchesLedger(db')
  {
    assert db.ledger + [] == db.ledger;
    RowsKeepEscrowMatch(db, db', []);
  }

  lemma CompleteKeepsEscrowMatch(db: Db, j: nat, user: nat, now: int)
    requires Shape(db) && JobsOk(db) && BooksMatch(db) && EscrowMatchesLedger(db) && user < |db.roles|
    requires CompleteJob(db, j, user, now).Ok?
    ensures EscrowMatchesLedger(CompleteJob(db, j, user, now).value)
  {
    var db' := CompleteJob(db, j, user, now).value;
    WorkerIsNotEmployer(db, j);
    var n := |db.ledger|;
    RowsKeepEscrowMatch(db, db', [db'.ledger[n], db'.ledger[n + 1]]);
  }

  lemma CancelKeepsEscrowMatch(db: Db, j: nat, user: nat, reason: string, now: int)
    requires Shape(db) && WalletsMatch(db) && BooksMatch(db) && EscrowMatchesLedger(db)
    requires CancelJob(db, j, user, reason, now).Ok?
    ensures EscrowMatchesLedger(CancelJob(db, j, user, reason, now).value)
  {
    var db' := CancelJob(db, j, user, reason, now).value;
    RefundIsExact(db, j);
    RowsKeepEscrowMatch(db, db', [db'.ledger[|db.ledger|]]);
  }

  lemma CreateKeepsEscrowMatch(db: Db, user: nat, price: int, now: int)
    requires Shape(db) && BooksMatch(db) && EscrowMatchesLedger(db)
    requires user < |db.roles| && CreateJob(db, user, price, now).Ok?
    ensures EscrowMatchesLedger(CreateJob(db, user, price, now).value)
  {
    var db' := CreateJob(db, user, price, now).value;
    RowsKeepEscrowMatch(db, db', [db'.ledger[|db.ledger|]]);
  }

  lemma ConfirmKeepsEscrowMatch(db: Db, r: nat, externalId: string)
    requires Shape(db) && BooksMatch(db) && EscrowMatchesLedger(db)
    requires ConfirmDeposit(db, r, externalId).Ok?
    ensures EscrowMatchesLedger(ConfirmDeposit(db, r, externalId).value)
  {
    var db' := ConfirmDeposit(db, r, externalId).value;
    RowsKeepEscrowMatch(db, db', [db'.ledger[|db.ledger|]]);
  }

  lemma NoFlowForStranger(db: Db, e: nat)
    requires Shape(db) && BooksMatch(db) && e == |db.wallets|
    ensures Sum(db.ledger, EscrowFlow(db.jobs, e)) == 0
  {
    SumZero(db.ledger, EscrowFlow(db.jobs, e));
  }

  lemma RegisterKeepsEscrowMatch(db: Db, role: Role)
    requires Shape(db) && BooksMatch(db) && EscrowMatchesLedger(db)
    ensures EscrowMatchesLedger(db.(roles := db.roles + [role], wallets := db.wallets + [EMPTY_WALLET]))
  {
    NoFlowForStranger(db, |db.wallets|);
  }

  /** Main result: the ledger gives every escrow too, with the funders of the jobs. */
  lemma StepKeepsEscrowMatch(db: Db, call: Call, now: int)
    requires Shape(db) && Step(db, call, now).Ok?
    requires JobsOk(db) && WalletsMatch(db) && BooksMatch(db) && EscrowMatchesLedger(db)
    ensures EscrowMatchesLedger(Step(db, call, now).value)
  {
    match call
    case Register(role) => RegisterKeepsEscrowMatch(db, role);
    case Create(u, price) => CreateKeepsEscrowMatch(db, u, price, now);
    case Accept(_, _) => NoRowKeepsEscrowMatch(db, Step(db, call, now).value);
    case Start(_, _) => NoRowKeepsEscrowMatch(db, Step(db, call, now).value);
    case Complete(j, u) => CompleteKeepsEscrowMatch(db, j, u, now);
    case Cancel(j, u, reason) => CancelKeepsEscrowMatch(db, j, u, reason, now);
    case Initiate(_, _, _, _) => NoRowKeepsEscrowMatch(db, Step(db, call, now).value);
    case Confirm(r, externalId) => ConfirmKeepsEscrowMatch(db, r, externalId);
  }

  // ---- Conservation ----

  function Funds(): Wallet -> int {
    (w: Wallet) => w.balance + w.held
  }

  function Amount(kind: Kind): Tx -> int {
    (tx: Tx) => if tx.kind == kind then tx.amount else 0
  }

  /** All money in wallets, plus all commission ever taken, is all money ever deposited. */
  ghost predicate Conserved(db: Db) {
    Sum(db.wallets, Funds()) + Sum(db.ledger, Amount(Kind.Commission)) == Sum(db.ledger, Amount(Deposit))
  }

  lemma OneWalletOneRow(db: Db, db': Db, u: nat)
    requires u < |db.wallets| == |db'.wallets| && db'.wallets == db.wallets[u := db'.wallets[u]]
    requires |db'.ledger| == |db.ledger| + 1 && db'.ledger[..|db.ledger|] == db.ledger
    requires var tx := db'.ledger[|db.ledger|];
             Funds()(db'.wallets[u]) + Amount(Kind.Commission)(tx) == Funds()(db.wallets[u]) + Amount(Deposit)(tx)
    requires Conserved(db)
    ensures Conserved(db')
  {
    var tx := db'.ledger[|db.ledger|];
    assert db'.ledger == db.ledger + [tx];
    SumUpdate(db.wallets, u, db'.wallets[u], Funds());
    SumSnoc(db.ledger, tx, Amount(Kind.Commission));
    SumSnoc(db.ledger, tx, Amount(Deposit));
  }

  lemma CreateConserves(db: Db, user: nat, price: int, now: int)
    requires Shape(db) && Conserved(db) && user < |db.roles| && CreateJob(db, user, price, now).Ok?
    ensures Conserved(CreateJob(db, user, price, now).value)
  {
    OneWalletOneRow(db, CreateJob(db, user, price, now).value, user);
  }

  lemma CancelConserves(db: Db, j: nat, user: nat, reason: string, now: int)
    requires Shape(db) && Conserved(db) && CancelJob(db, j, user, reason, now).Ok?
    ensures Conserved(CancelJob(db, j, user, reason, now).value)
  {
    OneWalletOneRow(db, CancelJob(db, j, user, reason, now).value, db.jobs[j].employer);
  }

  lemma ConfirmConserves(db: Db, r: nat, externalId: string)
    requires Shape(db) && Conserved(db) && ConfirmDeposit(db, r, externalId).Ok?
    ensures Conserved(ConfirmDeposit(db, r, externalId).value)
  {
    OneWalletOneRow(db, ConfirmDeposit(db, r, externalId).value, db.requests[r].wallet);
  }

  lemma CompleteConserves(db: Db, j: nat, e: nat, now: int)
    requires Shape(db) && JobsOk(db) && Conserved(db) && e < |db.roles| && CompleteJob(db, j, e, now).Ok?
    ensures Conserved(CompleteJob(db, j, e, now).value)
  {
    var db' := CompleteJob(db, j, e, now).value;
    WorkerIsNotEmployer(db, j);
    var n, w := |db.ledger|, db.jobs[j].worker.value;
    var fee, pay := db'.ledger[n], db'.ledger[n + 1];
    assert db'.wallets == db.wallets[e := db'.wallets[e]][w := db'.wallets[w]];
    assert db'.ledger == db.ledger + [fee, pay];
    SumUpdate(db.wallets, e, db'.wallets[e], Funds());
    SumUpdate(db.wallets[e := db'.wallets[e]], w, db'.wallets[w], Funds());
    SumOfTwo(db.ledger, fee, pay, Amount(Kind.Commission));
    SumOfTwo(db.ledger, fee, pay, Amount(Deposit));
  }

  /** Main result: no successful call makes or loses money. */
  lemma StepConserves(db: Db, call: Call, now: int)
    requires Shape(db) && Step(db, call, now).Ok?
    requires JobsOk(db) && Conserved(db)
    ensures Conserved(Step(db, call, now).value)
  {
    match call
    case Register(_) => SumSnoc(db.wallets, EMPTY_WALLET, Funds());
    case Create(u, price) => CreateConserves(db, u, price, now);
    case Accept(_, _) =>
    case Start(_, _) =>
    case Complete(j, u) => CompleteConserves(db, j, u, now);
    case Cancel(j, u, reason) => CancelConserves(db, j, u, reason, now);
    case Initiate(_, _, _, _) =>
    case Confirm(r, externalId) => ConfirmConserves(db, r, externalId);
  }
}
