/** Deposits are credited exactly once, and bound everything a wallet can ever hold. */
module Deposits {
  import opened Wrappers
  import opened Sums
  import opened Tables
  import opened Marketplace
  import opened Lifecycle
  import opened Escrow
  import opened Books

  ghost predicate RequestsInBounds(db: Db) {
    forall r | 0 <= r < |db.requests| :: DepositInBounds(db.requests[r].amount) && RequestTextsFit(db.requests[r])
  }

  /** The deposit rows in ledger order. */
  ghost function DepositRows(ledger: seq<Tx>): seq<Tx> {
    if ledger == [] then []
    else
      var tx := ledger[|ledger| - 1];
      DepositRows(ledger[..|ledger| - 1]) + if tx.kind == Deposit then [tx] else []
  }

  predicate RowCredits(tx: Tx, req: Request) {
    && req.status == Confirmed
    && tx.wallet == req.wallet && tx.amount == req.amount && tx.provider == req.provider
    && (req.externalId != "" ==> tx.externalId != "")
  }

  /** `order` lists the confirmed requests, each once, in the order of their ledger rows. */
  ghost predicate Pairs(db: Db, order: seq<nat>) {
    var rows := DepositRows(db.ledger);
    && |order| == |rows|
    && (forall i | 0 <= i < |order| :: order[i] < |db.requests| && RowCredits(rows[i], db.requests[order[i]]))
    && (forall i, k | 0 <= i < k < |order| :: order[i] != order[k])
    && (forall r: nat | r < |db.requests| :: db.requests[r].status == Confirmed ==> r in order)
  }

  /** Confirmed requests and deposit rows correspond one to one; pending requests have no row. */
  ghost predicate DepositsMatch(db: Db) {
    exists order: seq<nat> :: Pairs(db, order)
  }

  lemma DepositRowsSnoc(ledger: seq<Tx>, tx: Tx)
    ensures DepositRows(ledger + [tx]) == DepositRows(ledger) + if tx.kind == Deposit then [tx] else []
  {
    assert (ledger + [tx])[..|ledger|] == ledger;
  }

  lemma SameRowsKeepDeposits(db: Db, db': Db)
    requires DepositsMatch(db) && db'.requests == db.requests
    requires DepositRows(db'.ledger) == DepositRows(db.ledger)
    ensures DepositsMatch(db')
  {
    var order: seq<nat> :| Pairs(db, order);
    assert Pairs(db', order);
  }

  /** Creating, completing and cancelling a job write no deposit row. */
  lemma JobCallsWriteNoDeposit(db: Db, call: Call, now: int)
    requires Shape(db) && Step(db, call, now).Ok? && !call.Confirm?
    ensures DepositRows(Step(db, call, now).value.ledger) == DepositRows(db.ledger)
    ensures !call.Initiate? ==> Step(db, call, now).value.requests == db.requests
  {
    var ledger', n := Step(db, call, now).value.ledger, |db.ledger|;
    if |ledger'| == n {
      assert ledger' == db.ledger;
    } else if |ledger'| == n + 1 {
      assert ledger' == db.ledger + [ledger'[n]];
      DepositRowsSnoc(db.ledger, ledger'[n]);
    } else {
      assert ledger' == db.ledger + [ledger'[n]] + [ledger'[n + 1]];
      DepositRowsSnoc(db.ledger, ledger'[n]);
      DepositRowsSnoc(db.ledger + [ledger'[n]], ledger'[n + 1]);
    }
  }

  lemma InitiateKeepsDeposits(db: Db, user: nat, amount: int, provider: string, gateway: Option<string>)
    requires Shape(db) && DepositsMatch(db) && user < |db.roles|
    requires InitiateDeposit(db, user, amount, provider, gateway).Ok?
    ensures DepositsMatch(InitiateDeposit(db, user, amount, provider, gateway).value)
  {
    var order: seq<nat> :| Pairs(db, order);
    assert Pairs(InitiateDeposit(db, user, amount, provider, gateway).value, order);
  }

  /** Confirming a pending request appends its row and its pair. */
  lemma PairConfirmed(db: Db, db': Db, order: seq<nat>, r: nat, tx: Tx)
    requires Pairs(db, order) && r < |db.requests| && db.requests[r].status == Pending
    requires db'.requests == db.requests[r := db.requests[r].(status := Confirmed)]
    requires DepositRows(db'.ledger) == DepositRows(db.ledger) + [tx]
    requires RowCredits(tx, db'.requests[r])
    ensures Pairs(db', order + [r])
  {
    var rows, rows' := DepositRows(db.ledger), DepositRows(db'.ledger);
    var order' := order + [r];
    forall i | 0 <= i < |order'|
      ensures order'[i] < |db'.requests| && RowCredits(rows'[i], db'.requests[order'[i]])
    {
      if i < |order| {
        assert RowCredits(rows[i], db.requests[order[i]]);
      }
    }
    forall k: nat | k < |db'.requests| && db'.requests[k].status == Confirmed ensures k in order' {
      if k == r {
        assert order'[|order|] == k;
      } else {
        var i :| 0 <= i < |order| && order[i] == k;
        assert order'[i] == k;
      }
    }
  }

  lemma ConfirmKeepsDeposits(db: Db, r: nat, externalId: string)
    requires Shape(db) && DepositsMatch(db) && ConfirmDeposit(db, r, externalId).Ok?
    ensures DepositsMatch(ConfirmDeposit(db, r, externalId).value)
  {
    var db' := ConfirmDeposit(db, r, externalId).value;
    var tx := db'.ledger[|db.ledger|];
    DepositRowsSnoc(db.ledger, tx);
    var order: seq<nat> :| Pairs(db, order);
    PairConfirmed(db, db', order, r, tx);
  }

  lemma StepKeepsDeposits(db: Db, call: Call, now: int)
    requires Shape(db) && Step(db, call, now).Ok?
    requires DepositsMatch(db)
    ensures DepositsMatch(Step(db, call, now).value)
  {
    if call.Confirm? {
      ConfirmKeepsDeposits(db, call.request, call.externalId);
    } else if call.Initiate? {
      InitiateKeepsDeposits(db, call.user, call.amount, call.provider, call.gateway);
    } else {
      JobCallsWriteNoDeposit(db, call, now);
      SameRowsKeepDeposits(db, Step(db, call, now).value);
    }
  }

  lemma StepKeepsRequestBounds(db: Db, call: Call, now: int)
    requires Shape(db) && Step(db, call, now).Ok?
    requires RequestsInBounds(db)
    ensures RequestsInBounds(Step(db, call, now).value)
  {
  }

  /** A confirmed request cannot be confirmed again, and one that came from the service always passes the
      repeated bounds check: only a column can refuse it. */
  lemma ConfirmOutcome(db: Db, r: nat, externalId: string)
    requires Shape(db) && RequestsInBounds(db) && r < |db.requests|
    ensures db.requests[r].status == Confirmed ==> ConfirmDeposit(db, r, externalId) == Err(Validation)
    ensures db.requests[r].status == Pending ==>
              ConfirmDeposit(db, r, externalId).Ok? || ConfirmDeposit(db, r, externalId) == Err(Integrity)
  {
    assert DepositInBounds(db.requests[r].amount);
  }

  // ---- How large a wallet can get ----

  function IsConfirmed(): Request -> int {
    (r: Request) => if r.status == Confirmed then 1 else 0
  }

  function ConfirmedAmount(): Request -> int {
    (r: Request) => if r.status == Confirmed then r.amount else 0
  }

  function ConfirmedCount(db: Db): int {
    Sum(db.requests, IsConfirmed())
  }

  lemma {:induction false} CreditsBounded(requests: seq<Request>, u: nat)
    requires forall r | 0 <= r < |requests| :: DepositInBounds(requests[r].amount)
    ensures 0 <= Sum(requests, Credited(u)) <= MAX_DEPOSIT * Sum(requests, IsConfirmed())
    ensures Sum(requests, ConfirmedAmount()) <= MAX_DEPOSIT * Sum(requests, IsConfirmed())
  {
    if requests != [] {
      CreditsBounded(requests[..|requests| - 1], u);
    }
  }

  ghost predicate DepositTotalMatches(db: Db) {
    Sum(db.ledger, Amount(Deposit)) == Sum(db.requests, ConfirmedAmount())
  }

  lemma DepositBothSides(db: Db, r: nat, row: Tx, paid: Request)
    requires DepositTotalMatches(db) && r < |db.requests| && db.requests[r].status == Pending
    requires paid.status == Confirmed && row.kind == Deposit && row.amount == paid.amount
    ensures Sum(db.ledger + [row], Amount(Deposit)) == Sum(db.requests[r := paid], ConfirmedAmount())
  {
    SumSnoc(db.ledger, row, Amount(Deposit));
    SumUpdate(db.requests, r, paid, ConfirmedAmount());
  }

  lemma ConfirmKeepsDepositTotal(db: Db, r: nat, externalId: string)
    requires Shape(db) && DepositTotalMatches(db) && ConfirmDeposit(db, r, externalId).Ok?
    ensures DepositTotalMatches(ConfirmDeposit(db, r, externalId).value)
  {
    var db' := ConfirmDeposit(db, r, externalId).value;
    var row, paid := db'.ledger[|db.ledger|], db'.requests[r];
    assert db'.ledger == db.ledger + [row] && db'.requests == db.requests[r := paid];
    DepositBothSides(db, r, row, paid);
  }

  lemma CancelAddsNoDeposit(db: Db, call: Call, now: int)
    requires Shape(db) && call.Cancel? && Step(db, call, now).Ok?
    ensures Sum(Step(db, call, now).value.ledger, Amount(Deposit)) == Sum(db.ledger, Amount(Deposit))
  {
    SumSnoc(db.ledger, Step(db, call, now).value.ledger[|db.ledger|], Amount(Deposit));
  }

  lemma CompleteAddsNoDeposit(db: Db, call: Call, now: int)
    requires Shape(db) && call.Complete? && Step(db, call, now).Ok?
    ensures Sum(Step(db, call, now).value.ledger, Amount(Deposit)) == Sum(db.ledger, Amount(Deposit))
  {
    var db', n := Step(db, call, now).value, |db.ledger|;
    assert db'.ledger == db.ledger + [db'.ledger[n], db'.ledger[n + 1]];
    SumOfTwo(db.ledger, db'.ledger[n], db'.ledger[n + 1], Amount(Deposit));
  }

  lemma StepKeepsDepositTotal(db: Db, call: Call, now: int)
    requires Shape(db) && Step(db, call, now).Ok?
    requires DepositTotalMatches(db)
    ensures DepositTotalMatches(Step(db, call, now).value)
  {
    var db' := Step(db, call, now).value;
    match call
    case Register(_) =>
    case Accept(_, _) =>
    case Start(_, _) =>
    case Create(_, _) => SumSnoc(db.ledger, db'.ledger[|db.ledger|], Amount(Deposit));
    case Complete(_, _) => CompleteAddsNoDeposit(db, call, now);
    case Cancel(_, _, _) => CancelAddsNoDeposit(db, call, now);
    case Initiate(_, _, _, _) => SumSnoc(db.requests, db'.requests[|db.requests|], ConfirmedAmount());
    case Confirm(r, externalId) => ConfirmKeepsDepositTotal(db, r, externalId);
  }

  /** Employers earn nothing and workers spend nothing. */
  lemma MoneyNeverRecirculates(db: Db, u: nat)
    requires Shape(db) && JobsOk(db) && WalletsMatch(db) && u < |db.roles|
    ensures db.roles[u] == Employer ==> db.wallets[u].earned == 0
    ensures db.roles[u] == Worker ==> db.wallets[u].spent == 0 && db.wallets[u].held == 0
  {
    assert db.wallets[u] == ImpliedWallet(db, u);
    assert forall j | 0 <= j < |db.jobs| :: PartiesMatchRoles(db.roles, db.jobs[j]);
    if db.roles[u] == Employer {
      SumZero(db.jobs, Worked(u, db.pct));
    } else {
      SumZero(db.jobs, Funded(u));
      SumZero(db.jobs, Live(u));
    }
  }

  ghost predicate AmountsNotNegative(db: Db) {
    forall i | 0 <= i < |db.ledger| :: db.ledger[i].amount >= 0
  }

  lemma StepKeepsAmountsNotNegative(db: Db, call: Call, now: int)
    requires Shape(db) && Step(db, call, now).Ok?
    requires AmountsNotNegative(db)
    ensures AmountsNotNegative(Step(db, call, now).value)
  {
  }

  lemma FeesNotNegative(db: Db)
    requires AmountsNotNegative(db)
    ensures Sum(db.ledger, Amount(Kind.Commission)) >= 0
  {
    SumNonNegative(db.ledger, Amount(Kind.Commission));
  }

  /** Main result: after n confirmed deposits, no wallet field exceeds n times the largest deposit. */
  lemma FieldsBounded(db: Db, u: nat)
    requires Shape(db) && JobsOk(db) && WalletsMatch(db) && WalletsFit(db) && RequestsInBounds(db)
    requires Conserved(db) && DepositTotalMatches(db)
    requires AmountsNotNegative(db)
    requires u < |db.wallets|
    ensures var w, bound := db.wallets[u], MAX_DEPOSIT * ConfirmedCount(db);
            w.balance <= bound && w.held <= bound && w.earned <= bound && w.spent <= bound
  {
    assert db.wallets[u] == ImpliedWallet(db, u);
    CreditsBounded(db.requests, u);
    MoneyNeverRecirculates(db, u);
    FeesNotNegative(db);
    assert forall v | 0 <= v < |db.wallets| :: WalletFits(db.wallets[v]);
    SumBoundsEach(db.wallets, Funds(), u);
  }
}
