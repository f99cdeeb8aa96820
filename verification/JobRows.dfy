/** The ledger rows of one job follow its status, and the commission they add up to is bounded. */
module JobRows {
  import opened Wrappers
  import opened Sums
  import opened Tables
  import opened Marketplace
  import opened Lifecycle
  import opened Escrow
  import opened Books
  import Commission
  import Rounding

  /** What a ledger row says of its job. */
  datatype Posting = Posting(kind: Kind, wallet: nat, amount: int, provider: string, externalId: string)

  function Post(tx: Tx): Posting {
    Posting(tx.kind, tx.wallet, tx.amount, tx.provider, tx.externalId)
  }

  /** A row of the marketplace's own making. */
  function Internal(kind: Kind, wallet: nat, amount: int): Posting {
    Posting(kind, wallet, amount, "internal", "")
  }

  /** The postings of job j in ledger order. */
  ghost function PostingsOf(ledger: seq<Tx>, j: nat): seq<Posting> {
    if ledger == [] then []
    else
      var tx := ledger[|ledger| - 1];
      PostingsOf(ledger[..|ledger| - 1], j)
      + if tx.job == Some(j) then [Post(tx)] else []
  }

  /** The postings a job's row implies: paid in once, then either split between commission and worker,
      or refunded whole. */
  ghost function ImpliedPostings(job: Job, pct: nat): seq<Posting> {
    if job.price < 0 then []
    else
      [Internal(JobPayment, job.employer, job.price)]
      + match job.status
        case Completed =>
          [Internal(Kind.Commission, job.employer, Commission.Fee(job.price, pct))]
          + (if job.worker.Some? then [Internal(JobRelease, job.worker.value, Payout(job.price, pct))] else [])
        case Cancelled => [Internal(Refund, job.employer, job.price)]
        case _ => []
  }

  ghost predicate JobRowsMatch(db: Db) {
    forall j | 0 <= j < |db.jobs| :: PostingsOf(db.ledger, j) == ImpliedPostings(db.jobs[j], db.pct)
  }

  lemma PostOne(ledger: seq<Tx>, tx: Tx, j: nat)
    ensures PostingsOf(ledger + [tx], j) ==
            PostingsOf(ledger, j) + if tx.job == Some(j) then [Post(tx)] else []
  {
    assert (ledger + [tx])[..|ledger|] == ledger;
  }

  lemma {:induction false} NoPostings(ledger: seq<Tx>, j: nat)
    requires forall i | 0 <= i < |ledger| :: ledger[i].job != Some(j)
    ensures PostingsOf(ledger, j) == []
  {
    if ledger != [] {
      NoPostings(ledger[..|ledger| - 1], j);
    }
  }

  lemma FirstPosting(db: Db, tx: Tx)
    requires BooksMatch(db) && tx.job == Some(|db.jobs|)
    ensures PostingsOf(db.ledger + [tx], |db.jobs|) == [Post(tx)]
  {
    NoPostings(db.ledger, |db.jobs|);
    PostOne(db.ledger, tx, |db.jobs|);
  }

  /** One new row leaves the postings of every other job as they were. */
  lemma OtherRowsKept(db: Db, db': Db, tx: Tx, i: nat)
    requires JobRowsMatch(db) && i < |db.jobs| <= |db'.jobs|
    requires db'.jobs[i] == db.jobs[i] && db'.pct == db.pct
    requires db'.ledger == db.ledger + [tx] && tx.job != Some(i)
    ensures PostingsOf(db'.ledger, i) == ImpliedPostings(db'.jobs[i], db'.pct)
  {
    PostOne(db.ledger, tx, i);
  }

  lemma CreateKeepsJobRows(db: Db, user: nat, price: int, now: int)
    requires Shape(db) && BooksMatch(db) && JobRowsMatch(db)
    requires user < |db.roles| && CreateJob(db, user, price, now).Ok?
    ensures JobRowsMatch(CreateJob(db, user, price, now).value)
  {
    var db' := CreateJob(db, user, price, now).value;
    forall j | 0 <= j < |db'.jobs| ensures PostingsOf(db'.ledger, j) == ImpliedPostings(db'.jobs[j], db'.pct) {
      if j == |db.jobs| {
        FirstPosting(db, db'.ledger[|db.ledger|]);
      } else {
        OtherRowsKept(db, db', db'.ledger[|db.ledger|], j);
      }
    }
  }

  lemma CompleteKeepsJobRows(db: Db, j: nat, user: nat, now: int)
    requires Shape(db) && JobRowsMatch(db) && user < |db.roles|
    requires CompleteJob(db, j, user, now).Ok?
    ensures JobRowsMatch(CompleteJob(db, j, user, now).value)
  {
    var db' := CompleteJob(db, j, user, now).value;
    var n := |db.ledger|;
    var fee, pay := db'.ledger[n], db'.ledger[n + 1];
    assert db'.ledger == db.ledger + [fee] + [pay];
    forall i | 0 <= i < |db'.jobs| ensures PostingsOf(db'.ledger, i) == ImpliedPostings(db'.jobs[i], db'.pct) {
      PostOne(db.ledger, fee, i);
      PostOne(db.ledger + [fee], pay, i);
    }
  }

  lemma CancelKeepsJobRows(db: Db, j: nat, user: nat, reason: string, now: int)
    requires Shape(db) && WalletsMatch(db) && JobRowsMatch(db)
    requires CancelJob(db, j, user, reason, now).Ok?
    ensures JobRowsMatch(CancelJob(db, j, user, reason, now).value)
  {
    var db' := CancelJob(db, j, user, reason, now).value;
    RefundIsExact(db, j);
    forall i | 0 <= i < |db'.jobs| ensures PostingsOf(db'.ledger, i) == ImpliedPostings(db'.jobs[i], db'.pct) {
      if i == j {
        PostOne(db.ledger, db'.ledger[|db.ledger|], j);
      } else {
        OtherRowsKept(db, db', db'.ledger[|db.ledger|], i);
      }
    }
  }

  lemma ConfirmKeepsJobRows(db: Db, r: nat, externalId: string)
    requires Shape(db) && JobRowsMatch(db) && ConfirmDeposit(db, r, externalId).Ok?
    ensures JobRowsMatch(ConfirmDeposit(db, r, externalId).value)
  {
    var db' := ConfirmDeposit(db, r, externalId).value;
    forall i | 0 <= i < |db'.jobs| ensures PostingsOf(db'.ledger, i) == ImpliedPostings(db'.jobs[i], db'.pct) {
      OtherRowsKept(db, db', db'.ledger[|db.ledger|], i);
    }
  }

  /** A step between two live states posts nothing and implies nothing. */
  lemma NoRowKeepsJobRows(db: Db, db': Db)
    requires JobRowsMatch(db) && db'.ledger == db.ledger && db'.pct == db.pct && |db'.jobs| == |db.jobs|
    requires forall j | 0 <= j < |db.jobs| ::
               db'.jobs[j] == db.jobs[j]
               || (IsLive(db.jobs[j].status) && IsLive(db'.jobs[j].status)
                   && db'.jobs[j].price == db.jobs[j].price && db'.jobs[j].employer == db.jobs[j].employer)
    ensures JobRowsMatch(db')
  {
  }

  lemma StepKeepsJobRows(db: Db, call: Call, now: int)
    requires Shape(db) && Step(db, call, now).Ok?
    requires WalletsMatch(db) && BooksMatch(db) && JobRowsMatch(db)
    ensures JobRowsMatch(Step(db, call, now).value)
  {
    match call
    case Register(_) =>
    case Create(u, price) => CreateKeepsJobRows(db, u, price, now);
    case Accept(_, _) => NoRowKeepsJobRows(db, Step(db, call, now).value);
    case Start(_, _) => NoRowKeepsJobRows(db, Step(db, call, now).value);
    case Complete(j, u) => CompleteKeepsJobRows(db, j, u, now);
    case Cancel(j, u, reason) => CancelKeepsJobRows(db, j, u, reason, now);
    case Initiate(_, _, _, _) =>
    case Confirm(r, externalId) => ConfirmKeepsJobRows(db, r, externalId);
  }

  // ---- Escrow from the ledger alone ----

  /** The wallet that paid for job j, read off its payment row. */
  function Funder(ledger: seq<Tx>, j: nat): Option<nat> {
    if ledger == [] then None
    else
      var tx := ledger[|ledger| - 1];
      if tx.kind == JobPayment && tx.job == Some(j) then Some(tx.wallet) else Funder(ledger[..|ledger| - 1], j)
  }

  /** What a row of a ledger does to the escrow of wallet e: a release counts against the wallet that paid. */
  function EscrowOfRow(ledger: seq<Tx>, e: nat): Tx -> int {
    (tx: Tx) =>
      if tx.kind == JobPayment && tx.wallet == e then tx.amount
      else if (tx.kind == Refund || tx.kind == Kind.Commission) && tx.wallet == e then -tx.amount
      else if tx.kind == JobRelease && tx.job.Some? && Funder(ledger, tx.job.value) == Some(e) then -tx.amount
      else 0
  }

  /** The payment row is the only posting of its kind, so the funder is its wallet. */
  lemma {:induction false} FunderFromPostings(ledger: seq<Tx>, j: nat, e: nat)
    requires forall p | p in PostingsOf(ledger, j) && p.kind == JobPayment :: p.wallet == e
    requires exists p :: p in PostingsOf(ledger, j) && p.kind == JobPayment
    ensures Funder(ledger, j) == Some(e)
  {
    var n := |ledger| - 1;
    var tx := ledger[n];
    if tx.kind == JobPayment && tx.job == Some(j) {
      assert Post(tx) in PostingsOf(ledger, j);
    } else {
      FunderFromPostings(ledger[..n], j, e);
    }
  }

  lemma FunderIsEmployer(db: Db, j: nat)
    requires Shape(db) && JobRowsMatch(db) && j < |db.jobs|
    ensures Funder(db.ledger, j) == Some(db.jobs[j].employer)
  {
    var postings := PostingsOf(db.ledger, j);
    assert postings[0] == Internal(JobPayment, db.jobs[j].employer, db.jobs[j].price);
    FunderFromPostings(db.ledger, j, db.jobs[j].employer);
  }

  /** Main result: the ledger alone gives every escrow. */
  lemma EscrowFromLedger(db: Db, e: nat)
    requires Shape(db) && BooksMatch(db) && JobRowsMatch(db) && EscrowMatchesLedger(db) && e < |db.wallets|
    ensures db.wallets[e].held == Sum(db.ledger, EscrowOfRow(db.ledger, e))
  {
    forall i | 0 <= i < |db.ledger|
      ensures EscrowOfRow(db.ledger, e)(db.ledger[i]) == EscrowFlow(db.jobs, e)(db.ledger[i])
    {
      if db.ledger[i].job.Some? {
        FunderIsEmployer(db, db.ledger[i].job.value);
      }
    }
    SumSame(db.ledger, EscrowOfRow(db.ledger, e), EscrowFlow(db.jobs, e));
  }

  // ---- Commission over a whole run ----

  function FeeTaken(pct: nat): Job -> int {
    (job: Job) => if job.status == Completed && job.price >= 0 then Commission.Fee(job.price, pct) else 0
  }

  function CompletedPrice(): Job -> int {
    (job: Job) => if job.status == Completed then job.price else 0
  }

  function IsCompleted(): Job -> int {
    (job: Job) => if job.status == Completed then 1 else 0
  }

  ghost predicate FeesMatch(db: Db) {
    Sum(db.ledger, Amount(Kind.Commission)) == Sum(db.jobs, FeeTaken(db.pct))
  }

  lemma RewriteKeepsFees(db: Db, j: nat, job: Job)
    requires j < |db.jobs| && db.jobs[j].status != Completed && job.status != Completed
    ensures Sum(db.jobs[j := job], FeeTaken(db.pct)) == Sum(db.jobs, FeeTaken(db.pct))
  {
    SumUpdate(db.jobs, j, job, FeeTaken(db.pct));
  }

  lemma CompleteKeepsFees(db: Db, j: nat, user: nat, now: int)
    requires Shape(db) && FeesMatch(db) && user < |db.roles| && CompleteJob(db, j, user, now).Ok?
    ensures FeesMatch(CompleteJob(db, j, user, now).value)
  {
    var db' := CompleteJob(db, j, user, now).value;
    var n := |db.ledger|;
    assert db'.ledger == db.ledger + [db'.ledger[n], db'.ledger[n + 1]];
    SumOfTwo(db.ledger, db'.ledger[n], db'.ledger[n + 1], Amount(Kind.Commission));
    SumUpdate(db.jobs, j, db'.jobs[j], FeeTaken(db.pct));
  }

  lemma CancelKeepsFees(db: Db, j: nat, user: nat, reason: string, now: int)
    requires Shape(db) && FeesMatch(db) && CancelJob(db, j, user, reason, now).Ok?
    ensures FeesMatch(CancelJob(db, j, user, reason, now).value)
  {
    var db' := CancelJob(db, j, user, reason, now).value;
    SumSnoc(db.ledger, db'.ledger[|db.ledger|], Amount(Kind.Commission));
    RewriteKeepsFees(db, j, db'.jobs[j]);
  }

  lemma CreateKeepsFees(db: Db, user: nat, price: int, now: int)
    requires Shape(db) && FeesMatch(db) && user < |db.roles| && CreateJob(db, user, price, now).Ok?
    ensures FeesMatch(CreateJob(db, user, price, now).value)
  {
    var db' := CreateJob(db, user, price, now).value;
    SumSnoc(db.ledger, db'.ledger[|db.ledger|], Amount(Kind.Commission));
    SumSnoc(db.jobs, NewJob(user, price, now), FeeTaken(db.pct));
  }

  lemma ConfirmKeepsFees(db: Db, r: nat, externalId: string)
    requires Shape(db) && FeesMatch(db) && ConfirmDeposit(db, r, externalId).Ok?
    ensures FeesMatch(ConfirmDeposit(db, r, externalId).value)
  {
    var db' := ConfirmDeposit(db, r, externalId).value;
    SumSnoc(db.ledger, db'.ledger[|db.ledger|], Amount(Kind.Commission));
  }

  lemma AcceptKeepsFees(db: Db, j: nat, user: nat, now: int)
    requires Shape(db) && FeesMatch(db) && user < |db.roles| && AcceptJob(db, j, user, now).Ok?
    ensures FeesMatch(AcceptJob(db, j, user, now).value)
  {
    RewriteKeepsFees(db, j, AcceptJob(db, j, user, now).value.jobs[j]);
  }

  lemma StartKeepsFees(db: Db, j: nat, user: nat, now: int)
    requires Shape(db) && FeesMatch(db) && StartJob(db, j, user, now).Ok?
    ensures FeesMatch(StartJob(db, j, user, now).value)
  {
    RewriteKeepsFees(db, j, StartJob(db, j, user, now).value.jobs[j]);
  }

  lemma StepKeepsFees(db: Db, call: Call, now: int)
    requires Shape(db) && Step(db, call, now).Ok?
    requires FeesMatch(db)
    ensures FeesMatch(Step(db, call, now).value)
  {
    match call
    case Register(_) =>
    case Create(u, price) => CreateKeepsFees(db, u, price, now);
    case Accept(j, u) => AcceptKeepsFees(db, j, u, now);
    case Start(j, u) => StartKeepsFees(db, j, u, now);
    case Complete(j, u) => CompleteKeepsFees(db, j, u, now);
    case Cancel(j, u, reason) => CancelKeepsFees(db, j, u, reason, now);
    case Initiate(_, _, _, _) =>
    case Confirm(r, externalId) => ConfirmKeepsFees(db, r, externalId);
  }

  lemma {:induction false} FeesNearShare(jobs: seq<Job>, pct: nat)
    requires forall j | 0 <= j < |jobs| :: FitsInteger(jobs[j].price)
    ensures var fees, volume, n := Sum(jobs, FeeTaken(pct)), Sum(jobs, CompletedPrice()), Sum(jobs, IsCompleted());
            100 * fees <= volume * pct <= 100 * fees + 99 * n
  {
    if jobs != [] {
      var rest, job := jobs[..|jobs| - 1], jobs[|jobs| - 1];
      FeesNearShare(rest, pct);
      if job.status == Completed {
        assert 100 * Commission.Fee(job.price, pct) <= job.price * pct <= 100 * Commission.Fee(job.price, pct) + 99;
        assert (Sum(rest, CompletedPrice()) + job.price) * pct
            == Sum(rest, CompletedPrice()) * pct + job.price * pct;
      }
    }
  }

  /** Main result: all commission ever taken is short of the exact share by less than one tiyin per
      completed job, and never above it. */
  lemma CommissionNearShare(db: Db)
    requires Shape(db) && FeesMatch(db)
    ensures var taken := Sum(db.ledger, Amount(Kind.Commission));
            var share := Sum(db.jobs, CompletedPrice()) * db.pct;
            100 * taken <= share <= 100 * taken + 99 * Sum(db.jobs, IsCompleted())
  {
    FeesNearShare(db.jobs, db.pct);
  }

  // ---- No empty ledger row ----

  ghost predicate AmountsPositive(db: Db) {
    forall i | 0 <= i < |db.ledger| :: db.ledger[i].amount >= 1
  }

  /** The minimum the request serializer puts on a price. */
  const MIN_PRICE := 100

  ghost predicate PricesAboveMinimum(db: Db) {
    forall j | 0 <= j < |db.jobs| :: db.jobs[j].price >= MIN_PRICE
  }

  lemma FloorBounds(price: nat, pct: nat)
    requires price >= 1
    ensures price * pct / 100 < price <==> pct < 100
  {
    if pct >= 100 {
      Rounding.TimesAtLeast(pct, 100, price);
    } else {
      Rounding.TimesAtLeast(99, pct, price);
    }
  }

  /** Both rows of a completion carry at least one tiyin exactly when the commission does not round to
      nothing and the percentage leaves the worker something. */
  lemma CompletionRowsPositive(price: nat, pct: nat)
    ensures Commission.Fee(price, pct) >= 1 && Payout(price, pct) >= 1 <==> price * pct >= 100 && pct < 100
  {
    if price == 0 {
      assert price * pct == 0;
    } else {
      FloorBounds(price, pct);
    }
  }

  /** No row of this job is empty: the price is not, and a completion splits it into two parts. */
  predicate PaysInFull(job: Job, pct: nat) {
    job.price >= 1 && (job.status == Completed ==> job.price * pct >= 100 && pct < 100)
  }

  lemma ImpliedAmountsPositive(job: Job, pct: nat)
    requires FitsInteger(job.price) && StampsMatchStatus(job)
    ensures (forall p | p in ImpliedPostings(job, pct) :: p.amount >= 1) <==> PaysInFull(job, pct)
  {
    var postings := ImpliedPostings(job, pct);
    assert postings[0] == Internal(JobPayment, job.employer, job.price);
    if job.status == Completed {
      CompletionRowsPositive(job.price, pct);
      assert postings[1].amount == Commission.Fee(job.price, pct) && postings[2].amount == Payout(job.price, pct);
    }
  }

  lemma {:induction false} RowIsPosted(ledger: seq<Tx>, i: nat, j: nat)
    requires i < |ledger| && ledger[i].job == Some(j)
    ensures Post(ledger[i]) in PostingsOf(ledger, j)
  {
    var n := |ledger| - 1;
    if i < n {
      RowIsPosted(ledger[..n], i, j);
    }
  }

  lemma {:induction false} PostingHasRow(ledger: seq<Tx>, j: nat, p: Posting) returns (i: nat)
    requires p in PostingsOf(ledger, j)
    ensures i < |ledger| && ledger[i].job == Some(j) && ledger[i].amount == p.amount
  {
    var n := |ledger| - 1;
    if p in PostingsOf(ledger[..n], j) {
      i := PostingHasRow(ledger[..n], j, p);
    } else {
      i := n;
    }
  }

  /** The rows without a job are the deposits, each of an amount the service accepts. */
  ghost predicate OnlyDepositsLackJobs(db: Db) {
    forall i | 0 <= i < |db.ledger| ::
      && (db.ledger[i].job.None? <==> db.ledger[i].kind == Deposit)
      && (db.ledger[i].kind == Deposit ==> DepositInBounds(db.ledger[i].amount))
  }

  lemma StepKeepsDepositsApart(db: Db, call: Call, now: int)
    requires Shape(db) && Step(db, call, now).Ok? && OnlyDepositsLackJobs(db)
    ensures OnlyDepositsLackJobs(Step(db, call, now).value)
  {
  }

  lemma JobRowsPositive(db: Db, j: nat)
    requires AmountsPositive(db) && JobRowsMatch(db) && Shape(db) && JobsOk(db) && j < |db.jobs|
    ensures PaysInFull(db.jobs[j], db.pct)
  {
    forall p | p in ImpliedPostings(db.jobs[j], db.pct) ensures p.amount >= 1 {
      var i := PostingHasRow(db.ledger, j, p);
    }
    ImpliedAmountsPositive(db.jobs[j], db.pct);
  }

  /** Main result: no ledger row is empty exactly when every job has a price, and every completed one a price
      whose share is at least one tiyin and not the whole. */
  lemma AmountsPositiveExactly(db: Db)
    requires Shape(db) && JobsOk(db) && BooksMatch(db) && JobRowsMatch(db) && OnlyDepositsLackJobs(db)
    ensures AmountsPositive(db) <==> forall j | 0 <= j < |db.jobs| :: PaysInFull(db.jobs[j], db.pct)
  {
    if AmountsPositive(db) {
      forall j | 0 <= j < |db.jobs| ensures PaysInFull(db.jobs[j], db.pct) {
        JobRowsPositive(db, j);
      }
    }
    if forall j | 0 <= j < |db.jobs| :: PaysInFull(db.jobs[j], db.pct) {
      forall i | 0 <= i < |db.ledger| ensures db.ledger[i].amount >= 1 {
        if db.ledger[i].job.Some? {
          var j := db.ledger[i].job.value;
          RowIsPosted(db.ledger, i, j);
          ImpliedAmountsPositive(db.jobs[j], db.pct);
        }
      }
    }
  }

  /** A price the serializer would refuse leaves an empty commission row. */
  lemma SmallPriceLeavesEmptyRow(db: Db, j: nat, user: nat, now: int)
    requires Shape(db) && user < |db.roles| && CompleteJob(db, j, user, now).Ok?
    requires db.jobs[j].price * db.pct < 100
    ensures var row := CompleteJob(db, j, user, now).value.ledger[|db.ledger|];
            row.kind == Kind.Commission && row.job == Some(j) && row.amount == 0
  {
    var price := db.jobs[j].price;
    assert price * db.pct >= 0;
    assert CompleteJob(db, j, user, now).value.ledger[|db.ledger|].amount == price * db.pct / 100;
  }

  /** A job without a price can be created from any wallet, and its payment row is empty. */
  lemma FreeJobLeavesEmptyRow(db: Db, user: nat, now: int)
    requires Shape(db) && user < |db.roles| && db.roles[user] == Employer && WalletFits(db.wallets[user])
    ensures CreateJob(db, user, 0, now).Ok?
    ensures var row := CreateJob(db, user, 0, now).value.ledger[|db.ledger|];
            row.kind == JobPayment && row.job == Some(|db.jobs|) && row.amount == 0
  {
  }

  lemma ShareOfMinimum(price: int, pct: nat)
    requires price >= MIN_PRICE && 1 <= pct
    ensures price * pct >= 100
  {
    assert price * pct >= price * 1;
  }

  /** Prices the serializer accepts leave no empty row when the percentage is 1 to 99. */
  lemma MinimumPaysInFull(job: Job, pct: nat)
    requires job.price >= MIN_PRICE && 1 <= pct <= 99
    ensures PaysInFull(job, pct)
  {
    ShareOfMinimum(job.price, pct);
  }
}
