/** The service layer as it runs: each method reads rows, changes its copies, saves them and appends ledger
    rows; when it raises, the transaction it runs in is rolled back. */
module Services {
  import opened Wrappers
  import opened Tables
  import opened Marketplace
  import opened Escrow
  import opened Lifecycle
  import opened Invariants
  import opened Runs
  import Commission

  function ErrorOf(outcome: Outcome): Option<Error> {
    match outcome
    case Ok(_) => None
    case Err(e) => Some(e)
  }

  lemma AfterKeepsValid(db: Db, e: Event)
    requires Shape(db) && WalletsFit(db)
    ensures Shape(After(db, e)) && WalletsFit(After(db, e)) && After(db, e).pct == db.pct
    ensures Inv(db) ==> Inv(After(db, e))
  {
    if Step(db, e.call, e.now).Ok? {
      StepKeepsShape(db, e.call, e.now);
      StepKeepsWalletsFit(db, e.call, e.now);
    }
    if Inv(db) {
      AfterHolds(db, e);
    }
  }

  class Platform {
    const pct: nat
    var roles: seq<Role>
    var wallets: seq<Wallet>
    var jobs: seq<Job>
    var requests: seq<Request>
    var ledger: seq<Tx>
    var rooms: seq<Room>
    var messages: seq<Message>

    /** The database as a value: what a savepoint remembers. */
    function Snapshot(): Db
      reads this
    {
      Db(pct, roles, wallets, jobs, requests, ledger, rooms, messages)
    }

    ghost predicate Valid()
      reads this
    {
      Shape(Snapshot()) && WalletsFit(Snapshot()) && pct <= Commission.MAX_PERCENT
    }

    constructor (percent: nat)
      requires percent <= Commission.MAX_PERCENT
      ensures Snapshot() == Initial(percent) && Valid()
    {
      pct := percent;
      roles, wallets, jobs, requests, ledger, rooms, messages := [], [], [], [], [], [], [];
    }

    method Rollback(savepoint: Db)
      requires savepoint.pct == pct
      modifies this
      ensures Snapshot() == savepoint
    {
      roles, wallets, jobs := savepoint.roles, savepoint.wallets, savepoint.jobs;
      requests, ledger := savepoint.requests, savepoint.ledger;
      rooms, messages := savepoint.rooms, savepoint.messages;
    }

    // ---- Saving rows ----

    /** Write the given columns of a wallet, unless a column constraint refuses them. */
    method SaveWallet(u: nat, columns: Columns) returns (saved: bool)
      requires u < |wallets|
      modifies this`wallets
      ensures saved <==> WalletFits(Overlay(old(wallets)[u], columns))
      ensures wallets == if saved then old(wallets)[u := Overlay(old(wallets)[u], columns)] else old(wallets)
    {
      var row := Overlay(wallets[u], columns);
      saved := WalletFits(row);
      if saved {
        wallets := wallets[u := row];
      }
    }

    method InsertTx(tx: Tx) returns (saved: bool)
      modifies this`ledger
      ensures saved <==> TxFits(tx)
      ensures ledger == if saved then old(ledger) + [tx] else old(ledger)
    {
      saved := TxFits(tx);
      if saved {
        ledger := ledger + [tx];
      }
    }

    /** Save a wallet and append its ledger row. When a column refuses either, what was written stays until the
        caller rolls it back. */
    method SaveWithTx(u: nat, columns: Columns, tx: Tx) returns (saved: bool)
      requires u < |wallets|
      modifies this`wallets, this`ledger
      ensures saved <==> WalletFits(Overlay(old(wallets)[u], columns)) && TxFits(tx)
      ensures saved ==>
                && wallets == old(wallets)[u := Overlay(old(wallets)[u], columns)]
                && ledger == old(ledger) + [tx]
    {
      saved := SaveWallet(u, columns);
      if saved {
        saved := InsertTx(tx);
      }
    }

    method InsertJob(job: Job) returns (saved: bool)
      modifies this`jobs
      ensures saved <==> FitsInteger(job.price)
      ensures jobs == if saved then old(jobs) + [job] else old(jobs)
    {
      saved := FitsInteger(job.price);
      if saved {
        jobs := jobs + [job];
      }
    }

    method InsertRequest(request: Request) returns (saved: bool)
      modifies this`requests
      ensures saved <==> RequestTextsFit(request)
      ensures requests == if saved then old(requests) + [request] else old(requests)
    {
      saved := RequestTextsFit(request);
      if saved {
        requests := requests + [request];
      }
    }

    method SaveRequest(id: nat, request: Request) returns (saved: bool)
      requires id < |requests|
      modifies this`requests
      ensures saved <==> RequestTextsFit(request)
      ensures requests == if saved then old(requests)[id := request] else old(requests)
    {
      saved := RequestTextsFit(request);
      if saved {
        requests := requests[id := request];
      }
    }

    /** Look for the room of job j. */
    method FindRoom(j: nat) returns (found: bool)
      ensures found <==> HasRoom(rooms, j)
    {
      found := false;
      for i := 0 to |rooms|
        invariant !found && forall k | 0 <= k < i :: rooms[k].job != j
      {
        if rooms[i].job == j {
          return true;
        }
      }
    }

    /** The signal handler run after every save of an existing job. */
    method CreateChatRoomOnAccept(j: nat, job: Job)
      modifies this`rooms, this`messages
      ensures var worker := if job.worker.Some? then job.worker.value else 0;
              Snapshot() == if job.status == Accepted && job.worker.Some?
                            then OpenRoom(old(Snapshot()), j, job.employer, worker) else old(Snapshot())
    {
      if job.status == Accepted && job.worker.Some? {
        var found := FindRoom(j);
        if !found {
          rooms := rooms + [Room(j, job.employer, job.worker.value)];
          messages := messages + [Message(|rooms| - 1)];
        }
      }
    }

    method SaveJob(j: nat, job: Job)
      requires j < |jobs|
      modifies this`jobs, this`rooms, this`messages
      ensures var worker := if job.worker.Some? then job.worker.value else 0;
              var saved := old(Snapshot()).(jobs := old(jobs)[j := job]);
              Snapshot() == if job.status == Accepted && job.worker.Some?
                            then OpenRoom(saved, j, job.employer, worker) else saved
    {
      jobs := jobs[j := job];
      CreateChatRoomOnAccept(j, job);
    }

    // ---- Wallet operations ----

    /** Credit a deposit to a wallet row the caller has locked and read. */
    method DepositTo(u: nat, locked: Wallet, amount: int, provider: string, externalId: string)
      returns (r: Result<Tx, Error>)
      requires Valid() && u < |wallets| && locked == wallets[u]
      modifies this
      ensures r.Err? ==> Snapshot() == old(Snapshot())
      ensures r.Ok? ==>
                && r.value == Tx(u, Deposit, Credit, amount, locked.balance, locked.balance + amount, None, provider, externalId)
                && Snapshot() == old(Snapshot()).(
                     wallets := old(wallets)[u := locked.(balance := locked.balance + amount)],
                     ledger := old(ledger) + [r.value])
      ensures r == Err(Validation) <==> !DepositInBounds(amount)
      ensures r.Ok? <==>
                && DepositInBounds(amount) && WalletFits(locked.(balance := locked.balance + amount))
                && |provider| <= TX_PROVIDER_LENGTH && |externalId| <= EXTERNAL_ID_LENGTH
      ensures r.Err? ==> r.error == Validation || r.error == Integrity
    {
      if amount < MIN_DEPOSIT {
        return Err(Validation);
      }
      if amount > MAX_DEPOSIT {
        return Err(Validation);
      }
      var savepoint := Snapshot();
      var wallet := locked;
      var balanceBefore := wallet.balance;
      wallet := wallet.(balance := wallet.balance + amount);
      var tx := Tx(u, Deposit, Credit, amount, balanceBefore, wallet.balance, None, provider, externalId);
      var saved := SaveWithTx(u, NO_COLUMNS.(balance := Some(wallet.balance)), tx);
      if !saved {
        Rollback(savepoint);
        return Err(Integrity);
      }
      r := Ok(tx);
    }

    /** Move a new job's price from the available to the held balance. */
    method DeductForJob(u: nat, locked: Wallet, j: nat) returns (r: Result<Tx, Error>)
      requires Valid() && u < |wallets| && locked == wallets[u] && j < |jobs|
      modifies this
      ensures r.Err? ==> Snapshot() == old(Snapshot())
      ensures r == Err(InsufficientBalance) <==> locked.balance < old(jobs)[j].price
      ensures r.Ok? <==> locked.balance >= old(jobs)[j].price && WalletFits(Debited(locked, old(jobs)[j].price))
      ensures r.Err? ==> r.error == InsufficientBalance || r.error == Integrity
      ensures r.Ok? ==>
                var price := old(jobs)[j].price;
                Snapshot() == old(Snapshot()).(
                  wallets := old(wallets)[u := Debited(locked, price)],
                  ledger := old(ledger) + [Tx(u, JobPayment, Debit, price, locked.balance, locked.balance - price,
                                              Some(j), "internal", "")])
    {
      var amount := jobs[j].price;
      if locked.balance < amount {
        return Err(InsufficientBalance);
      }
      var savepoint := Snapshot();
      var wallet := locked;
      var balanceBefore := wallet.balance;
      wallet := wallet.(balance := wallet.balance - amount);
      wallet := wallet.(held := wallet.held + amount);
      wallet := wallet.(spent := wallet.spent + amount);
      var tx := Tx(u, JobPayment, Debit, amount, balanceBefore, wallet.balance, Some(j), "internal", "");
      var saved := SaveWithTx(u, NO_COLUMNS.(balance := Some(wallet.balance), held := Some(wallet.held),
                                             spent := Some(wallet.spent)), tx);
      if !saved {
        Rollback(savepoint);
        return Err(Integrity);
      }
      r := Ok(tx);
    }

    /** The split of a stored price, computed in floating point as the service does. */
    method SplitPrice(price: int) returns (commission: int, rest: int)
      requires FitsInteger(price) && pct <= Commission.MAX_PERCENT
      ensures commission == Commission.Fee(price, pct) && rest == price - commission
    {
      var split := Commission.CalculateCommission(price, None, pct);
      commission, rest := split.0, split.1;
      Commission.StoredPricesAreExact(price, pct);
    }

    /** Pay out a completed job: escrow leaves the employer, the worker gets what the commission leaves. */
    method ReleaseJobPayment(j: nat) returns (r: Result<(Tx, Tx), Error>)
      requires Valid() && j < |jobs| && jobs[j].worker.Some?
      modifies this
      ensures match Release(old(Snapshot()), j)
              case Ok(db) => r.Ok? && Snapshot() == db
                             && ledger == old(ledger) + [r.value.0, r.value.1]
              case Err(e) => r == Err(e) && Snapshot() == old(Snapshot())
    {
      var savepoint := Snapshot();
      var job := jobs[j];
      var employer, worker := job.employer, job.worker.value;
      var commissionAmount, workerAmount := SplitPrice(job.price);
      var employerWallet := wallets[employer];
      var workerWallet := wallets[worker];

      employerWallet := employerWallet.(held := employerWallet.held - job.price);
      var commissionTx := Tx(employer, Kind.Commission, Debit, commissionAmount, employerWallet.balance,
                             employerWallet.balance, Some(j), "internal", "");
      var saved := SaveWithTx(employer, NO_COLUMNS.(held := Some(employerWallet.held)), commissionTx);

      var workerBalanceBefore := workerWallet.balance;
      workerWallet := workerWallet.(balance := workerWallet.balance + workerAmount);
      workerWallet := workerWallet.(earned := workerWallet.earned + workerAmount);
      var workerTx := Tx(worker, JobRelease, Credit, workerAmount, workerBalanceBefore, workerWallet.balance,
                         Some(j), "internal", "");
      if saved {
        saved := SaveWithTx(worker, NO_COLUMNS.(balance := Some(workerWallet.balance),
                                                earned := Some(workerWallet.earned)), workerTx);
      }
      if !saved {
        Rollback(savepoint);
        return Err(Integrity);
      }
      r := Ok((commissionTx, workerTx));
    }

    /** Return a cancelled job's escrow to its employer. */
    method RefundJob(j: nat) returns (r: Result<Tx, Error>)
      requires Valid() && j < |jobs|
      modifies this
      ensures match Marketplace.RefundJob(old(Snapshot()), j)
              case Ok(db) => r.Ok? && Snapshot() == db && ledger == old(ledger) + [r.value]
              case Err(e) => r == Err(e) && Snapshot() == old(Snapshot())
    {
      var savepoint := Snapshot();
      var job := jobs[j];
      var wallet := wallets[job.employer];
      var held := Min(job.price, wallet.held);
      var balanceBefore := wallet.balance;
      wallet := wallet.(balance := wallet.balance + held);
      wallet := wallet.(held := wallet.held - held);
      wallet := wallet.(spent := Max(0, wallet.spent - held));
      var tx := Tx(job.employer, Refund, Credit, held, balanceBefore, wallet.balance, Some(j), "internal", "");
      var saved := SaveWithTx(job.employer, NO_COLUMNS.(balance := Some(wallet.balance), held := Some(wallet.held),
                                                        spent := Some(wallet.spent)), tx);
      if !saved {
        Rollback(savepoint);
        return Err(Integrity);
      }
      r := Ok(tx);
    }

    // ---- Job life cycle ----

    method Register(role: Role) returns (id: nat)
      requires Valid()
      modifies this
      ensures Valid() && id == |old(roles)|
      ensures Step(old(Snapshot()), Call.Register(role), 0) == Ok(Snapshot())
    {
      id := |roles|;
      roles := roles + [role];
      wallets := wallets + [EMPTY_WALLET];
    }

    method CreateJob(user: nat, price: int, now: int) returns (r: Result<nat, Error>)
      requires Valid() && user < |roles|
      modifies this
      ensures match Marketplace.CreateJob(old(Snapshot()), user, price, now)
              case Ok(db) => r == Ok(|old(jobs)|) && Snapshot() == db
              case Err(e) => r == Err(e) && Snapshot() == old(Snapshot())
    {
      if roles[user] != Employer {
        return Err(Forbidden);
      }
      var wallet := wallets[user];
      if wallet.balance < price {
        return Err(InsufficientBalance);
      }
      var savepoint := Snapshot();
      var j := |jobs|;
      var inserted := InsertJob(NewJob(user, price, now));
      if !inserted {
        return Err(Integrity);
      }
      var tx := DeductForJob(user, wallet, j);
      if tx.Err? {
        Rollback(savepoint);
        return Err(tx.error);
      }
      r := Ok(j);
    }

    method AcceptJob(j: nat, user: nat, now: int) returns (r: Result<Job, Error>)
      requires Valid() && user < |roles|
      modifies this
      ensures match Marketplace.AcceptJob(old(Snapshot()), j, user, now)
              case Ok(db) => j < |jobs| && r == Ok(jobs[j]) && Snapshot() == db
              case Err(e) => r == Err(e) && Snapshot() == old(Snapshot())
    {
      if roles[user] != Worker {
        return Err(Forbidden);
      }
      if j >= |jobs| {
        return Err(NotFound);
      }
      var job := jobs[j];
      if job.status != Created {
        return Err(JobState);
      }
      if job.employer == user {
        return Err(Forbidden);
      }
      job := job.(worker := Some(user));
      job := job.(status := Accepted);
      job := job.(acceptedAt := Some(now));
      SaveJob(j, job);
      r := Ok(job);
    }

    method GetJobForWorker(j: nat, user: nat) returns (r: Result<Job, Error>)
      ensures r == if j < |jobs| && jobs[j].worker == Some(user) then Ok(jobs[j]) else Err(NotFound)
    {
      if j < |jobs| && jobs[j].worker == Some(user) {
        r := Ok(jobs[j]);
      } else {
        r := Err(NotFound);
      }
    }

    method StartJob(j: nat, user: nat, now: int) returns (r: Result<Job, Error>)
      requires Valid()
      modifies this
      ensures match Marketplace.StartJob(old(Snapshot()), j, user, now)
              case Ok(db) => j < |jobs| && r == Ok(jobs[j]) && Snapshot() == db
              case Err(e) => r == Err(e) && Snapshot() == old(Snapshot())
    {
      r := GetJobForWorker(j, user);
      if r.Err? {
        return;
      }
      var job := r.value;
      if job.status != Accepted {
        return Err(JobState);
      }
      job := job.(status := InProgress);
      job := job.(startedAt := Some(now));
      SaveJob(j, job);
      r := Ok(job);
    }

    method CompleteJob(j: nat, user: nat, now: int) returns (r: Result<Job, Error>)
      requires Valid() && user < |roles|
      modifies this
      ensures match Marketplace.CompleteJob(old(Snapshot()), j, user, now)
              case Ok(db) => j < |jobs| && r == Ok(jobs[j]) && Snapshot() == db
              case Err(e) => r == Err(e) && Snapshot() == old(Snapshot())
    {
      if roles[user] != Employer {
        return Err(Forbidden);
      }
      if j >= |jobs| || jobs[j].employer != user {
        return Err(NotFound);
      }
      var job := jobs[j];
      if job.status != InProgress {
        return Err(JobState);
      }
      if job.worker.None? {
        return Err(JobState);
      }
      var savepoint := Snapshot();
      job := job.(status := Completed);
      job := job.(completedAt := Some(now));
      SaveJob(j, job);
      var paid := ReleaseJobPayment(j);
      if paid.Err? {
        Rollback(savepoint);
        return Err(paid.error);
      }
      r := Ok(job);
    }

    method CancelJob(j: nat, user: nat, reason: string, now: int) returns (r: Result<Job, Error>)
      requires Valid()
      modifies this
      ensures match Marketplace.CancelJob(old(Snapshot()), j, user, reason, now)
              case Ok(db) => j < |jobs| && r == Ok(jobs[j]) && Snapshot() == db
              case Err(e) => r == Err(e) && Snapshot() == old(Snapshot())
    {
      if j >= |jobs| {
        return Err(NotFound);
      }
      var job := jobs[j];
      if user != job.employer && job.worker != Some(user) {
        return Err(Forbidden);
      }
      if job.status == Completed || job.status == Cancelled {
        return Err(JobState);
      }
      var savepoint := Snapshot();
      var prevStatus := job.status;
      job := job.(status := Cancelled);
      job := job.(cancelledAt := Some(now));
      job := job.(cancelReason := reason);
      SaveJob(j, job);
      if prevStatus == Created || prevStatus == Accepted || prevStatus == InProgress {
        var refunded := RefundJob(j);
        if refunded.Err? {
          Rollback(savepoint);
          return Err(refunded.error);
        }
      }
      r := Ok(job);
    }

    // ---- Deposits ----

    method InitiateDeposit(user: nat, amount: int, provider: string, gateway: Option<string>)
      returns (r: Result<nat, Error>)
      requires Valid() && user < |roles|
      modifies this
      ensures match Marketplace.InitiateDeposit(old(Snapshot()), user, amount, provider, gateway)
              case Ok(db) => r == Ok(|old(requests)|) && Snapshot() == db
              case Err(e) => r == Err(e) && Snapshot() == old(Snapshot())
    {
      if amount < MIN_DEPOSIT {
        return Err(Validation);
      }
      if amount > MAX_DEPOSIT {
        return Err(Validation);
      }
      var savepoint := Snapshot();
      var id := |requests|;
      var request := Request(user, amount, provider, "", Pending);
      var inserted := InsertRequest(request);
      if !inserted {
        return Err(Integrity);
      }
      if gateway.None? {
        Rollback(savepoint);
        return Err(ProviderFailed);
      }
      request := request.(externalId := gateway.value);
      var saved := SaveRequest(id, request);
      if !saved {
        Rollback(savepoint);
        return Err(Integrity);
      }
      r := Ok(id);
    }

    method ConfirmDeposit(id: nat, externalId: string) returns (r: Result<Tx, Error>)
      requires Valid()
      modifies this
      ensures match Marketplace.ConfirmDeposit(old(Snapshot()), id, externalId)
              case Ok(db) => r.Ok? && ledger == old(ledger) + [r.value] && Snapshot() == db
              case Err(e) => r == Err(e) && Snapshot() == old(Snapshot())
    {
      if id >= |requests| || requests[id].status != Pending {
        return Err(Validation);
      }
      var request := requests[id];
      var wallet := wallets[request.wallet];
      r := DepositTo(request.wallet, wallet, request.amount, request.provider, Reference(externalId, request));
      if r.Err? {
        return;
      }
      request := request.(status := Confirmed);
      requests := requests[id := request];
    }

    /** Main result: serving any call does what the atomic step says, reports its error, and keeps every
        invariant. */
    method Serve(call: Call, now: int) returns (error: Option<Error>)
      requires Valid()
      modifies this
      ensures Valid() && Snapshot() == After(old(Snapshot()), Event(call, now))
      ensures error == ErrorOf(Step(old(Snapshot()), call, now))
      ensures old(Inv(Snapshot())) ==> Inv(Snapshot())
    {
      ghost var before := Snapshot();
      AfterKeepsValid(before, Event(call, now));
      if !CallerExists(Snapshot(), call) {
        return Some(Unauthenticated);
      }
      match call {
        case Register(role) =>
          var _ := Register(role);
          error := None;
        case Create(u, price) =>
          var r := CreateJob(u, price, now);
          error := if r.Err? then Some(r.error) else None;
        case Accept(j, u) =>
          var r := AcceptJob(j, u, now);
          error := if r.Err? then Some(r.error) else None;
        case Start(j, u) =>
          var r := StartJob(j, u, now);
          error := if r.Err? then Some(r.error) else None;
        case Complete(j, u) =>
          var r := CompleteJob(j, u, now);
          error := if r.Err? then Some(r.error) else None;
        case Cancel(j, u, reason) =>
          var r := CancelJob(j, u, reason, now);
          error := if r.Err? then Some(r.error) else None;
        case Initiate(u, amount, provider, gateway) =>
          var r := InitiateDeposit(u, amount, provider, gateway);
          error := if r.Err? then Some(r.error) else None;
        case Confirm(id, externalId) =>
          var r := ConfirmDeposit(id, externalId);
          error := if r.Err? then Some(r.error) else None;
      }
    }
  }
}
