/** Whole schedules: the committed state is always that of the atomic calls in commit order, and every
    transaction ends as the atomic call would have ended there. */
module Serializability {
  import opened Wrappers
  import opened Tables
  import opened Marketplace
  import opened Lifecycle
  import opened Invariants
  import opened Runs
  import opened Interleaving
  import opened Refinement

  /** The committed calls, in commit order. */
  ghost function Serial(log: seq<Entry>): seq<Event> {
    if log == [] then []
    else
      var last := log[|log| - 1];
      if last.ending == Committed then Serial(log[..|log| - 1]) + [Event(last.call, last.now)]
      else Serial(log[..|log| - 1])
  }

  /** The acceptance had passed every check that comes before the lock. */
  ghost predicate ReachedLock(db: Db, call: Call)
    requires Shape(db)
  {
    && call.Accept? && call.user < |db.roles| && db.roles[call.user] == Worker
    && call.job < |db.jobs|
  }

  /** How an atomic call would have ended, had it run alone on `db`. Only an acceptance can be refused for a lock. */
  ghost predicate EndsAtomically(db: Db, e: Entry)
    requires Shape(db)
  {
    match e.ending
    case Committed => Step(db, e.call, e.now).Ok? && Timely(db, e.call, e.now)
    case Failed(error) => Step(db, e.call, e.now) == Err(error)
    case Refused => ReachedLock(db, e.call)
    case Crashed => true
  }

  /** Every finished transaction ended as its atomic call would, on the state its predecessors committed. */
  ghost predicate Explained(pct: nat, log: seq<Entry>) {
    log == []
    || (&& Explained(pct, log[..|log| - 1])
        && EndsAtomically(Run(pct, Serial(log[..|log| - 1])), log[|log| - 1]))
  }

  ghost predicate LocksDisjoint(txns: map<nat, Txn>) {
    forall a, b | a in txns && b in txns && a != b :: txns[a].locks !! txns[b].locks
  }

  ghost predicate TxnsOk(db: Db, clock: int, txns: map<nat, Txn>) {
    forall id | id in txns :: TxnOk(db, txns[id]) && txns[id].now <= clock
  }

  ghost predicate Consistent(pct: nat, c: Config) {
    && c.db == Run(pct, Serial(c.log)) && Explained(pct, c.log)
    && ClockAhead(c.db, c.clock)
    && TxnsOk(c.db, c.clock, c.txns) && LocksDisjoint(c.txns)
  }

  lemma LogSnoc(pct: nat, log: seq<Entry>, e: Entry)
    ensures Serial(log + [e]) == if e.ending == Committed then Serial(log) + [Event(e.call, e.now)] else Serial(log)
    ensures Explained(pct, log + [e]) <==> Explained(pct, log) && EndsAtomically(Run(pct, Serial(log)), e)
  {
    assert (log + [e])[..|log|] == log;
  }

  lemma TickKeeps(pct: nat, c: Config, delta: nat)
    requires Consistent(pct, c)
    ensures Consistent(pct, c.(clock := c.clock + delta))
  {
  }

  lemma ArrivalKeeps(pct: nat, c: Config, id: nat, call: Call)
    requires Consistent(pct, c) && id !in c.txns
    ensures Consistent(pct, c.(txns := c.txns[id := Txn(call, Opened, c.clock, {}, [])]))
  {
  }

  lemma RemovalKeeps(db: Db, clock: int, txns: map<nat, Txn>, id: nat)
    requires TxnsOk(db, clock, txns) && LocksDisjoint(txns)
    ensures TxnsOk(db, clock, txns - {id}) && LocksDisjoint(txns - {id})
  {
  }

  lemma QuietLog(pct: nat, db: Db, log: seq<Entry>, e: Entry)
    requires Shape(db) && db == Run(pct, Serial(log)) && Explained(pct, log)
    requires e.ending != Committed && EndsAtomically(db, e)
    ensures db == Run(pct, Serial(log + [e])) && Explained(pct, log + [e])
  {
    LogSnoc(pct, log, e);
  }

  /** Ending without a commit changes no data. */
  lemma QuietEndKeeps(pct: nat, c: Config, id: nat, ending: Ending)
    requires Consistent(pct, c) && id in c.txns && ending != Committed
    requires EndsAtomically(c.db, Entry(c.txns[id].call, c.txns[id].now, ending))
    ensures Consistent(pct, Finish(c, id, ending))
  {
    var e := Entry(c.txns[id].call, c.txns[id].now, ending);
    RemovalKeeps(c.db, c.clock, c.txns, id);
    QuietLog(pct, c.db, c.log, e);
  }

  lemma FreshLocksStayDisjoint(txns: map<nat, Txn>, id: nat, t: Txn)
    requires LocksDisjoint(txns) && id in txns && txns[id].locks <= t.locks
    requires (t.locks - txns[id].locks) !! LockedByOthers(txns, id)
    ensures LocksDisjoint(txns[id := t])
  {
    forall k, row | k in txns && k != id && row in txns[k].locks ensures row !in t.locks {
      assert row in LockedByOthers(txns, id);
    }
  }

  lemma ProgressKeeps(pct: nat, c: Config, id: nat, t: Txn)
    requires Consistent(pct, c) && id in c.txns
    requires Next(c.db, c.clock, LockedByOthers(c.txns, id), c.txns[id]) == Go(t)
    ensures Consistent(pct, c.(txns := c.txns[id := t]))
  {
    MoveGoes(c.db, c.clock, LockedByOthers(c.txns, id), c.txns[id], t);
    FreshLocksStayDisjoint(c.txns, id, t);
  }

  lemma CommitKeepsOthers(c: Config, id: nat)
    requires Shape(c.db) && TxnsOk(c.db, c.clock, c.txns) && LocksDisjoint(c.txns)
    requires id in c.txns && c.txns[id].stage.Ready?
    requires Step(c.db, c.txns[id].call, c.txns[id].now).Ok?
    ensures TxnsOk(Step(c.db, c.txns[id].call, c.txns[id].now).value, c.clock, c.txns - {id})
  {
    var t := c.txns[id];
    var db' := Step(c.db, t.call, t.now).value;
    ReadyHoldsFootprint(c.db, t);
    forall k | k in c.txns && k != id ensures TxnOk(db', c.txns[k]) {
      assert TxnOk(c.db, c.txns[k]);
      StepConfined(c.db, t.call, t.now, c.txns[k].locks);
      TxnStaysOk(c.db, db', c.txns[k]);
    }
  }

  /** A transaction ready to commit read the clock after every stamp of its job. */
  lemma ReadyIsTimely(db: Db, t: Txn)
    requires TxnOk(db, t) && t.stage.Ready?
    ensures Timely(db, t.call, t.now)
  {
    LastStage(db, t);
  }

  lemma CommitKeeps(pct: nat, c: Config, id: nat)
    requires Consistent(pct, c) && id in c.txns
    requires Next(c.db, c.clock, LockedByOthers(c.txns, id), c.txns[id]) == Commit
    ensures Consistent(pct, Finish(c.(db := Apply(c.db, c.txns[id].writes)), id, Committed))
  {
    var t := c.txns[id];
    RunJobsOk(pct, Serial(c.log));
    CommitIsAtomic(c.db, c.clock, LockedByOthers(c.txns, id), t);
    ReadyIsTimely(c.db, t);
    CommitKeepsOthers(c, id);
    LogSnoc(pct, c.log, Entry(t.call, t.now, Committed));
    RunSnoc(pct, Serial(c.log), Event(t.call, t.now));
    StepStamps(c.db, Event(t.call, t.now), c.clock);
  }

  lemma FailureKeeps(pct: nat, c: Config, id: nat)
    requires Consistent(pct, c) && id in c.txns
    requires Next(c.db, c.clock, LockedByOthers(c.txns, id), c.txns[id]).Fail?
    ensures Consistent(pct, Finish(c, id, Failed(Next(c.db, c.clock, LockedByOthers(c.txns, id), c.txns[id]).error)))
  {
    RunJobsOk(pct, Serial(c.log));
    FailureIsAtomic(c.db, c.clock, LockedByOthers(c.txns, id), c.txns[id]);
    QuietEndKeeps(pct, c, id, Failed(Next(c.db, c.clock, LockedByOthers(c.txns, id), c.txns[id]).error));
  }

  lemma BusyReachedLock(db: Db, clock: int, blocked: set<Row>, t: Txn)
    requires Shape(db) && Next(db, clock, blocked, t) == Busy
    ensures ReachedLock(db, t.call) && JobRow(t.call.job) in blocked
  {
  }

  lemma AdvanceKeeps(pct: nat, c: Config, id: nat)
    requires Consistent(pct, c) && id in c.txns
    ensures Consistent(pct, Perform(c, Advance(id)))
  {
    var move := Next(c.db, c.clock, LockedByOthers(c.txns, id), c.txns[id]);
    if move.Go? {
      ProgressKeeps(pct, c, id, move.next);
    } else if move.Fail? {
      FailureKeeps(pct, c, id);
    } else if move.Busy? {
      BusyReachedLock(c.db, c.clock, LockedByOthers(c.txns, id), c.txns[id]);
      QuietEndKeeps(pct, c, id, Refused);
    } else if move.Commit? {
      CommitKeeps(pct, c, id);
    }
  }

  lemma PerformKeeps(pct: nat, c: Config, act: Act)
    requires Consistent(pct, c)
    ensures Consistent(pct, Perform(c, act))
  {
    match act
    case Tick(delta) => TickKeeps(pct, c, delta);
    case Arrive(id, call) => if id !in c.txns { ArrivalKeeps(pct, c, id, call); }
    case Die(id) => if id in c.txns { QuietEndKeeps(pct, c, id, Crashed); }
    case Advance(id) => if id in c.txns { AdvanceKeeps(pct, c, id); }
  }

  /** The configuration a schedule reaches from the empty database. */
  ghost function Execute(pct: nat, schedule: seq<Act>): Config {
    if schedule == [] then Config(Initial(pct), 0, map[], [])
    else Perform(Execute(pct, schedule[..|schedule| - 1]), schedule[|schedule| - 1])
  }

  /** Main result: under every interleaving, the committed database is that of the committed calls run one by
      one, and every finished transaction ended as its atomic call would have. No update is lost. */
  lemma {:induction false} SchedulesAreSerializable(pct: nat, schedule: seq<Act>)
    ensures Consistent(pct, Execute(pct, schedule))
  {
    if schedule == [] {
      assert Serial([]) == [];
    } else {
      SchedulesAreSerializable(pct, schedule[..|schedule| - 1]);
      PerformKeeps(pct, Execute(pct, schedule[..|schedule| - 1]), schedule[|schedule| - 1]);
    }
  }

  /** So every invariant of the atomic machine holds of every concurrently committed state. */
  lemma SchedulesKeepInvariants(pct: nat, schedule: seq<Act>)
    ensures Inv(Execute(pct, schedule).db)
  {
    SchedulesAreSerializable(pct, schedule);
    RunHolds(pct, Serial(Execute(pct, schedule).log));
  }

  lemma OnlyBusyRefuses(c: Config, act: Act)
    requires |Perform(c, act).log| > |c.log| && Perform(c, act).log[|c.log|].ending == Refused
    ensures act.Advance? && act.id in c.txns
    ensures Next(c.db, c.clock, LockedByOthers(c.txns, act.id), c.txns[act.id]) == Busy
    ensures Perform(c, act).log[|c.log|].call == c.txns[act.id].call
  {
  }

  lemma LogGrows(c: Config, act: Act)
    ensures Perform(c, act).log == c.log
            || (|Perform(c, act).log| == |c.log| + 1 && Perform(c, act).log[..|c.log|] == c.log)
  {
  }

  /** Main result: every refused transaction was an acceptance that, at the moment of its refusal, met another
      transaction in flight holding the row of its job. */
  lemma {:induction false} RefusalMetHolder(pct: nat, schedule: seq<Act>, i: nat)
    returns (n: nat, id: nat, other: nat)
    requires i < |Execute(pct, schedule).log| && Execute(pct, schedule).log[i].ending == Refused
    ensures n < |schedule| && schedule[n] == Advance(id)
    ensures var c, e := Execute(pct, schedule[..n]), Execute(pct, schedule).log[i];
            && c.log == Execute(pct, schedule).log[..i]
            && id in c.txns && c.txns[id].call == e.call && e.call.Accept?
            && other in c.txns && other != id && JobRow(e.call.job) in c.txns[other].locks
  {
    n := |schedule| - 1;
    var c, act := Execute(pct, schedule[..n]), schedule[n];
    LogGrows(c, act);
    if i < |c.log| {
      var m;
      m, id, other := RefusalMetHolder(pct, schedule[..n], i);
      assert schedule[..n][..m] == schedule[..m];
      n := m;
    } else {
      OnlyBusyRefuses(c, act);
      SchedulesAreSerializable(pct, schedule[..n]);
      id := act.id;
      BusyReachedLock(c.db, c.clock, LockedByOthers(c.txns, id), c.txns[id]);
      other :| other in c.txns && other != id && JobRow(c.txns[id].call.job) in c.txns[other].locks;
    }
  }

  // ---- What serial commit order says about races ----

  /** How many transactions committed a call that satisfies `counts`. */
  ghost function Commits(log: seq<Entry>, counts: Call -> bool): nat {
    if log == [] then 0
    else
      var last := log[|log| - 1];
      Commits(log[..|log| - 1], counts) + if last.ending == Committed && counts(last.call) then 1 else 0
  }

  lemma SuccessesSnoc(pct: nat, trace: seq<Event>, e: Event, counts: Call -> bool)
    requires Step(Run(pct, trace), e.call, e.now).Ok?
    ensures Successes(pct, trace + [e], counts) == Successes(pct, trace, counts) + if counts(e.call) then 1 else 0
  {
    assert (trace + [e])[..|trace|] == trace;
  }

  lemma LastExplained(pct: nat, log: seq<Entry>)
    requires Explained(pct, log) && log != []
    ensures var rest := log[..|log| - 1];
            var last := log[|log| - 1];
            && Explained(pct, rest) && EndsAtomically(Run(pct, Serial(rest)), last)
            && Serial(log) == if last.ending == Committed then Serial(rest) + [Event(last.call, last.now)] else Serial(rest)
  {
  }

  lemma {:induction false} CommitsAreSuccesses(pct: nat, log: seq<Entry>, counts: Call -> bool)
    requires Explained(pct, log)
    ensures Commits(log, counts) == Successes(pct, Serial(log), counts)
  {
    if log != [] {
      var rest, last := log[..|log| - 1], log[|log| - 1];
      LastExplained(pct, log);
      CommitsAreSuccesses(pct, rest, counts);
      if last.ending == Committed {
        SuccessesSnoc(pct, Serial(rest), Event(last.call, last.now), counts);
      }
    }
  }

  /** Main result: of any number of concurrent attempts to accept a job, at most one ever commits, and one
      did exactly when the job carries an acceptance. */
  lemma OneAcceptanceCommits(pct: nat, schedule: seq<Act>, j: nat)
    ensures var c := Execute(pct, schedule);
            Commits(c.log, AcceptsOf(j)) == if j < |c.db.jobs| && c.db.jobs[j].acceptedAt.Some? then 1 else 0
  {
    var c := Execute(pct, schedule);
    SchedulesAreSerializable(pct, schedule);
    CommitsAreSuccesses(pct, c.log, AcceptsOf(j));
    AcceptedAtMostOnce(pct, Serial(c.log), j);
  }

  /** The same for confirmations of a deposit request, however often the webhook is replayed. */
  lemma OneConfirmationCommits(pct: nat, schedule: seq<Act>, r: nat)
    ensures var c := Execute(pct, schedule);
            Commits(c.log, ConfirmsOf(r)) ==
            if r < |c.db.requests| && c.db.requests[r].status == Confirmed then 1 else 0
  {
    var c := Execute(pct, schedule);
    SchedulesAreSerializable(pct, schedule);
    CommitsAreSuccesses(pct, c.log, ConfirmsOf(r));
    ConfirmedAtMostOnce(pct, Serial(c.log), r);
  }

  lemma TimelySnoc(pct: nat, trace: seq<Event>, e: Event)
    requires TimelyTrace(pct, trace) && Timely(Run(pct, trace), e.call, e.now)
    ensures TimelyTrace(pct, trace + [e])
  {
    forall i | 0 <= i <= |trace|
      ensures Timely(Run(pct, (trace + [e])[..i]), (trace + [e])[i].call, (trace + [e])[i].now)
    {
      assert (trace + [e])[..i] == trace[..i];
      if i == |trace| {
        assert trace[..i] == trace;
      }
    }
  }

  lemma {:induction false} SerialIsTimely(pct: nat, log: seq<Entry>)
    requires Explained(pct, log)
    ensures TimelyTrace(pct, Serial(log))
  {
    if log != [] {
      var rest, last := log[..|log| - 1], log[|log| - 1];
      LastExplained(pct, log);
      SerialIsTimely(pct, rest);
      if last.ending == Committed {
        TimelySnoc(pct, Serial(rest), Event(last.call, last.now));
      }
    }
  }

  /** Main result: although transactions read the clock before they commit, the stamps of every job are in
      life-cycle order in every committed state. */
  lemma ConcurrentStampsOrdered(pct: nat, schedule: seq<Act>)
    ensures AllOrdered(Execute(pct, schedule).db)
  {
    var c := Execute(pct, schedule);
    SchedulesAreSerializable(pct, schedule);
    SerialIsTimely(pct, c.log);
    StampsAlwaysOrdered(pct, Serial(c.log));
  }
}
