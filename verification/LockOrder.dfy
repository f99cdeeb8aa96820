/** Row locks are taken in one order, so transactions never wait in a circle. */
module LockOrder {
  import opened Tables
  import opened Lifecycle
  import opened Runs
  import opened Interleaving
  import opened Refinement
  import opened Serializability

  /** Job and request rows first, then employers' wallets, then workers' wallets. */
  function Rank(roles: seq<Role>, row: Row): int {
    match row
    case JobRow(_) => 0
    case RequestRow(_) => 0
    case WalletRow(u) => if u < |roles| && roles[u] == Worker then 2 else 1
  }

  /** A transaction only waits for rows that come after every row it holds: wallets have one role each, so
      no wallet is an employer's wallet for one job and a worker's wallet for another. */
  lemma WaitsUpward(db: Db, clock: int, blocked: set<Row>, t: Txn)
    requires Shape(db) && JobsOk(db) && TxnOk(db, t) && Next(db, clock, blocked, t).Wait?
    ensures forall held | held in t.locks :: Rank(db.roles, held) < Rank(db.roles, Next(db, clock, blocked, t).row)
    ensures Next(db, clock, blocked, t).row in blocked
  {
    if t.stage.JobSaved? || t.stage.GotPayer? {
      assert PartiesMatchRoles(db.roles, t.stage.job);
    }
  }

  function MoveOf(c: Config, id: nat): Move
    requires id in c.txns
  {
    Next(c.db, c.clock, LockedByOthers(c.txns, id), c.txns[id])
  }

  /** Transaction a waits for a row that transaction b holds. */
  ghost predicate WaitsFor(c: Config, a: nat, b: nat) {
    a in c.txns && b in c.txns && MoveOf(c, a).Wait? && MoveOf(c, a).row in c.txns[b].locks
  }

  /** Each of these transactions waits for the next, and the last for the first. */
  ghost predicate WaitCycle(c: Config, ring: seq<nat>) {
    && ring != []
    && (forall i | 0 <= i < |ring| - 1 :: WaitsFor(c, ring[i], ring[i + 1]))
    && WaitsFor(c, ring[|ring| - 1], ring[0])
  }

  function WantedRank(c: Config, id: nat): int {
    if id in c.txns && MoveOf(c, id).Wait? then Rank(c.db.roles, MoveOf(c, id).row) else 0
  }

  lemma WaitingChainClimbs(c: Config, a: nat, b: nat)
    requires Shape(c.db) && JobsOk(c.db) && TxnsOk(c.db, c.clock, c.txns)
    requires WaitsFor(c, a, b) && MoveOf(c, b).Wait?
    ensures WantedRank(c, a) < WantedRank(c, b)
  {
    WaitsUpward(c.db, c.clock, LockedByOthers(c.txns, b), c.txns[b]);
  }

  lemma {:induction false} RingClimbs(c: Config, ring: seq<nat>, i: nat)
    requires Shape(c.db) && JobsOk(c.db) && TxnsOk(c.db, c.clock, c.txns)
    requires WaitCycle(c, ring) && i < |ring|
    ensures WantedRank(c, ring[0]) + i <= WantedRank(c, ring[i])
    decreases i
  {
    if i > 0 {
      RingClimbs(c, ring, i - 1);
      assert WaitsFor(c, ring[i - 1], ring[i]);
      assert MoveOf(c, ring[i]).Wait? by {
        if i < |ring| - 1 { assert WaitsFor(c, ring[i], ring[i + 1]); }
      }
      WaitingChainClimbs(c, ring[i - 1], ring[i]);
    }
  }

  /** Main result: no schedule ever reaches a circle of waiting transactions. */
  lemma NoDeadlock(pct: nat, schedule: seq<Act>, ring: seq<nat>)
    ensures !WaitCycle(Execute(pct, schedule), ring)
  {
    var c := Execute(pct, schedule);
    SchedulesAreSerializable(pct, schedule);
    RunJobsOk(pct, Serial(c.log));
    if WaitCycle(c, ring) {
      var last := |ring| - 1;
      RingClimbs(c, ring, last);
      if last > 0 { assert WaitsFor(c, ring[0], ring[1]); }
      WaitingChainClimbs(c, ring[last], ring[0]);
      assert false;
    }
  }

  lemma Holder(c: Config, id: nat, row: Row) returns (holder: nat)
    requires row in LockedByOthers(c.txns, id)
    ensures holder in c.txns && holder != id && row in c.txns[holder].locks
  {
    holder :| holder in c.txns && holder != id && row in c.txns[holder].locks;
  }

  lemma {:induction false} FollowWaits(c: Config, id: nat) returns (mover: nat)
    requires Shape(c.db) && JobsOk(c.db) && TxnsOk(c.db, c.clock, c.txns)
    requires id in c.txns
    ensures mover in c.txns && !MoveOf(c, mover).Wait?
    decreases 3 - WantedRank(c, id), MoveOf(c, id).Wait?
  {
    mover := id;
    if MoveOf(c, id).Wait? {
      WaitsUpward(c.db, c.clock, LockedByOthers(c.txns, id), c.txns[id]);
      var holder := Holder(c, id, MoveOf(c, id).row);
      if MoveOf(c, holder).Wait? {
        WaitingChainClimbs(c, id, holder);
        mover := FollowWaits(c, holder);
      } else {
        mover := holder;
      }
    }
  }

  lemma FindMover(pct: nat, schedule: seq<Act>, id: nat) returns (mover: nat)
    requires id in Execute(pct, schedule).txns
    ensures mover in Execute(pct, schedule).txns && !MoveOf(Execute(pct, schedule), mover).Wait?
  {
    var c := Execute(pct, schedule);
    SchedulesAreSerializable(pct, schedule);
    RunJobsOk(pct, Serial(c.log));
    mover := FollowWaits(c, id);
  }

  /** Main result: whenever transactions are in flight, at least one of them can move. */
  lemma SomeTransactionMoves(pct: nat, schedule: seq<Act>, id: nat)
    requires id in Execute(pct, schedule).txns
    ensures exists mover | mover in Execute(pct, schedule).txns :: !MoveOf(Execute(pct, schedule), mover).Wait?
  {
    var mover := FindMover(pct, schedule, id);
  }

  lemma ExecuteSnoc(pct: nat, schedule: seq<Act>, act: Act)
    ensures Execute(pct, schedule + [act]) == Perform(Execute(pct, schedule), act)
  {
    assert (schedule + [act])[..|schedule|] == schedule;
  }

  // ---- Accepting fails fast ----

  /** Accepting a job never queues behind another transaction: it moves, or is refused because another
      transaction in flight holds the job's row. */
  lemma AcceptFailsFast(pct: nat, schedule: seq<Act>, id: nat)
    requires id in Execute(pct, schedule).txns && Execute(pct, schedule).txns[id].call.Accept?
    ensures var c := Execute(pct, schedule);
            && !MoveOf(c, id).Wait?
            && (MoveOf(c, id).Busy? ==>
                  exists other :: other in c.txns && other != id && JobRow(c.txns[id].call.job) in c.txns[other].locks)
  {
    var c := Execute(pct, schedule);
    SchedulesAreSerializable(pct, schedule);
    assert TxnOk(c.db, c.txns[id]);
    if MoveOf(c, id).Busy? {
      var other := Holder(c, id, JobRow(c.txns[id].call.job));
    }
  }

  // ---- Transactions in flight can always be run to their end ----

  /** A transaction at this stage makes at most this many more moves. */
  function MovesLeft(stage: Stage): nat {
    match stage
    case Opened => 6
    case GotPurse(_) => 2
    case GotJob(_) => 5
    case JobSaved(_) => 4
    case RoomChecked(_, _) => 1
    case GotPayer(_, _) => 3
    case GotBoth(_, _, _) => 2
    case GotRequest(_) => 3
    case GotCredited(_, _) => 2
    case Ready(_) => 1
  }

  lemma MovingLeavesLess(db: Db, clock: int, blocked: set<Row>, t: Txn)
    requires Next(db, clock, blocked, t).Go?
    ensures MovesLeft(Next(db, clock, blocked, t).next.stage) < MovesLeft(t.stage)
  {
  }

  ghost function AllMovesLeft(txns: map<nat, Txn>): nat
    decreases |txns|
  {
    if txns == map[] then 0
    else
      var id :| id in txns;
      MovesLeft(txns[id].stage) + AllMovesLeft(txns - {id})
  }

  lemma {:induction false} SplitMovesLeft(txns: map<nat, Txn>, id: nat)
    requires id in txns
    ensures AllMovesLeft(txns) == MovesLeft(txns[id].stage) + AllMovesLeft(txns - {id})
    decreases |txns|
  {
    var first :| first in txns
      && AllMovesLeft(txns) == MovesLeft(txns[first].stage) + AllMovesLeft(txns - {first});
    if first != id {
      SplitMovesLeft(txns - {first}, id);
      SplitMovesLeft(txns - {id}, first);
      assert txns - {first} - {id} == txns - {id} - {first};
    }
  }

  lemma AdvanceLeavesLess(c: Config, id: nat)
    requires id in c.txns && !MoveOf(c, id).Wait?
    ensures AllMovesLeft(Perform(c, Advance(id)).txns) < AllMovesLeft(c.txns)
  {
    SplitMovesLeft(c.txns, id);
    if MoveOf(c, id).Go? {
      MovingLeavesLess(c.db, c.clock, LockedByOthers(c.txns, id), c.txns[id]);
      var moved := c.txns[id := MoveOf(c, id).next];
      SplitMovesLeft(moved, id);
      assert moved - {id} == c.txns - {id};
    }
  }

  /** Main result: from any reachable configuration, moves alone bring every transaction in flight to its end. */
  lemma {:induction false} AllTransactionsCanFinish(pct: nat, schedule: seq<Act>) returns (more: seq<Act>)
    ensures forall i | 0 <= i < |more| :: more[i].Advance?
    ensures Execute(pct, schedule + more).txns == map[]
    decreases AllMovesLeft(Execute(pct, schedule).txns)
  {
    var c := Execute(pct, schedule);
    if c.txns == map[] {
      more := [];
      assert schedule + more == schedule;
    } else {
      var id :| id in c.txns;
      var mover := FindMover(pct, schedule, id);
      AdvanceLeavesLess(c, mover);
      var next := schedule + [Advance(mover)];
      ExecuteSnoc(pct, schedule, Advance(mover));
      var rest := AllTransactionsCanFinish(pct, next);
      more := [Advance(mover)] + rest;
      assert schedule + more == next + rest;
    }
  }
}
