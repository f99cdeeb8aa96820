/** A job has exactly one chat room, opened by its acceptance. */
module ChatRooms {
  import opened Wrappers
  import opened Tables
  import opened Marketplace
  import opened Lifecycle

  /** Rooms belong to accepted jobs and carry their parties; no job has two; each opened with one system
      message. */
  ghost predicate RoomsMatch(db: Db) {
    && (forall j: nat | j < |db.jobs| :: db.jobs[j].acceptedAt.Some? <==> HasRoom(db.rooms, j))
    && (forall i | 0 <= i < |db.rooms| ::
          && db.rooms[i].job < |db.jobs|
          && db.rooms[i].employer == db.jobs[db.rooms[i].job].employer
          && db.jobs[db.rooms[i].job].worker == Some(db.rooms[i].worker))
    && (forall i, k | 0 <= i < k < |db.rooms| :: db.rooms[i].job != db.rooms[k].job)
    && |db.messages| == |db.rooms|
    && (forall i | 0 <= i < |db.messages| :: db.messages[i] == Message(i))
  }

  lemma RoomAppended(rooms: seq<Room>, room: Room, j: nat)
    ensures HasRoom(rooms + [room], j) <==> HasRoom(rooms, j) || room.job == j
  {
    if room.job == j {
      assert (rooms + [room])[|rooms|].job == j;
    }
    if HasRoom(rooms, j) {
      var i :| 0 <= i < |rooms| && rooms[i].job == j;
      assert (rooms + [room])[i].job == j;
    }
  }

  lemma AcceptKeepsRooms(db: Db, j: nat, user: nat, now: int)
    requires Shape(db) && JobsOk(db) && RoomsMatch(db) && user < |db.roles|
    requires AcceptJob(db, j, user, now).Ok?
    ensures RoomsMatch(AcceptJob(db, j, user, now).value)
  {
    var db' := AcceptJob(db, j, user, now).value;
    assert StampsMatchStatus(db.jobs[j]);
    assert !HasRoom(db.rooms, j);
    forall k: nat | k < |db'.jobs| ensures db'.jobs[k].acceptedAt.Some? <==> HasRoom(db'.rooms, k) {
      RoomAppended(db.rooms, Room(j, db.jobs[j].employer, user), k);
    }
  }

  /** Rewriting a job whose acceptance and parties stay leaves the rooms right. */
  lemma RewriteKeepsRooms(db: Db, db': Db, j: nat)
    requires RoomsMatch(db) && db'.rooms == db.rooms && db'.messages == db.messages
    requires j < |db.jobs| == |db'.jobs| && db'.jobs == db.jobs[j := db'.jobs[j]]
    requires db'.jobs[j].acceptedAt == db.jobs[j].acceptedAt
    requires db'.jobs[j].employer == db.jobs[j].employer && db'.jobs[j].worker == db.jobs[j].worker
    ensures RoomsMatch(db')
  {
  }

  lemma StepKeepsRooms(db: Db, call: Call, now: int)
    requires Shape(db) && Step(db, call, now).Ok?
    requires JobsOk(db) && RoomsMatch(db)
    ensures RoomsMatch(Step(db, call, now).value)
  {
    var db' := Step(db, call, now).value;
    match call
    case Register(_) =>
    case Create(_, _) =>
      assert !HasRoom(db.rooms, |db.jobs|);
    case Accept(j, u) => AcceptKeepsRooms(db, j, u, now);
    case Start(j, _) => RewriteKeepsRooms(db, db', j);
    case Complete(j, _) => RewriteKeepsRooms(db, db', j);
    case Cancel(j, _, _) => RewriteKeepsRooms(db, db', j);
    case Initiate(_, _, _, _) =>
    case Confirm(_, _) =>
  }
}
