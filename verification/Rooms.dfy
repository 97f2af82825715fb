/**
 The room table as a value: what each locked method of the room manager does, taken as one atomic
 operation, and what any sequence of such operations keeps.
 */
module Rooms {
  import Activity

  datatype Room = Room(
    id: string,
    name: string,
    playerCount: int,
    maxPlayers: int,
    isActive: bool,
    createdTime: int,
    counter: nat
  )

  datatype Table = Table(rooms: map<string, Room>, maintaining: bool, maxRooms: int)

  /** `Generate` carries the id that was drawn; `at` is the clock reading. */
  datatype Op =
    | Generate(id: string, name: string, maxPlayers: int, at: int)
    | CreateWithId(id: string, name: string, maxPlayers: int, at: int)
    | Close(id: string)
    | GetStatus(id: string)
    | ListAll
    | CanCreate
    | GetMax
    | Tick
    | Maintain

  datatype Result =
    | Created(id: string)
    | Refused
    | Closed
    | Missing
    | Found(room: Room)
    | Listed(rooms: map<string, Room>)
    | Answer(yes: bool)
    | Max(maxRooms: int)
    | Done

  /** The cast of the signed limit to a 64-bit `size_t`. */
  function Limit(maxRooms: int): int {
    if maxRooms >= 0 then maxRooms else maxRooms + 0x1_0000_0000_0000_0000
  }

  function NewRoom(id: string, name: string, maxPlayers: int, at: int): Room {
    Room(id, name, 0, maxPlayers, true, at, 0)
  }

  /** One activity tick of one room. */
  function Aged(room: Room): Room {
    room.(counter := room.counter + 1,
          playerCount := Activity.NextPlayers(room.counter + 1, room.playerCount, room.maxPlayers))
  }

  function AgeAll(rooms: map<string, Room>): map<string, Room> {
    map id | id in rooms :: Aged(rooms[id])
  }

  function Apply(t: Table, op: Op): (Table, Result) {
    match op
    case Generate(id, name, maxPlayers, at) =>
      if t.maintaining || |t.rooms| >= Limit(t.maxRooms) then (t, Refused)
      else (t.(rooms := t.rooms[id := NewRoom(id, name, maxPlayers, at)]), Created(id))
    case CreateWithId(id, name, maxPlayers, at) =>
      if t.maintaining || |t.rooms| >= Limit(t.maxRooms) || id in t.rooms then (t, Refused)
      else (t.(rooms := t.rooms[id := NewRoom(id, name, maxPlayers, at)]), Created(id))
    case Close(id) =>
      if id in t.rooms then (t.(rooms := t.rooms - {id}), Closed) else (t, Missing)
    case GetStatus(id) =>
      (t, if id in t.rooms then Found(t.rooms[id]) else Missing)
    case ListAll => (t, Listed(t.rooms))
    case CanCreate => (t, Answer(!t.maintaining && |t.rooms| < Limit(t.maxRooms)))
    case GetMax => (t, Max(t.maxRooms))
    case Tick => (t.(rooms := AgeAll(t.rooms)), Done)
    case Maintain => (t.(maintaining := true), Done)
  }

  /**
   Admission by the limit that the server is given, an `int`: one room more as long as there are fewer, also
   when the table is one short of it. The comparison is unsigned, so a negative limit counts modulo 2^64.
   */
  lemma AdmitsUpToLimit(t: Table, id: string, name: string, maxPlayers: int, at: int)
    requires -0x8000_0000 <= t.maxRooms < 0x8000_0000 && !t.maintaining
    ensures var limit := t.maxRooms % 0x1_0000_0000_0000_0000;
      var room := Room(id, name, 0, maxPlayers, true, at, 0);
      && (t.maxRooms >= 0 ==> limit == t.maxRooms)
      && Apply(t, CanCreate) == (t, Answer(|t.rooms| < limit))
      && Apply(t, Generate(id, name, maxPlayers, at))
         == (if |t.rooms| < limit then (t.(rooms := t.rooms[id := room]), Created(id)) else (t, Refused))
      && Apply(t, CreateWithId(id, name, maxPlayers, at))
         == (if |t.rooms| < limit && id !in t.rooms
             then (t.(rooms := t.rooms[id := room]), Created(id)) else (t, Refused))
  {
  }

  /** What the other operations find, change and report. */
  lemma OthersTell(t: Table, id: string)
    ensures Apply(t, GetStatus(id)) == (t, if id in t.rooms then Found(t.rooms[id]) else Missing)
    ensures Apply(t, ListAll) == (t, Listed(t.rooms)) && Apply(t, GetMax) == (t, Max(t.maxRooms))
    ensures Apply(t, Close(id)) == (t.(rooms := t.rooms - {id}), if id in t.rooms then Closed else Missing)
    ensures var u := Apply(t, Tick).0;
      && u.rooms.Keys == t.rooms.Keys && u.maintaining == t.maintaining && u.maxRooms == t.maxRooms
      && forall other :: other in t.rooms ==> u.rooms[other].counter == t.rooms[other].counter + 1
  {
    assert id !in t.rooms ==> t.rooms - {id} == t.rooms;
  }

  /** And nothing is admitted once the flag is up. */
  lemma AdmitsNothingInMaintenance(t: Table, op: Op)
    ensures Apply(t, Maintain).0 == t.(maintaining := true)
    ensures t.maintaining ==> Apply(t, op).0.maintaining && Apply(t, op).0.rooms.Keys <= t.rooms.Keys
    ensures t.maintaining ==> Apply(t, CanCreate).1 == Answer(false) && !Apply(t, op).1.Created?
  {
  }

  ghost predicate AppliesAt(tables: seq<Table>, ops: seq<Op>, k: nat)
    requires k < |ops| && |tables| == |ops| + 1
  {
    tables[k + 1] == Apply(tables[k], ops[k]).0
  }

  /** A history of operations and the tables between them. */
  ghost predicate IsHistory(tables: seq<Table>, ops: seq<Op>) {
    |tables| == |ops| + 1 && forall k: nat | k < |ops| :: AppliesAt(tables, ops, k)
  }

  /** Number of activity passes among the operations `from`, ..., `to - 1`. */
  ghost function Ticks(ops: seq<Op>, from: nat, to: nat): nat
    requires to <= |ops|
  {
    if to <= from then 0 else Ticks(ops, from, to - 1) + if ops[to - 1].Tick? then 1 else 0
  }

  /** Operation `i` put `id` into the table. */
  ghost predicate Inserts(tables: seq<Table>, ops: seq<Op>, i: nat, id: string)
    requires IsHistory(tables, ops)
  {
    i < |ops| && Apply(tables[i], ops[i]).1 == Created(id)
  }

  /** Operation `i` did so, and none after it up to `k` did so again. */
  ghost predicate LastInsertion(tables: seq<Table>, ops: seq<Op>, i: nat, k: nat, id: string)
    requires IsHistory(tables, ops)
  {
    i < k && Inserts(tables, ops, i, id) && forall j: nat | i < j < k :: !Inserts(tables, ops, j, id)
  }

  /** The room is what `ticks` passes make of the one inserted by `op`, and of nothing else. */
  ghost predicate HasAge(room: Room, op: Op, ticks: nat) {
    && (op.Generate? || op.CreateWithId?)
    && room == Room(op.id, op.name, Activity.PlayersAt(op.maxPlayers, ticks), op.maxPlayers, true, op.at, ticks)
  }

  lemma HasAgeTicks(room: Room, op: Op, ticks: nat)
    requires HasAge(room, op, ticks)
    ensures HasAge(Aged(room), op, ticks + 1)
  {
  }

  /** What one operation does to a room it does not insert. */
  lemma RoomAfter(t: Table, op: Op, id: string)
    requires Apply(t, op).1 != Created(id) && id in Apply(t, op).0.rooms
    ensures id in t.rooms
    ensures Apply(t, op).0.rooms[id] == if op.Tick? then Aged(t.rooms[id]) else t.rooms[id]
  {
  }

  lemma RoomInserted(t: Table, op: Op, id: string)
    requires Apply(t, op).1 == Created(id)
    ensures id in Apply(t, op).0.rooms && HasAge(Apply(t, op).0.rooms[id], op, 0)
  {
  }

  /**
   Every room equals its age: whatever mix of operations led here, a stored room is exactly the one
   its last insertion made, ticked once per activity pass since then.
   */
  lemma {:induction false} EveryRoomEqualsItsAge(tables: seq<Table>, ops: seq<Op>, k: nat, id: string)
    returns (i: nat)
    requires IsHistory(tables, ops) && tables[0].rooms == map[]
    requires k <= |ops| && id in tables[k].rooms
    ensures LastInsertion(tables, ops, i, k, id)
    ensures HasAge(tables[k].rooms[id], ops[i], Ticks(ops, i + 1, k))
  {
    assert AppliesAt(tables, ops, k - 1);
    var t, op := tables[k - 1], ops[k - 1];
    if Apply(t, op).1 == Created(id) {
      i := k - 1;
      assert Inserts(tables, ops, i, id);
      RoomInserted(t, op, id);
    } else {
      RoomAfter(t, op, id);
      i := EveryRoomEqualsItsAge(tables, ops, k - 1, id);
      HasAgeTicks(t.rooms[id], ops[i], Ticks(ops, i + 1, k - 1));
    }
  }

  /** The table never outgrows its limit, which is the given one unless that is negative. */
  lemma {:induction false} NeverOverfull(tables: seq<Table>, ops: seq<Op>, k: nat)
    requires IsHistory(tables, ops) && k <= |ops| && |tables[0].rooms| <= Limit(tables[0].maxRooms)
    ensures |tables[k].rooms| <= Limit(tables[k].maxRooms) && tables[k].maxRooms == tables[0].maxRooms
    ensures tables[0].maxRooms >= 0 ==> |tables[k].rooms| <= tables[0].maxRooms
  {
    if k > 0 {
      NeverOverfull(tables, ops, k - 1);
      assert AppliesAt(tables, ops, k - 1);
      StepSize(tables[k - 1], ops[k - 1]);
    }
  }

  /** The atomic room counter after an operation with this result. */
  function CountAfter(count: int, result: Result): int {
    match result
    case Created(_) => count + 1
    case Closed => count - 1
    case _ => count
  }

  /** The counter follows the table size exactly when no drawn id was already taken. */
  lemma StepSize(t: Table, op: Op)
    ensures CountAfter(|t.rooms|, Apply(t, op).1) == |Apply(t, op).0.rooms|
       <==> !(op.Generate? && op.id in t.rooms && Apply(t, op).1.Created?)
    ensures |t.rooms| <= Limit(t.maxRooms) ==> |Apply(t, op).0.rooms| <= Limit(t.maxRooms)
  {
    match op {
      case Generate(id, name, maxPlayers, at) => PutSize(t.rooms, id, NewRoom(id, name, maxPlayers, at));
      case CreateWithId(id, name, maxPlayers, at) => PutSize(t.rooms, id, NewRoom(id, name, maxPlayers, at));
      case Close(id) => CutSize(t.rooms, id);
      case Tick => assert AgeAll(t.rooms).Keys == t.rooms.Keys;
      case _ =>
    }
  }

  lemma PutSize(rooms: map<string, Room>, id: string, room: Room)
    ensures |rooms[id := room]| == |rooms| + if id in rooms then 0 else 1
  {
  }

  lemma CutSize(rooms: map<string, Room>, id: string)
    ensures |rooms - {id}| == |rooms| - if id in rooms then 1 else 0
  {
  }
}
