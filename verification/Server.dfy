/**
 The server as an interleaved step machine. Any number of handler threads run beside an activity
 thread, the graceful shutdown and the expiry of Redis keys. Each locked method and each Redis command
 is one step, and every lock is free between two steps of a handler.
 */
module Server {
  import opened Prelude
  import opened Battles
  import opened Handlers
  import Rooms
  import Keys

  /** The step a handler takes next. */
  datatype Pc =
    | CheckMaintenance(id: string, init: Option<Json>)
    | CheckCapacity(id: string, init: Option<Json>)
    | InsertRoom(id: string, parsed: Json)
    | OpenSession(id: string, parsed: Json)
    | Rollback(id: string)
    | ReadState(id: string)
    | StoreState(id: string, doc: Json)
    | FindRoom(id: string, action: Option<Json>)
    | PlayTurn(id: string, parsed: Json)
    | StoreTurn(id: string, doc: Json)
    | CloseRoom(id: string)
    | DropSession(id: string)
    | EraseData(id: string)
    | Finished(id: string, reply: Reply)

  datatype State = State(w: World, threads: map<nat, Pc>)

  datatype Action =
    | Call(tid: nat, request: Request)
    | Step(tid: nat, redisOk: bool, at: int)
    | Activity
    | Expire(key: string)
    | Maintain                                  // shutdown raises the maintenance flag
    | ShutdownClose(id: string)                 // shutdown closes a listed room, and nothing else

  function Init(maxRooms: int): State {
    State(World(Rooms.Table(map[], false, maxRooms), map[], map[]), map[])
  }

  function First(request: Request): Pc {
    match request
    case CreateRoom(id, init) => CheckMaintenance(id, init)
    case SendCommand(id, action) => FindRoom(id, action)
    case DestroyRoom(id) => CloseRoom(id)
  }

  function MoveCreate(rules: Rules, w: World, pc: Pc, redisOk: bool, at: int): (r: (World, Pc))
    ensures r.1.id == pc.id
  {
    match pc
    case CheckMaintenance(id, init) =>
      (w, if w.table.maintaining then Finished(id, Reply(UNAVAILABLE, 1)) else CheckCapacity(id, init))
    case CheckCapacity(id, init) =>
      var can := Rooms.Apply(w.table, Rooms.CanCreate).1 == Rooms.Answer(true);
      (w, if !can then Finished(id, Reply(RESOURCE_EXHAUSTED, 2))
          else if id == "" then Finished(id, Reply(INVALID_ARGUMENT, 3))
          else if init.None? then Finished(id, Reply(INVALID_ARGUMENT, 5))
          else InsertRoom(id, init.value))
    case InsertRoom(id, parsed) =>
      var (table, result) := Rooms.Apply(w.table, NewRoomOp(id, at));
      (w.(table := table), if result.Created? then OpenSession(id, parsed) else Finished(id, Reply(INTERNAL, 4)))
    case OpenSession(id, parsed) =>
      (match Open(rules, w.sessions, id, parsed)
       case None => (w, Rollback(id))
       case Some(sessions) => (w.(sessions := sessions), ReadState(id)))
    case Rollback(id) =>
      (w.(table := Rooms.Apply(w.table, Rooms.Close(id)).0), Finished(id, Reply(INTERNAL, 6)))
    case ReadState(id) =>
      (match View(rules, w.sessions, id)
       case None => (w, Finished(id, SUCCESS))
       case Some(doc) => (w, StoreState(id, doc)))
    case StoreState(id, doc) =>
      (if redisOk then w.(store := Keys.Set(w.store, id, rules.dump(doc))) else w, Finished(id, SUCCESS))
    case _ => (w, pc)
  }

  function MoveOther(rules: Rules, w: World, pc: Pc, redisOk: bool): (r: (World, Pc))
    ensures r.1.id == pc.id
  {
    match pc
    case FindRoom(id, action) =>
      (w, if id !in w.table.rooms then Finished(id, Reply(NOT_FOUND, 1))
          else if !w.table.rooms[id].isActive then Finished(id, Reply(FAILED_PRECONDITION, 2))
          else if action.None? then Finished(id, Reply(INVALID_ARGUMENT, 3))
          else PlayTurn(id, action.value))
    case PlayTurn(id, parsed) =>
      var (sessions, outcome) := Play(rules, w.sessions, id, parsed);
      (w.(sessions := sessions),
       if outcome.Accepted? then StoreTurn(id, outcome.response) else Finished(id, Reply(INVALID_ARGUMENT, 4)))
    case StoreTurn(id, doc) =>
      (if redisOk then w.(store := Keys.Set(w.store, id, rules.dump(doc))) else w, Finished(id, SUCCESS))
    case CloseRoom(id) =>
      var (table, result) := Rooms.Apply(w.table, Rooms.Close(id));
      (w.(table := table), if result.Missing? then Finished(id, Reply(NOT_FOUND, 1)) else DropSession(id))
    case DropSession(id) => (w.(sessions := w.sessions - {id}), EraseData(id))
    case EraseData(id) =>
      (if redisOk then w.(store := Keys.Erase(w.store, id)) else w, Finished(id, SUCCESS))
    case _ => (w, pc)
  }

  predicate OfCreate(pc: Pc) {
    pc.CheckMaintenance? || pc.CheckCapacity? || pc.InsertRoom? || pc.OpenSession? || pc.Rollback?
    || pc.ReadState? || pc.StoreState?
  }

  predicate OfCommand(pc: Pc) { pc.FindRoom? || pc.PlayTurn? || pc.StoreTurn? }

  /** What one step of a handler does to the stores, and where the handler is then. */
  function Move(rules: Rules, w: World, pc: Pc, redisOk: bool, at: int): (r: (World, Pc))
    ensures r.1.id == pc.id
  {
    if OfCreate(pc) then MoveCreate(rules, w, pc, redisOk, at) else MoveOther(rules, w, pc, redisOk)
  }

  function Beside(w: World, a: Action): World {
    match a
    case Activity => w.(table := Rooms.Apply(w.table, Rooms.Tick).0)
    case Expire(key) => w.(store := w.store - {key})
    case Maintain => w.(table := Rooms.Apply(w.table, Rooms.Maintain).0)
    case ShutdownClose(id) => w.(table := Rooms.Apply(w.table, Rooms.Close(id)).0)
    case _ => w
  }

  /** A step that is not enabled leaves the state alone, so every action sequence is a schedule. */
  function Do(rules: Rules, s: State, a: Action): State {
    match a
    case Call(tid, request) =>
      if tid in s.threads then s else s.(threads := s.threads[tid := First(request)])
    case Step(tid, redisOk, at) =>
      if tid !in s.threads then s
      else
        var (w, pc) := Move(rules, s.w, s.threads[tid], redisOk, at);
        State(w, s.threads[tid := pc])
    case _ => s.(w := Beside(s.w, a))
  }

  ghost predicate StepAt(rules: Rules, states: seq<State>, acts: seq<Action>, k: nat)
    requires k < |acts| && |states| == |acts| + 1
  {
    states[k + 1] == Do(rules, states[k], acts[k])
  }

  /** A schedule from the empty server, with the states it passes through. */
  ghost predicate IsRun(rules: Rules, maxRooms: int, states: seq<State>, acts: seq<Action>) {
    && |states| == |acts| + 1
    && states[0] == Init(maxRooms)
    && forall k: nat | k < |acts| :: StepAt(rules, states, acts, k)
  }

  lemma Extended(rules: Rules, maxRooms: int, before: seq<State>, earlier: seq<Action>, a: Action, u: State)
    returns (states: seq<State>, acts: seq<Action>)
    requires IsRun(rules, maxRooms, before, earlier) && u == Do(rules, before[|earlier|], a)
    ensures states == before + [u] && acts == earlier + [a] && IsRun(rules, maxRooms, states, acts)
  {
    states, acts := before + [u], earlier + [a];
    forall k: nat | k <= |earlier|
      ensures StepAt(rules, states, acts, k)
    {
      assert k < |earlier| ==> StepAt(rules, before, earlier, k);
    }
  }

  ghost predicate Quiescent(s: State) {
    forall t :: t in s.threads ==> s.threads[t].Finished?
  }

  predicate InFlight(s: State, t: nat, id: string) {
    t in s.threads && s.threads[t].id == id && !s.threads[t].Finished?
  }

  /** No handler on this id is in flight. */
  ghost predicate AtRest(s: State, id: string) { forall t :: !InFlight(s, t, id) }

  /** A handler's step leaves the room entry and the session of every other id as they were. */
  lemma OtherIds(rules: Rules, w: World, pc: Pc, redisOk: bool, at: int, id: string)
    requires pc.id != id
    ensures var v := Move(rules, w, pc, redisOk, at).0;
      && Lookup(v.table.rooms, id) == Lookup(w.table.rooms, id)
      && Lookup(v.sessions, id) == Lookup(w.sessions, id)
      && v.table.maintaining == w.table.maintaining && v.table.maxRooms == w.table.maxRooms
  {
  }

  /** What the actions beside the handlers do: each to one store only, and shutdown to nothing but rooms. */
  lemma BesideEffects(rules: Rules, s: State, a: Action)
    requires !a.Call? && !a.Step?
    ensures var w, v := s.w, Do(rules, s, a).w;
      && Do(rules, s, a).threads == s.threads && v.sessions == w.sessions
      && v.store == (if a.Expire? then w.store - {a.key} else w.store)
      && (a.Activity? ==>
            && v.table.rooms.Keys == w.table.rooms.Keys && v.table.maintaining == w.table.maintaining
            && forall id :: id in w.table.rooms ==> v.table.rooms[id] == Rooms.Aged(w.table.rooms[id]))
      && (a.Expire? ==> v.table == w.table)
      && (a.Maintain? ==> v.table == w.table.(maintaining := true))
      && (a.ShutdownClose? ==> v.table == w.table.(rooms := w.table.rooms - {a.id}))
  {
  }

  lemma MaintainedStep(rules: Rules, s: State, a: Action)
    requires s.w.table.maintaining
    ensures var u := Do(rules, s, a);
      u.w.table.maintaining && u.w.table.rooms.Keys <= s.w.table.rooms.Keys
  {
  }

  /** Once shutdown has raised the flag no schedule adds a room, not even by a create that is under way. */
  lemma {:induction false} MaintenanceAddsNothing(
      rules: Rules, maxRooms: int, states: seq<State>, acts: seq<Action>, j: nat, k: nat)
    requires IsRun(rules, maxRooms, states, acts) && j < k <= |acts| && acts[j] == Maintain
    ensures states[k].w.table.maintaining && states[k].w.table.rooms.Keys <= states[j].w.table.rooms.Keys
    decreases k
  {
    assert StepAt(rules, states, acts, k - 1);
    if k - 1 == j {
      BesideEffects(rules, states[j], acts[j]);
    } else {
      MaintenanceAddsNothing(rules, maxRooms, states, acts, j, k - 1);
      MaintainedStep(rules, states[k - 1], acts[k - 1]);
    }
  }
}
