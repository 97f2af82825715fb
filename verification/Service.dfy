/**
 The service object and its handlers as the source writes them, over the three objects that hold the
 stores, each proved against its sequential description; and the link from there to the step machine.
 */
module Service {
  import opened Prelude
  import opened Battles
  import opened Handlers
  import opened Redis
  import opened RoomManagers
  import Rooms
  import Keys
  import Server

  class GameService {
    const rooms: RoomManager
    const engine: BattleEngine
    const redis: RedisClient
    const ip: string

    constructor (rooms: RoomManager, engine: BattleEngine, redis: RedisClient, ip: string)
      ensures this.rooms == rooms && this.engine == engine && this.redis == redis && this.ip == ip
    {
      this.rooms, this.engine, this.redis, this.ip := rooms, engine, redis, ip;
    }

    function Stores(): World
      reads rooms, engine, redis
    {
      World(rooms.Contents(), engine.sessions, Texts(redis.db))
    }

    method CreateRoom(rules: Rules, id: string, init: Option<Json>, answers: bool, now: int) returns (reply: Reply)
      modifies rooms, engine, redis`db
      ensures (Stores(), reply) == Create(rules, old(Stores()), id, init, redis.connected && answers, now)
    {
      if rooms.maintaining {
        return Reply(UNAVAILABLE, 1);
      }
      var can := rooms.CanCreateRoom();
      if !can {
        return Reply(RESOURCE_EXHAUSTED, 2);
      }
      if id == "" {
        return Reply(INVALID_ARGUMENT, 3);
      }
      if init.None? {
        return Reply(INVALID_ARGUMENT, 5);
      }
      reply := EnterRoom(rules, id, init.value, answers, now);
    }

    /** The part of CreateRoom that follows its checks: insert the room, start the battle, or undo the insertion. */
    method EnterRoom(rules: Rules, id: string, init: Json, answers: bool, now: int) returns (reply: Reply)
      requires id != "" && !rooms.maintaining && |rooms.rooms| < Rooms.Limit(rooms.maxRooms)
      modifies rooms, engine, redis`db
      ensures (Stores(), reply) == Create(rules, old(Stores()), id, Some(init), redis.connected && answers, now)
    {
      var created := rooms.CreateRoomWithId(id, "Battle Room", 2, now);
      if created == "" {
        return Reply(INTERNAL, 4);
      }
      var isOpen := StartBattle(rules, created, init, answers);
      if !isOpen {
        var _ := rooms.CloseRoom(created);
        assert rooms.rooms == old(rooms.rooms);
        assert Stores() == old(Stores());
        return Reply(INTERNAL, 6);
      }
      assert rooms.Contents() == Rooms.Apply(old(Stores()).table, NewRoomOp(id, now)).0;
      return SUCCESS;
    }

    /** The part of CreateRoom that follows the insertion of the room: open a session, publish its state. */
    method StartBattle(rules: Rules, id: string, init: Json, answers: bool) returns (isOpen: bool)
      modifies engine, redis`db
      ensures (if isOpen then Some(engine.sessions) else None) == Open(rules, old(engine.sessions), id, init)
      ensures !isOpen ==> engine.sessions == old(engine.sessions) && redis.db == old(redis.db)
      ensures isOpen ==>
        var doc := View(rules, engine.sessions, id);
        Texts(redis.db) == if doc.Some? && redis.connected && answers
                           then Keys.Set(Texts(old(redis.db)), id, rules.dump(doc.value)) else Texts(old(redis.db))
    {
      isOpen := engine.CreateSession(rules, id, init);
      if !isOpen {
        return;
      }
      var state := engine.GetState(rules, id);
      if state.Some? {
        var _ := redis.SetRoomData(id, rules.dump(state.value), answers);
      }
    }

    method SendCommand(rules: Rules, id: string, action: Option<Json>, answers: bool) returns (reply: Reply)
      modifies engine, redis`db
      ensures (Stores(), reply) == Command(rules, old(Stores()), id, action, redis.connected && answers)
    {
      var room := rooms.GetRoomStatus(id);
      if room.None? {
        return Reply(NOT_FOUND, 1);
      }
      if !room.value.isActive {
        return Reply(FAILED_PRECONDITION, 2);
      }
      if action.None? {
        return Reply(INVALID_ARGUMENT, 3);
      }
      var ok, response := engine.ProcessTurn(rules, id, action.value);
      if !ok {
        return Reply(INVALID_ARGUMENT, 4);
      }
      var _ := redis.SetRoomData(id, rules.dump(response.value), answers);
      return SUCCESS;
    }

    method DestroyRoom(id: string, answers: bool) returns (reply: Reply)
      modifies rooms, engine, redis`db
      ensures (Stores(), reply) == Destroy(old(Stores()), id, redis.connected && answers)
    {
      var closed := rooms.CloseRoom(id);
      if !closed {
        return Reply(NOT_FOUND, 1);
      }
      var _ := engine.DestroySession(id);
      var _ := redis.DeleteRoomData(id, answers);
      return SUCCESS;
    }

    /** Reports the counter and the capacity, and refreshes the node's lease on the way. */
    method GetHeartbeat(answers: bool) returns (activeRooms: int, maxCapacity: int)
      modifies redis`db
      ensures activeRooms == rooms.roomCount && maxCapacity == rooms.maxRooms
      ensures redis.db == if redis.connected && answers then Touch(old(redis.db), ip, 30) else old(redis.db)
    {
      activeRooms, maxCapacity := rooms.roomCount, rooms.maxRooms;
      var _ := redis.TouchNodeHeartbeat(ip, 30, answers);
    }

    /** Without any other thread: every room is closed, every session and all room data stay. */
    method GracefulShutdown(answers: bool)
      modifies rooms, redis`db
      ensures rooms.Contents() == Rooms.Table(map[], true, rooms.maxRooms)
      ensures rooms.roomCount == old(rooms.roomCount) - |old(rooms.rooms)|
      ensures redis.db == if redis.connected && answers then Unregister(old(redis.db), ip) else old(redis.db)
    {
      rooms.SetMaintenanceMode(true);
      for i := 0 to 5 {
        var _ := rooms.roomCount;
      }
      var all := rooms.GetAllRooms();
      var todo := all.Keys;
      while todo != {}
        invariant rooms.maintaining && rooms.rooms.Keys == todo && redis.db == old(redis.db)
        invariant rooms.roomCount - |todo| == old(rooms.roomCount) - |old(rooms.rooms).Keys|
        decreases todo
      {
        var id :| id in todo;
        var _ := rooms.CloseRoom(id);
        todo := todo - {id};
      }
      assert rooms.rooms == map[];
      var _ := redis.UnregisterNode(ip, answers);
    }
  }

  /** Steps a handler has left, at most. */
  function StepsLeft(pc: Server.Pc): nat {
    match pc
    case CheckMaintenance(_, _) => 6
    case CheckCapacity(_, _) => 5
    case InsertRoom(_, _) => 4
    case OpenSession(_, _) => 3
    case ReadState(_) => 2
    case FindRoom(_, _) => 3
    case PlayTurn(_, _) => 2
    case CloseRoom(_) => 3
    case DropSession(_) => 2
    case Finished(_, _) => 0
    case _ => 1
  }

  lemma MovesOn(rules: Rules, w: World, pc: Server.Pc, redisOk: bool, at: int)
    requires !pc.Finished?
    ensures StepsLeft(Server.Move(rules, w, pc, redisOk, at).1) < StepsLeft(pc)
  {
  }

  /** A handler taken to its end with nobody in between. */
  function Alone(rules: Rules, w: World, pc: Server.Pc, redisOk: bool, at: int): (World, Reply)
    decreases StepsLeft(pc)
  {
    if pc.Finished? then (w, pc.reply)
    else
      MovesOn(rules, w, pc, redisOk, at);
      var (v, next) := Server.Move(rules, w, pc, redisOk, at);
      Alone(rules, v, next, redisOk, at)
  }

  lemma AloneNext(rules: Rules, w: World, pc: Server.Pc, redisOk: bool, at: int) returns (v: World, next: Server.Pc)
    ensures (v, next) == Server.Move(rules, w, pc, redisOk, at)
    ensures Alone(rules, w, pc, redisOk, at) == Alone(rules, v, next, redisOk, at)
  {
    var r := Server.Move(rules, w, pc, redisOk, at);
    v, next := r.0, r.1;
  }

  lemma CommandAlone(rules: Rules, w: World, id: string, action: Option<Json>, redisOk: bool, at: int)
    ensures Alone(rules, w, Server.FindRoom(id, action), redisOk, at) == Command(rules, w, id, action, redisOk)
  {
    var v, next := AloneNext(rules, w, Server.FindRoom(id, action), redisOk, at);
    v, next := AloneNext(rules, v, next, redisOk, at);
    v, next := AloneNext(rules, v, next, redisOk, at);
  }

  lemma DestroyAlone(rules: Rules, w: World, id: string, redisOk: bool, at: int)
    ensures Alone(rules, w, Server.CloseRoom(id), redisOk, at) == Destroy(w, id, redisOk)
  {
    var v, next := AloneNext(rules, w, Server.CloseRoom(id), redisOk, at);
    v, next := AloneNext(rules, v, next, redisOk, at);
    v, next := AloneNext(rules, v, next, redisOk, at);
  }

  /** The second half of a create: from the inserted room to its reply. */
  lemma OpenAlone(rules: Rules, w: World, id: string, parsed: Json, redisOk: bool, at: int)
    ensures Alone(rules, w, Server.OpenSession(id, parsed), redisOk, at)
      == match Open(rules, w.sessions, id, parsed)
         case None => (w.(table := Rooms.Apply(w.table, Rooms.Close(id)).0), Reply(INTERNAL, 6))
         case Some(sessions) =>
           var doc := View(rules, sessions, id);
           var store := if doc.Some? && redisOk then Keys.Set(w.store, id, rules.dump(doc.value)) else w.store;
           (w.(sessions := sessions, store := store), SUCCESS)
  {
    var v, next := AloneNext(rules, w, Server.OpenSession(id, parsed), redisOk, at);
    v, next := AloneNext(rules, v, next, redisOk, at);
    v, next := AloneNext(rules, v, next, redisOk, at);
  }

  /**
   A create that a destroy has overtaken, with its room closed and no session left, ends with a session and no
   room exactly if its document makes a battle.
   */
  lemma OvertakenAlone(rules: Rules, w: World, id: string, parsed: Json, redisOk: bool, at: int)
    requires id !in w.table.rooms && id !in w.sessions
    ensures var v := Alone(rules, w, Server.OpenSession(id, parsed), redisOk, at).0;
      id !in v.table.rooms && (id in v.sessions <==> id != "" && rules.create(parsed).Some?)
  {
    OpenAlone(rules, w, id, parsed, redisOk, at);
  }

  /** From the checked request: the room is inserted, unless the id is taken or the limit is reached. */
  lemma InsertAlone(rules: Rules, w: World, id: string, parsed: Json, redisOk: bool, at: int)
    requires !w.table.maintaining && |w.table.rooms| < Rooms.Limit(w.table.maxRooms) && id != ""
    ensures Alone(rules, w, Server.InsertRoom(id, parsed), redisOk, at)
         == Create(rules, w, id, Some(parsed), redisOk, at)
  {
    var v, next := AloneNext(rules, w, Server.InsertRoom(id, parsed), redisOk, at);
    if next.OpenSession? {
      OpenAlone(rules, v, id, parsed, redisOk, at);
      assert v.table.rooms - {id} == w.table.rooms;
    } else {
      v, next := AloneNext(rules, v, next, redisOk, at);
    }
  }

  lemma CreateAlone(rules: Rules, w: World, id: string, init: Option<Json>, redisOk: bool, at: int)
    ensures Alone(rules, w, Server.CheckMaintenance(id, init), redisOk, at) == Create(rules, w, id, init, redisOk, at)
  {
    var v, next := AloneNext(rules, w, Server.CheckMaintenance(id, init), redisOk, at);
    v, next := AloneNext(rules, v, next, redisOk, at);
    if next.InsertRoom? {
      InsertAlone(rules, w, id, init.value, redisOk, at);
    }
  }

  /** The step machine refines to the sequential handlers when a call is left alone. */
  lemma AloneServes(rules: Rules, w: World, request: Request, redisOk: bool, at: int)
    ensures Alone(rules, w, Server.First(request), redisOk, at) == Serve(rules, w, request, redisOk, at)
  {
    match request {
      case CreateRoom(id, init) => CreateAlone(rules, w, id, init, redisOk, at);
      case SendCommand(id, action) => CommandAlone(rules, w, id, action, redisOk, at);
      case DestroyRoom(id) => DestroyAlone(rules, w, id, redisOk, at);
    }
  }
}
