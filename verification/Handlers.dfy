/** Requests, replies, and what each handler does when it runs alone from start to finish. */
module Handlers {
  import opened Prelude
  import opened Battles
  import Rooms
  import Keys

  /** A payload that does not parse as JSON is `None`. */
  datatype Request =
    | CreateRoom(id: string, init: Option<Json>)
    | SendCommand(id: string, action: Option<Json>)
    | DestroyRoom(id: string)

  datatype Status =
    | OK | UNAVAILABLE | RESOURCE_EXHAUSTED | INVALID_ARGUMENT | INTERNAL | NOT_FOUND | FAILED_PRECONDITION

  /** The gRPC status and the code in the response body. */
  datatype Reply = Reply(status: Status, code: int)

  const SUCCESS := Reply(OK, 0)

  /** The three stores. `store` holds the live string values in Redis, without their expiry. */
  datatype World = World(table: Rooms.Table, sessions: Sessions, store: map<string, string>)

  function NewRoomOp(id: string, at: int): Rooms.Op {
    Rooms.CreateWithId(id, "Battle Room", 2, at)
  }

  /** `redisOk` says whether Redis executes the commands of this call. */
  function Create(rules: Rules, w: World, id: string, init: Option<Json>, redisOk: bool, at: int): (World, Reply) {
    if w.table.maintaining then (w, Reply(UNAVAILABLE, 1))
    else if Rooms.Apply(w.table, Rooms.CanCreate).1 != Rooms.Answer(true) then (w, Reply(RESOURCE_EXHAUSTED, 2))
    else if id == "" then (w, Reply(INVALID_ARGUMENT, 3))
    else if init.None? then (w, Reply(INVALID_ARGUMENT, 5))
    else if id in w.table.rooms then (w, Reply(INTERNAL, 4))
    else
      match Open(rules, w.sessions, id, init.value)
      case None => (w, Reply(INTERNAL, 6))
      case Some(sessions) =>
        var doc := View(rules, sessions, id);
        var store := if doc.Some? && redisOk then Keys.Set(w.store, id, rules.dump(doc.value)) else w.store;
        (World(Rooms.Apply(w.table, NewRoomOp(id, at)).0, sessions, store), SUCCESS)
  }

  function Command(rules: Rules, w: World, id: string, action: Option<Json>, redisOk: bool): (World, Reply) {
    if id !in w.table.rooms then (w, Reply(NOT_FOUND, 1))
    else if !w.table.rooms[id].isActive then (w, Reply(FAILED_PRECONDITION, 2))
    else if action.None? then (w, Reply(INVALID_ARGUMENT, 3))
    else
      var (sessions, outcome) := Play(rules, w.sessions, id, action.value);
      if !outcome.Accepted? then (w.(sessions := sessions), Reply(INVALID_ARGUMENT, 4))
      else
        var store := if redisOk then Keys.Set(w.store, id, rules.dump(outcome.response)) else w.store;
        (w.(sessions := sessions, store := store), SUCCESS)
  }

  function Destroy(w: World, id: string, redisOk: bool): (World, Reply) {
    if id !in w.table.rooms then (w, Reply(NOT_FOUND, 1))
    else
      (World(Rooms.Apply(w.table, Rooms.Close(id)).0, w.sessions - {id},
             if redisOk then Keys.Erase(w.store, id) else w.store), SUCCESS)
  }

  function Serve(rules: Rules, w: World, request: Request, redisOk: bool, at: int): (World, Reply) {
    match request
    case CreateRoom(id, init) => Create(rules, w, id, init, redisOk, at)
    case SendCommand(id, action) => Command(rules, w, id, action, redisOk)
    case DestroyRoom(id) => Destroy(w, id, redisOk)
  }

  /** Exactly when a create that runs alone succeeds, and that every other outcome leaves no trace. */
  lemma CreateAllOrNothing(rules: Rules, w: World, id: string, init: Option<Json>, redisOk: bool, at: int)
    ensures var (v, reply) := Create(rules, w, id, init, redisOk, at);
      && (reply != SUCCESS ==> v == w)
      && (reply == SUCCESS <==>
            && !w.table.maintaining && |w.table.rooms| < Rooms.Limit(w.table.maxRooms)
            && id != "" && init.Some? && id !in w.table.rooms && id !in w.sessions
            && rules.create(init.value).Some?)
      && (w.table.maxRooms >= 0 && !w.table.maintaining && id != "" && init.Some?
          && id !in w.table.rooms && id !in w.sessions && rules.create(init.value).Some? ==>
            (reply == SUCCESS <==> |w.table.rooms| < w.table.maxRooms))
  {
  }

  /**
   What a reply to a CreateRoom says about its cause. The checks come in this order, so each code also says
   that no earlier one applies.
   */
  lemma CreateReplyTells(rules: Rules, w: World, id: string, init: Option<Json>, redisOk: bool, at: int)
    requires w.table.maxRooms >= 0
    ensures var reply := Create(rules, w, id, init, redisOk, at).1;
      var lowered := !w.table.maintaining;
      var space := lowered && |w.table.rooms| < w.table.maxRooms;
      var named := space && id != "";
      var parsed := named && init.Some?;
      var free := parsed && id !in w.table.rooms;
      && (reply == Reply(UNAVAILABLE, 1) <==> w.table.maintaining)
      && (reply == Reply(RESOURCE_EXHAUSTED, 2) <==> lowered && |w.table.rooms| >= w.table.maxRooms)
      && (reply == Reply(INVALID_ARGUMENT, 3) <==> space && id == "")
      && (reply == Reply(INVALID_ARGUMENT, 5) <==> named && init.None?)
      && (reply == Reply(INTERNAL, 4) <==> parsed && id in w.table.rooms)
      && (reply == Reply(INTERNAL, 6) <==> free && (id in w.sessions || rules.create(init.value).None?))
      && (reply == Reply(OK, 0) <==> free && id !in w.sessions && rules.create(init.value).Some?)
  {
  }

  /** What a successful CreateRoom leaves in the three stores. */
  lemma CreateStores(rules: Rules, w: World, id: string, init: Option<Json>, redisOk: bool, at: int)
    requires Create(rules, w, id, init, redisOk, at).1 == Reply(OK, 0)
    ensures var v, battle := Create(rules, w, id, init, redisOk, at).0, rules.create(init.value);
      && v.table == w.table.(rooms := w.table.rooms[id := Rooms.Room(id, "Battle Room", 0, 2, true, at, 0)])
      && battle.Some? && v.sessions == w.sessions[id := battle.value]
      && v.store == (if redisOk && rules.view(battle.value).Some?
                     then w.store["pokemon:room:" + id := rules.dump(rules.view(battle.value).value)] else w.store)
  {
  }

  /**
   What a reply to a SendCommand says about its cause, and what the call leaves: the turn counts even if its
   response is rejected, but only a response that the simulator calls all right is stored.
   */
  lemma CommandReplyTells(rules: Rules, w: World, id: string, action: Option<Json>, redisOk: bool)
    ensures var (v, reply) := Command(rules, w, id, action, redisOk);
      var active := id in w.table.rooms && w.table.rooms[id].isActive;
      var played := active && action.Some? && id in w.sessions;
      && (reply == Reply(NOT_FOUND, 1) <==> id !in w.table.rooms)
      && (reply == Reply(FAILED_PRECONDITION, 2) <==> id in w.table.rooms && !active)
      && (reply == Reply(INVALID_ARGUMENT, 3) <==> active && action.None?)
      && (reply == Reply(INVALID_ARGUMENT, 4) <==>
            active && action.Some?
            && (id in w.sessions ==> !rules.ok(rules.turn(w.sessions[id], action.value).1)))
      && (reply == Reply(OK, 0) <==> played && rules.ok(rules.turn(w.sessions[id], action.value).1))
      && v.table == w.table
      && v.sessions == (if played then w.sessions[id := rules.turn(w.sessions[id], action.value).0] else w.sessions)
      && v.store == (if redisOk && reply == Reply(OK, 0)
                     then w.store["pokemon:room:" + id := rules.dump(rules.turn(w.sessions[id], action.value).1)]
                     else w.store)
  {
  }

  /** A DestroyRoom finds exactly the stored rooms, and takes room, session and data of this id only. */
  lemma DestroyReplyTells(w: World, id: string, redisOk: bool)
    ensures var (v, reply) := Destroy(w, id, redisOk);
      && reply == (if id in w.table.rooms then Reply(OK, 0) else Reply(NOT_FOUND, 1))
      && (id !in w.table.rooms ==> v == w)
      && (id in w.table.rooms ==>
            && v.table == w.table.(rooms := w.table.rooms - {id}) && v.sessions == w.sessions - {id}
            && v.store == (if redisOk
                           then w.store - {CString("pokemon:room:" + id), CString("pokemon:room:" + id + ":command")}
                           else w.store))
  {
  }

  /** A successful create adds one room and one session, and nothing else to either. */
  lemma CreateAdds(rules: Rules, w: World, id: string, init: Option<Json>, redisOk: bool, at: int)
    requires Create(rules, w, id, init, redisOk, at).1 == SUCCESS
    ensures var v := Create(rules, w, id, init, redisOk, at).0;
      && id in v.table.rooms && id in v.sessions
      && v.table.(rooms := v.table.rooms - {id}) == w.table && v.sessions - {id} == w.sessions
  {
    var v := Create(rules, w, id, init, redisOk, at).0;
    CreateAllOrNothing(rules, w, id, init, redisOk, at);
    var room, battle := Rooms.NewRoom(id, "Battle Room", 2, at), rules.create(init.value).value;
    assert v.table == w.table.(rooms := w.table.rooms[id := room]);
    assert v.sessions == w.sessions[id := battle];
    PutCut(w.table.rooms, id, room);
    PutCut(w.sessions, id, battle);
  }

  lemma EraseAfterSet(store: map<string, string>, id: string, value: string)
    ensures Keys.Erase(Keys.Set(store, id, value), id)
         == if NulFree(id) then Keys.Erase(store, id) else Keys.Set(Keys.Erase(store, id), id, value)
  {
    Keys.ErasedKeys(id);
    CStringFacts(id);
    Keys.RoomKeyInjective(CString(id), id);
  }

  /**
   A destroy undoes a successful create in rooms and sessions. The stored state goes with it, unless the id
   holds a NUL: then it stays, because the erasure reaches another key.
   */
  lemma DestroyUndoesCreate(rules: Rules, w: World, id: string, init: Option<Json>, at: int)
    requires Create(rules, w, id, init, true, at).1 == SUCCESS
    ensures var made := Create(rules, w, id, init, true, at).0;
      var (v, reply) := Destroy(made, id, true);
      && reply == SUCCESS && v.table == w.table && v.sessions == w.sessions
      && (NulFree(id) ==> v.store == Keys.Erase(w.store, id))
      && (Keys.RoomKey(id) in v.store <==> !NulFree(id) && Keys.RoomKey(id) in made.store)
      && (Keys.RoomKey(id) in made.store <==>
            View(rules, made.sessions, id).Some? || Keys.RoomKey(id) in w.store)
  {
    var v := Create(rules, w, id, init, true, at).0;
    CreateAdds(rules, w, id, init, true, at);
    CreateAllOrNothing(rules, w, id, init, true, at);
    var doc := View(rules, v.sessions, id);
    assert v.store == if doc.Some? then Keys.Set(w.store, id, rules.dump(doc.value)) else w.store;
    if doc.Some? {
      EraseAfterSet(w.store, id, rules.dump(doc.value));
    }
    Keys.OwnDataErased(v.store, id);
  }

  /** Once a room is destroyed no command reaches the id, and a destroy finds nothing, until it is created again. */
  lemma DestroyedIsGone(rules: Rules, w: World, id: string, action: Option<Json>)
    requires id in w.table.rooms
    ensures var v := Destroy(w, id, true).0;
      && Command(rules, v, id, action, true) == (v, Reply(NOT_FOUND, 1))
      && Destroy(v, id, true) == (v, Reply(NOT_FOUND, 1))
  {
  }
}
