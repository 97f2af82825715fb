/** Concrete schedules and stores in which the exceptions that the exact results allow for do occur. */
module Witnesses {
  import opened Prelude
  import opened Battles
  import opened Handlers
  import opened Server
  import opened Agreement
  import opened Replay
  import opened Mirror
  import Keys
  import Rooms
  import Redis
  import Sweeps
  import Scans

  /** The newest document depends on the past only. */
  lemma {:induction false} NewestPast(
      rules: Rules, before: seq<State>, states: seq<State>, earlier: seq<Action>, acts: seq<Action>, k: nat, id: string)
    requires k <= |earlier| < |before| && |acts| < |states| && before <= states && earlier <= acts
    ensures Newest(rules, states, acts, k, id) == Newest(rules, before, earlier, k, id)
  {
    if k > 0 {
      NewestPast(rules, before, states, earlier, acts, k - 1, id);
    }
  }

  /** One more action of a schedule, and what it keeps. */
  lemma Next(rules: Rules, maxRooms: int, before: seq<State>, earlier: seq<Action>, a: Action, u: State, id: string)
    returns (states: seq<State>, acts: seq<Action>)
    requires IsRun(rules, maxRooms, before, earlier) && u == Do(rules, before[|earlier|], a)
    ensures states == before + [u] && acts == earlier + [a] && IsRun(rules, maxRooms, states, acts)
    ensures AllDisciplined(before, earlier) && KeepsRule(before[|earlier|], a) ==> AllDisciplined(states, acts)
    ensures AllOrderly(rules, before, earlier, id) && Orderly(rules, before[|earlier|], a, id) ==>
      AllOrderly(rules, states, acts, id)
    ensures Newest(rules, states, acts, |acts|, id)
         == NextNewest(rules, before[|earlier|], a, id, Newest(rules, before, earlier, |earlier|, id))
  {
    states, acts := Extended(rules, maxRooms, before, earlier, a, u);
    forall k: nat | k < |earlier|
      ensures KeepsRule(before[k], earlier[k]) ==> KeepsRule(states[k], acts[k])
      ensures Orderly(rules, before[k], earlier[k], id) ==> Orderly(rules, states[k], acts[k], id)
    {
    }
    NewestPast(rules, before, states, earlier, acts, |earlier|, id);
  }

  function TableOf(id: string, maxRooms: int): Rooms.Table {
    Rooms.Table(map[id := Rooms.NewRoom(id, "Battle Room", 2, 0)], false, maxRooms)
  }

  /** A create has passed its checks. */
  lemma CreateChecked(rules: Rules, maxRooms: int, id: string, init: Json)
    returns (states: seq<State>, acts: seq<Action>)
    requires maxRooms >= 1 && id != ""
    ensures IsRun(rules, maxRooms, states, acts) && AllDisciplined(states, acts)
    ensures AllOrderly(rules, states, acts, id)
    ensures states[|acts|] == State(Init(maxRooms).w, map[1 := InsertRoom(id, init)])
  {
    var one, w := Step(1, true, 0), Init(maxRooms).w;
    states, acts := Next(rules, maxRooms, [Init(maxRooms)], [], Call(1, CreateRoom(id, Some(init))),
                         State(w, map[1 := CheckMaintenance(id, Some(init))]), id);
    states, acts := Next(rules, maxRooms, states, acts, one, State(w, map[1 := CheckCapacity(id, Some(init))]), id);
    states, acts := Next(rules, maxRooms, states, acts, one, State(w, map[1 := InsertRoom(id, init)]), id);
  }

  /** The creator has inserted its room, and pauses. */
  lemma CreatorPends(rules: Rules, maxRooms: int, id: string, init: Json)
    returns (states: seq<State>, acts: seq<Action>)
    requires maxRooms >= 1 && id != ""
    ensures IsRun(rules, maxRooms, states, acts) && AllDisciplined(states, acts)
    ensures AllOrderly(rules, states, acts, id)
    ensures states[|acts|] == State(World(TableOf(id, maxRooms), map[], map[]), map[1 := OpenSession(id, init)])
  {
    states, acts := CreateChecked(rules, maxRooms, id, init);
    states, acts := Next(rules, maxRooms, states, acts, Step(1, true, 0),
                         State(World(TableOf(id, maxRooms), map[], map[]), map[1 := OpenSession(id, init)]), id);
  }

  /** A create alone, from its call to its reply. */
  lemma RoomGoesLive(rules: Rules, maxRooms: int, id: string, init: Json)
    returns (states: seq<State>, acts: seq<Action>)
    requires maxRooms >= 1 && id != "" && rules.create(init).Some?
    ensures IsRun(rules, maxRooms, states, acts) && AllDisciplined(states, acts)
    ensures rules.view(rules.create(init).value).Some? ==> AllOrderly(rules, states, acts, id)
    ensures states[|acts|].threads == map[1 := Finished(id, SUCCESS)]
    ensures states[|acts|].w.table == TableOf(id, maxRooms)
    ensures states[|acts|].w.sessions == map[id := rules.create(init).value]
  {
    states, acts := CreatorPends(rules, maxRooms, id, init);
    var one, w := Step(1, true, 0), states[|acts|].w;
    w := w.(sessions := map[id := rules.create(init).value]);
    states, acts := Next(rules, maxRooms, states, acts, one, State(w, map[1 := ReadState(id)]), id);
    var doc := View(rules, w.sessions, id);
    if doc.Some? {
      states, acts := Next(rules, maxRooms, states, acts, one, State(w, map[1 := StoreState(id, doc.value)]), id);
      w := w.(store := Keys.Set(w.store, id, rules.dump(doc.value)));
    }
    states, acts := Next(rules, maxRooms, states, acts, one, State(w, map[1 := Finished(id, SUCCESS)]), id);
  }

  /** A session without a room makes every CreateRoom that runs alone fail. */
  lemma OrphanBlocks(rules: Rules, w: World, id: string)
    requires id in w.sessions && id !in w.table.rooms
    ensures forall init, redisOk, at :: Create(rules, w, id, init, redisOk, at).1 != SUCCESS
  {
  }

  /** The destroyer runs to its end while the creator waits. */
  lemma DestroyerOvertakes(rules: Rules, maxRooms: int, before: seq<State>, earlier: seq<Action>, id: string, pc: Pc)
    returns (states: seq<State>, acts: seq<Action>)
    requires IsRun(rules, maxRooms, before, earlier)
    requires var s := before[|earlier|];
      s.threads == map[1 := pc] && s.w.table.rooms.Keys == {id} && s.w.sessions == map[] && s.w.store == map[]
    ensures IsRun(rules, maxRooms, states, acts)
    ensures var w := before[|earlier|].w;
      states[|acts|] == State(w.(table := w.table.(rooms := map[])), map[1 := pc, 2 := Finished(id, SUCCESS)])
  {
    var two, s := Step(2, true, 0), before[|earlier|];
    var w := s.w.(table := s.w.table.(rooms := map[]));
    states, acts := Extended(rules, maxRooms, before, earlier, Call(2, DestroyRoom(id)),
                             State(s.w, map[1 := pc, 2 := CloseRoom(id)]));
    states, acts := Extended(rules, maxRooms, states, acts, two, State(w, map[1 := pc, 2 := DropSession(id)]));
    states, acts := Extended(rules, maxRooms, states, acts, two, State(w, map[1 := pc, 2 := EraseData(id)]));
    states, acts := Extended(rules, maxRooms, states, acts, two, State(w, map[1 := pc, 2 := Finished(id, SUCCESS)]));
  }

  /** The creator opens its session although its room is gone. */
  lemma CreatorResumes(rules: Rules, maxRooms: int, before: seq<State>, earlier: seq<Action>, id: string, init: Json)
    returns (states: seq<State>, acts: seq<Action>)
    requires IsRun(rules, maxRooms, before, earlier) && id != "" && rules.create(init).Some?
    requires var s := before[|earlier|];
      s.w.sessions == map[] && s.w.table.rooms == map[]
      && s.threads == map[1 := OpenSession(id, init), 2 := Finished(id, SUCCESS)]
    ensures IsRun(rules, maxRooms, states, acts)
    ensures var s := states[|acts|];
      && s.threads == map[1 := Finished(id, SUCCESS), 2 := Finished(id, SUCCESS)]
      && s.w.table == before[|earlier|].w.table && id in s.w.sessions
  {
    var one, s := Step(1, true, 0), before[|earlier|];
    var w := s.w.(sessions := map[id := rules.create(init).value]);
    states, acts := Extended(rules, maxRooms, before, earlier, one,
                             State(w, map[1 := ReadState(id), 2 := Finished(id, SUCCESS)]));
    var doc := View(rules, w.sessions, id);
    var pc := if doc.None? then Finished(id, SUCCESS) else StoreState(id, doc.value);
    states, acts := Extended(rules, maxRooms, states, acts, one, State(w, map[1 := pc, 2 := Finished(id, SUCCESS)]));
    if doc.Some? {
      var v := w.(store := Keys.Set(w.store, id, rules.dump(doc.value)));
      states, acts := Extended(rules, maxRooms, states, acts, one,
                               State(v, map[1 := Finished(id, SUCCESS), 2 := Finished(id, SUCCESS)]));
    }
  }

  /**
   The rule is needed. Some schedule of one CreateRoom and one DestroyRoom that both succeed leaves
   nothing in flight and a session without a room, and then no CreateRoom on the id that runs alone can
   succeed.
   */
  lemma OvertakenCreateLeavesOrphan(rules: Rules, maxRooms: int, id: string, init: Json)
    returns (states: seq<State>, acts: seq<Action>)
    requires maxRooms >= 1 && id != "" && rules.create(init).Some?
    ensures IsRun(rules, maxRooms, states, acts)
    ensures var s := states[|acts|];
      && s.threads == map[1 := Finished(id, SUCCESS), 2 := Finished(id, SUCCESS)]
      && id !in s.w.table.rooms && id in s.w.sessions
      && forall again, redisOk, at :: Create(rules, s.w, id, again, redisOk, at).1 != SUCCESS
  {
    states, acts := CreatorPends(rules, maxRooms, id, init);
    states, acts := DestroyerOvertakes(rules, maxRooms, states, acts, id, OpenSession(id, init));
    states, acts := CreatorResumes(rules, maxRooms, states, acts, id, init);
    OrphanBlocks(rules, states[|acts|].w, id);
  }

  /** A handler that takes effect at some step is in the log from then on. */
  lemma {:induction false} InLog(rules: Rules, states: seq<State>, acts: seq<Action>, j: nat, k: nat) returns (i: nat)
    requires j < k <= |acts| < |states| && EntryOf(rules, states[j], acts[j]).Some?
    ensures i < |Log(rules, states, acts, k)|
    ensures Log(rules, states, acts, k)[i] == EntryOf(rules, states[j], acts[j]).value
    decreases k
  {
    if j == k - 1 {
      i := |Log(rules, states, acts, k - 1)|;
    } else {
      i := InLog(rules, states, acts, j, k - 1);
    }
  }

  /** A command is called, finds its room, and pauses before its turn. */
  lemma CommandWaits(
      rules: Rules, maxRooms: int, before: seq<State>, earlier: seq<Action>, tid: nat, id: string, action: Json)
    returns (states: seq<State>, acts: seq<Action>)
    requires IsRun(rules, maxRooms, before, earlier) && AllDisciplined(before, earlier)
    requires var s := before[|earlier|];
      && tid !in s.threads && s.w.table == TableOf(id, maxRooms)
      && forall t :: InFlight(s, t, id) ==> OfCommand(s.threads[t])
    ensures IsRun(rules, maxRooms, states, acts) && AllDisciplined(states, acts)
    ensures AllOrderly(rules, before, earlier, id) ==> AllOrderly(rules, states, acts, id)
    ensures var s := before[|earlier|]; states[|acts|] == s.(threads := s.threads[tid := PlayTurn(id, action)])
  {
    var s := before[|earlier|];
    states, acts := Next(rules, maxRooms, before, earlier, Call(tid, SendCommand(id, Some(action))),
                         s.(threads := s.threads[tid := FindRoom(id, Some(action))]), id);
    states, acts := Next(rules, maxRooms, states, acts, Step(tid, true, 0),
                         s.(threads := s.threads[tid := PlayTurn(id, action)]), id);
  }

  /** A room is created, a command reaches its turn, and a destroy closes the room and pauses. */
  lemma CommandFallsBehind(rules: Rules, maxRooms: int, id: string, init: Json, action: Json)
    returns (states: seq<State>, acts: seq<Action>)
    requires maxRooms >= 1 && id != "" && rules.create(init).Some?
    ensures IsRun(rules, maxRooms, states, acts) && AllDisciplined(states, acts)
    ensures var s := states[|acts|];
      && s.threads == map[1 := Finished(id, SUCCESS), 2 := PlayTurn(id, action), 3 := DropSession(id)]
      && id in s.w.sessions
  {
    states, acts := RoomGoesLive(rules, maxRooms, id, init);
    var w, done := states[|acts|].w, Finished(id, SUCCESS);
    states, acts := CommandWaits(rules, maxRooms, states, acts, 2, id, action);
    states, acts := Next(rules, maxRooms, states, acts, Call(3, DestroyRoom(id)),
                         State(w, map[1 := done, 2 := PlayTurn(id, action), 3 := CloseRoom(id)]), id);
    forall other
      ensures !Creating(states[|acts|], other)
    {
    }
    w := w.(table := w.table.(rooms := map[]));
    states, acts := Next(rules, maxRooms, states, acts, Step(3, true, 0),
                         State(w, map[1 := done, 2 := PlayTurn(id, action), 3 := DropSession(id)]), id);
  }

  /** The command plays its turn, and after it the destroy goes on; both run to their ends. */
  lemma BothFinish(rules: Rules, maxRooms: int, before: seq<State>, earlier: seq<Action>, id: string, action: Json)
    returns (states: seq<State>, acts: seq<Action>)
    requires IsRun(rules, maxRooms, before, earlier) && AllDisciplined(before, earlier)
    requires before[|earlier|].threads
          == map[1 := Finished(id, SUCCESS), 2 := PlayTurn(id, action), 3 := DropSession(id)]
    ensures IsRun(rules, maxRooms, states, acts) && AllDisciplined(states, acts) && Quiescent(states[|acts|])
    ensures before <= states && earlier + [Step(2, true, 0)] <= acts
  {
    var two, three := Step(2, true, 0), Step(3, true, 0);
    states, acts := Next(rules, maxRooms, before, earlier, two, Do(rules, before[|earlier|], two), id);
    var pc := states[|acts|].threads[2];
    assert states[|acts|].threads == map[1 := Finished(id, SUCCESS), 2 := pc, 3 := DropSession(id)];
    states, acts := Next(rules, maxRooms, states, acts, two, Do(rules, states[|acts|], two), id);
    pc := states[|acts|].threads[2];
    assert states[|acts|].threads == map[1 := Finished(id, SUCCESS), 2 := pc, 3 := DropSession(id)] && pc.Finished?;
    states, acts := DestroyFinishes(rules, maxRooms, states, acts, id, pc);
  }

  lemma DestroyFinishes(rules: Rules, maxRooms: int, before: seq<State>, earlier: seq<Action>, id: string, pc: Pc)
    returns (states: seq<State>, acts: seq<Action>)
    requires IsRun(rules, maxRooms, before, earlier) && AllDisciplined(before, earlier) && pc.Finished?
    requires before[|earlier|].threads == map[1 := Finished(id, SUCCESS), 2 := pc, 3 := DropSession(id)]
    ensures IsRun(rules, maxRooms, states, acts) && AllDisciplined(states, acts) && Quiescent(states[|acts|])
    ensures before <= states && earlier <= acts
  {
    var three, s := Step(3, true, 0), before[|earlier|];
    var w := s.w.(sessions := s.w.sessions - {id});
    states, acts := Next(rules, maxRooms, before, earlier, three,
                         State(w, map[1 := Finished(id, SUCCESS), 2 := pc, 3 := EraseData(id)]), id);
    w := w.(store := Keys.Erase(w.store, id));
    states, acts := Next(rules, maxRooms, states, acts, three,
                         State(w, map[1 := Finished(id, SUCCESS), 2 := pc, 3 := Finished(id, SUCCESS)]), id);
  }

  /**
   Late commands happen, in schedules that keep the rule: the command of this one plays its turn in a session
   whose room is closed, and the serial replay does not give it the reply it gave.
   */
  lemma LateCommandHappens(rules: Rules, maxRooms: int, id: string, init: Json, action: Json)
    returns (states: seq<State>, acts: seq<Action>, worlds: seq<World>, i: nat)
    requires maxRooms >= 1 && id != "" && rules.create(init).Some?
    ensures IsRun(rules, maxRooms, states, acts) && AllDisciplined(states, acts) && Quiescent(states[|acts|])
    ensures var log := Log(rules, states, acts, |acts|);
      && IsReplay(rules, maxRooms, worlds, log) && i < |log|
      && log[i].request == SendCommand(id, Some(action)) && log[i].late && !SameReply(rules, worlds, log, i)
  {
    states, acts := CommandFallsBehind(rules, maxRooms, id, init, action);
    var j, s := |acts|, states[|acts|];
    assert IsDestroyer(s, 3, id);
    states, acts := BothFinish(rules, maxRooms, states, acts, id, action);
    assert states[j] == s && acts[j] == Step(2, true, 0);
    i := InLog(rules, states, acts, j, |acts|);
    worlds := SerialReplay(rules, maxRooms, states, acts, |acts|);
  }

  /** A battle that can be shown, and two requests that it accepts in this order. */
  predicate TwoTurns(rules: Rules, init: Json, one: Json, two: Json) {
    && rules.create(init).Some? && rules.view(rules.create(init).value).Some?
    && var (battle, first) := rules.turn(rules.create(init).value, one);
       rules.ok(first) && rules.ok(rules.turn(battle, two).1)
  }

  /** A live room and two commands on it that are about to take their turns. */
  lemma TwoCommandsWait(rules: Rules, maxRooms: int, id: string, init: Json, one: Json, two: Json)
    returns (states: seq<State>, acts: seq<Action>)
    requires maxRooms >= 1 && id != "" && TwoTurns(rules, init, one, two)
    ensures IsRun(rules, maxRooms, states, acts) && AllOrderly(rules, states, acts, id)
    ensures states[|acts|].threads == map[1 := Finished(id, SUCCESS), 2 := PlayTurn(id, one), 3 := PlayTurn(id, two)]
    ensures states[|acts|].w.sessions == map[id := rules.create(init).value]
  {
    states, acts := RoomGoesLive(rules, maxRooms, id, init);
    states, acts := CommandWaits(rules, maxRooms, states, acts, 2, id, one);
    states, acts := CommandWaits(rules, maxRooms, states, acts, 3, id, two);
  }

  /** Two commands whose turns are accepted one after the other, and neither response is stored yet. */
  lemma TwoTurnsPend(rules: Rules, maxRooms: int, id: string, init: Json, one: Json, two: Json)
    returns (states: seq<State>, acts: seq<Action>)
    requires maxRooms >= 1 && id != "" && TwoTurns(rules, init, one, two)
    ensures IsRun(rules, maxRooms, states, acts) && AllOrderly(rules, states, acts, id)
    ensures var (battle, first) := rules.turn(rules.create(init).value, one);
      var second := rules.turn(battle, two).1;
      && states[|acts|].threads
         == map[1 := Finished(id, SUCCESS), 2 := StoreTurn(id, first), 3 := StoreTurn(id, second)]
      && Newest(rules, states, acts, |acts|, id) == Some(Mark(3, second))
  {
    states, acts := TwoCommandsWait(rules, maxRooms, id, init, one, two);
    var w, done := states[|acts|].w, Finished(id, SUCCESS);
    var turn := rules.turn(rules.create(init).value, one);
    w := w.(sessions := map[id := turn.0]);
    states, acts := Next(rules, maxRooms, states, acts, Step(2, true, 0),
                         State(w, map[1 := done, 2 := StoreTurn(id, turn.1), 3 := PlayTurn(id, two)]), id);
    var next := rules.turn(turn.0, two);
    w := w.(sessions := map[id := next.0]);
    states, acts := Next(rules, maxRooms, states, acts, Step(3, true, 0),
                         State(w, map[1 := done, 2 := StoreTurn(id, turn.1), 3 := StoreTurn(id, next.1)]), id);
  }

  /**
   Overlapping commands of one id can leave the older response in Redis: the second turn's is stored first.
   */
  lemma OlderResponseStays(rules: Rules, maxRooms: int, id: string, init: Json, one: Json, two: Json)
    returns (states: seq<State>, acts: seq<Action>)
    requires maxRooms >= 1 && id != "" && TwoTurns(rules, init, one, two)
    ensures IsRun(rules, maxRooms, states, acts) && AllOrderly(rules, states, acts, id) && AtRest(states[|acts|], id)
    ensures var (battle, first) := rules.turn(rules.create(init).value, one);
      && Newest(rules, states, acts, |acts|, id) == Some(Mark(3, rules.turn(battle, two).1))
      && Lookup(states[|acts|].w.store, Keys.RoomKey(id)) == Some(rules.dump(first))
  {
    states, acts := TwoTurnsPend(rules, maxRooms, id, init, one, two);
    var w, done := states[|acts|].w, Finished(id, SUCCESS);
    var first, second := states[|acts|].threads[2].doc, states[|acts|].threads[3].doc;
    w := w.(store := Keys.Set(w.store, id, rules.dump(second)));
    states, acts := Next(rules, maxRooms, states, acts, Step(3, true, 0),
                         State(w, map[1 := done, 2 := StoreTurn(id, first), 3 := done]), id);
    w := w.(store := Keys.Set(w.store, id, rules.dump(first)));
    states, acts := Next(rules, maxRooms, states, acts, Step(2, true, 0),
                         State(w, map[1 := done, 2 := done, 3 := done]), id);
  }

  /** Two room keys that Redis keeps apart and the loops do not: the second one cut at its NUL is the first. */
  predicate Shadows(shadow: string, key: string) {
    && Keys.IsRoomKey(key) && Keys.IsRoomKey(shadow) && CString(shadow) == key && shadow != key
    && !Keys.IsCommandKey(key) && !Keys.IsCommandKey(shadow)
  }

  /** For example those of rooms `a` and `a\0b`. */
  lemma ShadowsExist()
    ensures Shadows(Keys.RoomKey("a\0b"), Keys.RoomKey("a"))
  {
    assert CString("a\0b") == "a" by {
      assert "a\0b"[1..][0] == '\0';
      assert CString("a\0b") == ['a'] + CString("a\0b"[1..]);
    }
    Keys.CutRoomKey("a\0b");
    Keys.RoomKeyInjective("a", "a\0b");
    Keys.OverlookedRooms("a");
    Keys.OverlookedRooms("a\0b");
  }

  /** The live data of two such rooms. */
  function TwoRooms(key: string, plain: string, shadow: string, hidden: string): Redis.Store {
    Redis.Store(0, map[key := Redis.Entry(Redis.Text(plain), None), shadow := Redis.Entry(Redis.Text(hidden), None)])
  }

  /** A sweep goes wrong: the server's room with the NUL cannot be deleted. */
  lemma HiddenRoomStays(
      docs: Sweeps.Docs, ip: string, key: string, plain: string, shadow: string, hidden: string)
    returns (items: seq<Sweeps.Item>)
    requires Shadows(shadow, key) && docs.serverId(hidden) == Some(ip)
    ensures var r := TwoRooms(key, plain, shadow, hidden);
      Sweeps.Promising(docs, r, ip, items) && !Sweeps.Right(docs, r, ip, items)
  {
    CStringFacts(shadow);
    items := Sweeps.StraySpoils(docs, TwoRooms(key, plain, shadow, hidden), ip, shadow);
  }

  /** The same with the companion of the first room. */
  function WithCompanion(r: Redis.Store, key: string, command: string): Redis.Store {
    r.(data := r.data[Keys.Companion(key) := Redis.Entry(Redis.Text(command), None)])
  }

  /** Another sweep goes wrong: misreading the key with the NUL, it parts the server's room from its companion. */
  lemma CompanionStays(
      docs: Sweeps.Docs, ip: string, key: string, plain: string, shadow: string, hidden: string, command: string)
    returns (items: seq<Sweeps.Item>)
    requires Shadows(shadow, key) && docs.serverId(plain) == Some(ip) != docs.serverId(hidden)
    ensures var r := WithCompanion(TwoRooms(key, plain, shadow, hidden), key, command);
      Sweeps.Promising(docs, r, ip, items) && !Sweeps.Right(docs, r, ip, items)
  {
    var r := WithCompanion(TwoRooms(key, plain, shadow, hidden), key, command);
    CStringFacts(shadow);
    Keys.CompanionIsCommandKey(key);
    forall other | Sweeps.Misread(docs, r, ip, other)
      ensures other == shadow
    {
      CStringFacts(key);
    }
    assert Sweeps.Misread(docs, r, ip, shadow);
    items := Sweeps.StraySpoils(docs, r, ip, shadow);
  }

  lemma CountOfTwo(docs: Scans.Docs, one: Scans.Hit, other: Scans.Hit)
    ensures Scans.CountActive(docs, Scans.Kept([one, other]))
         == (if Scans.Counted(docs, one) then 1 else 0) + (if Scans.Counted(docs, other) then 1 else 0)
  {
    assert [one] + [other] == [one, other] && [] + [one] == [one];
    Scans.KeptNext(docs, [one], other);
    Scans.KeptNext(docs, [], one);
    Scans.NothingKept(docs);
  }

  lemma OneActive(docs: Scans.Docs, key: string, plain: string, shadow: string, hidden: string)
    requires Shadows(shadow, key) && Scans.IsActive(docs, plain) != Scans.IsActive(docs, hidden)
    ensures |Scans.ActiveRooms(docs, TwoRooms(key, plain, shadow, hidden))| == 1
  {
    assert Scans.ActiveRooms(docs, TwoRooms(key, plain, shadow, hidden))
        == {if Scans.IsActive(docs, plain) then key else shadow};
  }

  lemma ScanOfTwo(key: string, plain: string, shadow: string, hidden: string)
    requires Shadows(shadow, key)
    ensures Scans.QuietScan(TwoRooms(key, plain, shadow, hidden),
                            [Scans.Hit(key, Some(plain)), Scans.Hit(shadow, Some(plain))])
  {
    CStringFacts(shadow);
    CStringFacts(key);
  }

  /** The count goes wrong, either way: each of the two rooms is counted by the document of the first. */
  lemma HiddenRoomMiscounted(docs: Scans.Docs, key: string, plain: string, shadow: string, hidden: string)
    returns (hits: seq<Scans.Hit>)
    requires Shadows(shadow, key) && Scans.IsActive(docs, plain) != Scans.IsActive(docs, hidden)
    ensures var r := TwoRooms(key, plain, shadow, hidden);
      && Scans.QuietScan(r, hits) && Scans.CountsEachOnce(docs, hits) && |Scans.ActiveRooms(docs, r)| == 1
      && Scans.CountActive(docs, Scans.Kept(hits)) == if Scans.IsActive(docs, plain) then 2 else 0
  {
    hits := [Scans.Hit(key, Some(plain)), Scans.Hit(shadow, Some(plain))];
    ScanOfTwo(key, plain, shadow, hidden);
    OneActive(docs, key, plain, shadow, hidden);
    CountOfTwo(docs, hits[0], hits[1]);
    assert |hits| == 2 && hits[0].key != hits[1].key;
  }
}
