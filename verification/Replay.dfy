/**
 Serial replay: every schedule that keeps the rule of module Agreement is equivalent to running its
 successful creates, its successful destroys and the commands that reached a session one at a time.
 */
module Replay {
  import opened Prelude
  import opened Battles
  import opened Handlers
  import opened Server
  import opened Agreement
  import Rooms

  /**
   A call at the step where it takes effect, with the reply it is going to give. `late` marks a command
   that plays its turn while a DestroyRoom of the same id has closed the room but not dropped the session.
   */
  datatype Entry = Entry(tid: nat, request: Request, reply: Reply, late: bool)

  ghost function EntryOf(rules: Rules, s: State, a: Action): Option<Entry> {
    if !a.Step? || a.tid !in s.threads then None
    else
      match s.threads[a.tid]
      case OpenSession(id, parsed) =>
        if Open(rules, s.w.sessions, id, parsed).None? then None
        else Some(Entry(a.tid, CreateRoom(id, Some(parsed)), SUCCESS, false))
      case CloseRoom(id) =>
        if id !in s.w.table.rooms then None else Some(Entry(a.tid, DestroyRoom(id), SUCCESS, false))
      case PlayTurn(id, parsed) =>
        if id !in s.w.sessions then None
        else
          var accepted := Play(rules, s.w.sessions, id, parsed).1.Accepted?;
          Some(Entry(a.tid, SendCommand(id, Some(parsed)),
                     if accepted then SUCCESS else Reply(INVALID_ARGUMENT, 4), Destroying(s, id)))
      case _ => None
  }

  /** The calls that took effect during the first `k` actions, in order. */
  ghost function Log(rules: Rules, states: seq<State>, acts: seq<Action>, k: nat): seq<Entry>
    requires k <= |acts| < |states|
  {
    if k == 0 then []
    else
      match EntryOf(rules, states[k - 1], acts[k - 1])
      case None => Log(rules, states, acts, k - 1)
      case Some(e) => Log(rules, states, acts, k - 1) + [e]
  }

  ghost predicate ServedAt(rules: Rules, worlds: seq<World>, log: seq<Entry>, i: nat)
    requires i < |log| && |worlds| == |log| + 1
  {
    worlds[i + 1] == Serve(rules, worlds[i], log[i].request, true, 0).0
  }

  /** The logged calls run one at a time, each from start to finish, with the worlds between them. */
  ghost predicate IsReplay(rules: Rules, maxRooms: int, worlds: seq<World>, log: seq<Entry>) {
    && |worlds| == |log| + 1
    && worlds[0] == Init(maxRooms).w
    && forall i: nat | i < |log| :: ServedAt(rules, worlds, log, i)
  }

  /** The reply of the logged call `i` in that replay is the one it gave in the schedule. */
  ghost predicate SameReply(rules: Rules, worlds: seq<World>, log: seq<Entry>, i: nat)
    requires i < |log| && |worlds| == |log| + 1
  {
    Serve(rules, worlds[i], log[i].request, true, 0).1 == log[i].reply
  }

  ghost predicate MatchesAt(s: State, w: World, id: string) {
    && (id in w.table.rooms <==> Live(s, id))
    && Lookup(w.sessions, id) == (if Live(s, id) then Lookup(s.w.sessions, id) else None)
    && (id in w.table.rooms ==> w.table.rooms[id].isActive)
  }

  /** The serial world holds exactly the live rooms and their sessions. */
  ghost predicate Matches(s: State, w: World) {
    && !w.table.maintaining && w.table.maxRooms == s.w.table.maxRooms
    && forall id :: MatchesAt(s, w, id)
  }

  ghost predicate Sound(s: State) {
    (forall id :: Agrees(s, id)) && |s.w.table.rooms| <= Rooms.Limit(s.w.table.maxRooms)
  }

  /** Away from the id an action is about, liveness and sessions stay as they are. */
  lemma LiveElsewhere(rules: Rules, s: State, a: Action, id: string)
    requires Sound(s) && !Spoils(s, a, id)
    requires a.Step? && a.tid in s.threads ==> s.threads[a.tid].id != id
    ensures var u := Do(rules, s, a);
      (Live(u, id) <==> Live(s, id)) && Lookup(u.w.sessions, id) == Lookup(s.w.sessions, id)
  {
    var u := Do(rules, s, a);
    if a.Step? && a.tid in s.threads {
      OtherIds(rules, s.w, s.threads[a.tid], a.redisOk, a.at, id);
    }
    forall t
      ensures IsCreator(u, t, id) <==> IsCreator(s, t, id)
    {
    }
    assert id in u.w.table.rooms <==> id in s.w.table.rooms;
  }

  /** What a handler's step does to liveness and to the session of its own id. */
  lemma LiveHere(rules: Rules, s: State, a: Action)
    requires Sound(s) && a.Step? && a.tid in s.threads
    requires !Spoils(s, a, s.threads[a.tid].id)
    ensures var pc, u := s.threads[a.tid], Do(rules, s, a);
      && (pc.OpenSession? ==>
            !Live(s, pc.id) && (Live(u, pc.id) <==> Open(rules, s.w.sessions, pc.id, pc.parsed).Some?))
      && (pc.CloseRoom? ==> !Live(u, pc.id) && (Live(s, pc.id) <==> pc.id in s.w.table.rooms))
      && (!pc.OpenSession? && !pc.CloseRoom? ==> (Live(u, pc.id) <==> Live(s, pc.id)))
      && (!pc.OpenSession? && !pc.PlayTurn? && Live(s, pc.id) ==>
            Lookup(u.w.sessions, pc.id) == Lookup(s.w.sessions, pc.id))
  {
    var pc, u := s.threads[a.tid], Do(rules, s, a);
    var id := pc.id;
    AgreesUnfolds(s, id);
    HandlerAgrees(rules, s, a, id);
    AgreesUnfolds(u, id);
    forall o | o != a.tid
      ensures IsCreator(u, o, id) <==> IsCreator(s, o, id)
    {
    }
    assert IsCreator(s, a.tid, id) <==> pc.OpenSession? || pc.Rollback?;
    assert IsCreator(u, a.tid, id) <==> u.threads[a.tid].OpenSession? || u.threads[a.tid].Rollback?;
    assert IsDestroyer(s, a.tid, id) <==> pc.DropSession?;
  }

  lemma LimitsKept(rules: Rules, s: State, a: Action)
    ensures Do(rules, s, a).w.table.maxRooms == s.w.table.maxRooms
    ensures |s.w.table.rooms| <= Rooms.Limit(s.w.table.maxRooms) ==>
      |Do(rules, s, a).w.table.rooms| <= Rooms.Limit(s.w.table.maxRooms)
  {
    match a {
      case Step(tid, _, at) =>
        if tid in s.threads {
          var id := s.threads[tid].id;
          Rooms.StepSize(s.w.table, NewRoomOp(id, at));
          Rooms.StepSize(s.w.table, Rooms.Close(id));
        }
      case Activity => Rooms.StepSize(s.w.table, Rooms.Tick);
      case Maintain => Rooms.StepSize(s.w.table, Rooms.Maintain);
      case ShutdownClose(id) => Rooms.StepSize(s.w.table, Rooms.Close(id));
      case _ =>
    }
  }

  /** Steps that take no call into effect leave the serial world as it is. */
  lemma SilentStep(rules: Rules, s: State, a: Action, w: World)
    requires Sound(s) && Matches(s, w) && KeepsRule(s, a) && EntryOf(rules, s, a).None?
    ensures Matches(Do(rules, s, a), w)
  {
    LimitsKept(rules, s, a);
    var u := Do(rules, s, a);
    forall id
      ensures MatchesAt(u, w, id)
    {
      assert MatchesAt(s, w, id);
      if a.Step? && a.tid in s.threads && s.threads[a.tid].id == id {
        LiveHere(rules, s, a);
        SilentHere(rules, s, a, id);
      } else {
        LiveElsewhere(rules, s, a, id);
      }
    }
  }

  /** A silent step of a handler leaves the session of its id alone if the id stays live. */
  lemma SilentHere(rules: Rules, s: State, a: Action, id: string)
    requires Sound(s) && !Spoils(s, a, id) && EntryOf(rules, s, a).None?
    requires a.Step? && a.tid in s.threads && s.threads[a.tid].id == id
    ensures var u := Do(rules, s, a);
      (Live(u, id) <==> Live(s, id)) && (Live(s, id) ==> Lookup(u.w.sessions, id) == Lookup(s.w.sessions, id))
  {
    LiveHere(rules, s, a);
  }

  /** The serial world has room for a room whose creator is pending: that room is not in it yet. */
  lemma RoomLeft(s: State, w: World, id: string)
    requires Matches(s, w) && id in s.w.table.rooms && !Live(s, id)
    ensures |w.table.rooms| < |s.w.table.rooms|
  {
    var one, other := w.table.rooms.Keys, s.w.table.rooms.Keys;
    forall r | r in one
      ensures r in other
    {
      assert MatchesAt(s, w, r);
    }
    assert MatchesAt(s, w, id);
    SubsetSize(one, other);
  }

  lemma CreateStep(rules: Rules, s: State, a: Action, w: World)
    requires Sound(s) && Matches(s, w) && EntryOf(rules, s, a).Some? && s.threads[a.tid].OpenSession?
    ensures var (v, reply) := Serve(rules, w, EntryOf(rules, s, a).value.request, true, 0);
      Matches(Do(rules, s, a), v) && reply == SUCCESS
  {
    var id, parsed, u := s.threads[a.tid].id, s.threads[a.tid].parsed, Do(rules, s, a);
    AgreesUnfolds(s, id);
    assert IsCreator(s, a.tid, id);
    assert MatchesAt(s, w, id);
    RoomLeft(s, w, id);
    var v := Create(rules, w, id, Some(parsed), true, 0).0;
    assert v.table.rooms == w.table.rooms[id := Rooms.NewRoom(id, "Battle Room", 2, 0)];
    assert v.sessions == w.sessions[id := rules.create(parsed).value];
    LiveHere(rules, s, a);
    forall other
      ensures MatchesAt(u, v, other)
    {
      assert MatchesAt(s, w, other);
      if other != id { LiveElsewhere(rules, s, a, other); }
    }
  }

  lemma DestroyStep(rules: Rules, s: State, a: Action, w: World)
    requires Sound(s) && Matches(s, w) && EntryOf(rules, s, a).Some? && s.threads[a.tid].CloseRoom?
    requires !Spoils(s, a, s.threads[a.tid].id)
    ensures var (v, reply) := Serve(rules, w, EntryOf(rules, s, a).value.request, true, 0);
      Matches(Do(rules, s, a), v) && reply == SUCCESS
  {
    var id, u := s.threads[a.tid].id, Do(rules, s, a);
    assert s.threads[a.tid] == CloseRoom(id);
    assert MatchesAt(s, w, id);
    LiveHere(rules, s, a);
    var v := Destroy(w, id, true).0;
    assert v.table.rooms == w.table.rooms - {id} && v.sessions == w.sessions - {id};
    forall other
      ensures MatchesAt(u, v, other)
    {
      assert MatchesAt(s, w, other);
      if other != id { LiveElsewhere(rules, s, a, other); }
    }
  }

  lemma CommandStep(rules: Rules, s: State, a: Action, w: World)
    requires Sound(s) && Matches(s, w) && EntryOf(rules, s, a).Some? && s.threads[a.tid].PlayTurn?
    ensures var e := EntryOf(rules, s, a).value;
      var (v, reply) := Serve(rules, w, e.request, true, 0);
      Matches(Do(rules, s, a), v) && (reply == e.reply <==> !e.late)
  {
    var id, parsed, u := s.threads[a.tid].id, s.threads[a.tid].parsed, Do(rules, s, a);
    AgreesUnfolds(s, id);
    assert MatchesAt(s, w, id);
    LiveHere(rules, s, a);
    var v := Command(rules, w, id, Some(parsed), true).0;
    assert v.table == w.table;
    if Live(s, id) {
      assert w.sessions[id] == s.w.sessions[id];
    }
    forall other
      ensures MatchesAt(u, v, other)
    {
      assert MatchesAt(s, w, other);
      if other != id { LiveElsewhere(rules, s, a, other); }
    }
  }

  /** A logged call takes the serial world along, and gets its reply there exactly when it is not late. */
  lemma LoggedStep(rules: Rules, s: State, a: Action, w: World)
    requires Sound(s) && Matches(s, w) && KeepsRule(s, a) && EntryOf(rules, s, a).Some?
    ensures var e := EntryOf(rules, s, a).value;
      var (v, reply) := Serve(rules, w, e.request, true, 0);
      Matches(Do(rules, s, a), v) && (reply == e.reply <==> !e.late)
  {
    var pc := s.threads[a.tid];
    if pc.OpenSession? { CreateStep(rules, s, a, w); }
    else if pc.CloseRoom? { DestroyStep(rules, s, a, w); }
    else { CommandStep(rules, s, a, w); }
  }

  lemma {:induction false} SoundRun(rules: Rules, maxRooms: int, states: seq<State>, acts: seq<Action>, k: nat)
    requires IsRun(rules, maxRooms, states, acts) && AllDisciplined(states, acts) && k <= |acts|
    requires Rooms.Limit(maxRooms) >= 0
    ensures Sound(states[k]) && states[k].w.table.maxRooms == maxRooms
  {
    forall id
      ensures Agrees(states[k], id)
    {
      forall j: nat | j < |acts|
        ensures !Spoils(states[j], acts[j], id)
      {
        assert KeepsRule(states[j], acts[j]);
      }
      RunAgrees(rules, maxRooms, states, acts, k, id);
    }
    if k > 0 {
      SoundRun(rules, maxRooms, states, acts, k - 1);
      assert StepAt(rules, states, acts, k - 1);
      LimitsKept(rules, states[k - 1], acts[k - 1]);
    }
  }

  ghost predicate RepliesAgree(rules: Rules, worlds: seq<World>, log: seq<Entry>)
    requires |worlds| == |log| + 1
  {
    forall i: nat | i < |log| :: SameReply(rules, worlds, log, i) <==> !log[i].late
  }

  lemma ReplayExtended(rules: Rules, maxRooms: int, before: seq<World>, log: seq<Entry>, e: Entry, w: World)
    returns (worlds: seq<World>)
    requires IsReplay(rules, maxRooms, before, log) && RepliesAgree(rules, before, log)
    requires w == Serve(rules, before[|log|], e.request, true, 0).0
    requires Serve(rules, before[|log|], e.request, true, 0).1 == e.reply <==> !e.late
    ensures worlds == before + [w]
    ensures IsReplay(rules, maxRooms, worlds, log + [e]) && RepliesAgree(rules, worlds, log + [e])
  {
    worlds := before + [w];
    var longer := log + [e];
    forall i: nat | i < |longer|
      ensures ServedAt(rules, worlds, longer, i)
      ensures SameReply(rules, worlds, longer, i) <==> !longer[i].late
    {
      if i < |log| {
        assert ServedAt(rules, before, log, i);
        assert SameReply(rules, before, log, i) <==> !log[i].late;
      }
    }
  }

  /** At every moment the serial world matches, and each replayed call gets its reply unless it was late. */
  lemma {:induction false} ReplayRun(rules: Rules, maxRooms: int, states: seq<State>, acts: seq<Action>, k: nat)
    returns (worlds: seq<World>)
    requires IsRun(rules, maxRooms, states, acts) && AllDisciplined(states, acts) && k <= |acts|
    requires Rooms.Limit(maxRooms) >= 0
    ensures IsReplay(rules, maxRooms, worlds, Log(rules, states, acts, k))
    ensures RepliesAgree(rules, worlds, Log(rules, states, acts, k))
    ensures Matches(states[k], worlds[|worlds| - 1])
  {
    if k == 0 {
      worlds := [Init(maxRooms).w];
      NothingLive(maxRooms);
    } else {
      var s, a := states[k - 1], acts[k - 1];
      var earlier := Log(rules, states, acts, k - 1);
      worlds := ReplayRun(rules, maxRooms, states, acts, k - 1);
      var w := worlds[|earlier|];
      SoundRun(rules, maxRooms, states, acts, k - 1);
      assert StepAt(rules, states, acts, k - 1);
      assert KeepsRule(s, a);
      if EntryOf(rules, s, a).None? {
        SilentStep(rules, s, a, w);
      } else {
        var e := EntryOf(rules, s, a).value;
        LoggedStep(rules, s, a, w);
        worlds := ReplayExtended(rules, maxRooms, worlds, earlier, e, Serve(rules, w, e.request, true, 0).0);
      }
    }
  }

  lemma NothingLive(maxRooms: int)
    ensures Matches(Init(maxRooms), Init(maxRooms).w)
  {
  }

  /** The reply a handler is bound to give once its call has taken effect. */
  function Settled(pc: Pc): Option<Reply> {
    match pc
    case Finished(_, reply) => Some(reply)
    case _ =>
      if pc.ReadState? || pc.StoreState? || pc.StoreTurn? || pc.DropSession? || pc.EraseData?
      then Some(SUCCESS) else None
  }

  /** Settled handlers stay settled, and exactly the effective step of a call settles it on its logged reply. */
  lemma SettledStep(rules: Rules, s: State, a: Action, t: nat)
    requires t in s.threads
    ensures var u := Do(rules, s, a);
      && t in u.threads
      && (Settled(s.threads[t]).Some? ==> Settled(u.threads[t]) == Settled(s.threads[t]))
      && (s.threads[t].Finished? ==> u.threads[t] == s.threads[t])
      && (EntryOf(rules, s, a).Some? && a.tid == t ==>
            Settled(s.threads[t]).None? && Settled(u.threads[t]) == Some(EntryOf(rules, s, a).value.reply))
      && (Settled(s.threads[t]).None? && Settled(u.threads[t]) == Some(SUCCESS) ==>
            EntryOf(rules, s, a).Some? && a.tid == t)
  {
  }

  ghost predicate Logged(log: seq<Entry>, t: nat) {
    exists i: nat :: i < |log| && log[i].tid == t
  }

  /**
   Each logged handler is settled on its logged reply, each handler settled on success is logged, and no
   handler is logged twice.
   */
  ghost predicate LogComplete(s: State, log: seq<Entry>) {
    && (forall i: nat :: i < |log| ==>
          log[i].tid in s.threads && Settled(s.threads[log[i].tid]) == Some(log[i].reply))
    && (forall t :: t in s.threads && Settled(s.threads[t]) == Some(SUCCESS) ==> Logged(log, t))
    && (forall i: nat, j: nat :: i < j < |log| ==> log[i].tid != log[j].tid)
  }

  lemma {:induction false} LogRun(rules: Rules, maxRooms: int, states: seq<State>, acts: seq<Action>, k: nat)
    requires IsRun(rules, maxRooms, states, acts) && k <= |acts|
    ensures LogComplete(states[k], Log(rules, states, acts, k))
  {
    if k > 0 {
      var s, a, u := states[k - 1], acts[k - 1], states[k];
      var earlier, log := Log(rules, states, acts, k - 1), Log(rules, states, acts, k);
      LogRun(rules, maxRooms, states, acts, k - 1);
      assert StepAt(rules, states, acts, k - 1);
      assert forall i: nat :: i < |earlier| ==> log[i] == earlier[i];
      forall i: nat | i < |log|
        ensures log[i].tid in u.threads && Settled(u.threads[log[i].tid]) == Some(log[i].reply)
      {
        SettledStep(rules, s, a, log[i].tid);
      }
      forall t | t in u.threads && Settled(u.threads[t]) == Some(SUCCESS)
        ensures Logged(log, t)
      {
        if t in s.threads {
          SettledStep(rules, s, a, t);
          if Logged(earlier, t) {
            var i: nat :| i < |earlier| && earlier[i].tid == t;
            assert log[i].tid == t;
          } else {
            assert log[|earlier|].tid == t;
          }
        }
      }
      if |log| > |earlier| {
        SettledStep(rules, s, a, a.tid);
      }
    }
  }

  /**
   Serial replay. Whenever no handler is in flight, the rooms and the sessions, with every session's
   state, are those of running the logged calls one at a time; every logged handler has given its logged
   reply, every handler that replied with success is logged, and the replay gives a call that same reply
   exactly when the call was not late.
   */
  lemma SerialReplay(rules: Rules, maxRooms: int, states: seq<State>, acts: seq<Action>, k: nat)
    returns (worlds: seq<World>)
    requires IsRun(rules, maxRooms, states, acts) && AllDisciplined(states, acts) && k <= |acts|
    requires Rooms.Limit(maxRooms) >= 0 && Quiescent(states[k])
    ensures var s, log := states[k], Log(rules, states, acts, k);
      && LogComplete(s, log)
      && IsReplay(rules, maxRooms, worlds, log)
      && s.w.table.rooms.Keys == worlds[|log|].table.rooms.Keys
      && s.w.sessions == worlds[|log|].sessions
      && RepliesAgree(rules, worlds, log)
  {
    worlds := ReplayRun(rules, maxRooms, states, acts, k);
    SoundRun(rules, maxRooms, states, acts, k);
    LogRun(rules, maxRooms, states, acts, k);
    QuiescentMatch(states[k], worlds[|worlds| - 1]);
  }

  /** With nothing in flight every room is live, so matching is equality. */
  lemma QuiescentMatch(s: State, w: World)
    requires Matches(s, w) && Sound(s) && Quiescent(s)
    ensures s.w.table.rooms.Keys == w.table.rooms.Keys && s.w.sessions == w.sessions
  {
    forall id
      ensures id in s.w.table.rooms <==> id in w.table.rooms
      ensures Lookup(s.w.sessions, id) == Lookup(w.sessions, id)
    {
      assert MatchesAt(s, w, id) && Agrees(s, id);
      AgreesUnfolds(s, id);
    }
    assert forall id :: id in s.w.sessions <==> Lookup(s.w.sessions, id).Some?;
    assert forall id :: id in w.sessions <==> Lookup(w.sessions, id).Some?;
  }

  /** The log respects real time: a call that had finished before another one began comes first. */
  lemma {:induction false} RealTimeOrder(
      rules: Rules, maxRooms: int, states: seq<State>, acts: seq<Action>, j: nat, k: nat, first: nat, second: nat)
    requires IsRun(rules, maxRooms, states, acts) && j <= k <= |acts|
    requires first < |Log(rules, states, acts, k)| && second < |Log(rules, states, acts, k)|
    requires var t := Log(rules, states, acts, k)[first].tid; t in states[j].threads && states[j].threads[t].Finished?
    requires Log(rules, states, acts, k)[second].tid !in states[j].threads
    ensures first < second
    decreases k
  {
    LogRun(rules, maxRooms, states, acts, j);
    if j < k {
      var earlier, log := Log(rules, states, acts, k - 1), Log(rules, states, acts, k);
      assert StepAt(rules, states, acts, k - 1);
      assert log[..|earlier|] == earlier;
      if first == |earlier| {
        FinishedStays(rules, maxRooms, states, acts, j, k - 1, log[first].tid);
        SettledStep(rules, states[k - 1], acts[k - 1], log[first].tid);
        assert false;
      } else if second < |earlier| {
        assert log[first] == earlier[first] && log[second] == earlier[second];
        RealTimeOrder(rules, maxRooms, states, acts, j, k - 1, first, second);
      }
    }
  }

  lemma {:induction false} FinishedStays(
      rules: Rules, maxRooms: int, states: seq<State>, acts: seq<Action>, j: nat, k: nat, t: nat)
    requires IsRun(rules, maxRooms, states, acts) && j <= k <= |acts|
    requires t in states[j].threads && states[j].threads[t].Finished?
    ensures t in states[k].threads && states[k].threads[t] == states[j].threads[t]
    decreases k
  {
    if j < k {
      FinishedStays(rules, maxRooms, states, acts, j, k - 1, t);
      assert StepAt(rules, states, acts, k - 1);
      SettledStep(rules, states[k - 1], acts[k - 1], t);
    }
  }

  /** The request a handler was called with. */
  ghost function Asked(states: seq<State>, acts: seq<Action>, k: nat, t: nat): Option<Request>
    requires k <= |acts| < |states|
  {
    if k == 0 then None
    else if acts[k - 1].Call? && acts[k - 1].tid == t && t !in states[k - 1].threads then Some(acts[k - 1].request)
    else Asked(states, acts, k - 1, t)
  }

  /** A handler that has not taken effect yet still carries its request. */
  predicate Carries(pc: Pc, request: Request) {
    match pc
    case CheckMaintenance(id, init) => request == CreateRoom(id, init)
    case CheckCapacity(id, init) => request == CreateRoom(id, init)
    case InsertRoom(id, parsed) => request == CreateRoom(id, Some(parsed))
    case OpenSession(id, parsed) => request == CreateRoom(id, Some(parsed))
    case FindRoom(id, action) => request == SendCommand(id, action)
    case PlayTurn(id, parsed) => request == SendCommand(id, Some(parsed))
    case CloseRoom(id) => request == DestroyRoom(id)
    case _ => true
  }

  lemma CarriesStep(rules: Rules, s: State, a: Action, t: nat, request: Request)
    requires t in s.threads && Carries(s.threads[t], request)
    ensures t in Do(rules, s, a).threads && Carries(Do(rules, s, a).threads[t], request)
    ensures EntryOf(rules, s, a).Some? && a.tid == t ==> EntryOf(rules, s, a).value.request == request
  {
  }

  lemma {:induction false} AskedRun(
      rules: Rules, maxRooms: int, states: seq<State>, acts: seq<Action>, k: nat, t: nat)
    requires IsRun(rules, maxRooms, states, acts) && k <= |acts| && t in states[k].threads
    ensures var request := Asked(states, acts, k, t); request.Some? && Carries(states[k].threads[t], request.value)
  {
    assert StepAt(rules, states, acts, k - 1);
    var s, a := states[k - 1], acts[k - 1];
    if t in s.threads {
      AskedRun(rules, maxRooms, states, acts, k - 1, t);
      CarriesStep(rules, s, a, t, Asked(states, acts, k - 1, t).value);
    }
  }

  /** Every log entry holds the request its handler was called with. */
  lemma {:induction false} LogRequests(
      rules: Rules, maxRooms: int, states: seq<State>, acts: seq<Action>, k: nat, i: nat)
    requires IsRun(rules, maxRooms, states, acts) && k <= |acts| && i < |Log(rules, states, acts, k)|
    ensures var e := Log(rules, states, acts, k)[i]; Asked(states, acts, k, e.tid) == Some(e.request)
  {
    var s, a := states[k - 1], acts[k - 1];
    var earlier, e := Log(rules, states, acts, k - 1), Log(rules, states, acts, k)[i];
    assert StepAt(rules, states, acts, k - 1);
    if i < |earlier| {
      LogRequests(rules, maxRooms, states, acts, k - 1, i);
      LogRun(rules, maxRooms, states, acts, k - 1);
      assert earlier[i] == e;
    } else {
      AskedRun(rules, maxRooms, states, acts, k - 1, e.tid);
      CarriesStep(rules, s, a, e.tid, Asked(states, acts, k - 1, e.tid).value);
    }
  }
}
