/** Rooms and sessions agree, id by id, in every interleaving of the handlers that keeps one rule. */
module Agreement {
  import opened Prelude
  import opened Battles
  import opened Handlers
  import opened Server
  import Rooms
  import Keys

  /** A CreateRoom that has inserted its room but not yet opened its session or undone the room. */
  predicate IsCreator(s: State, t: nat, id: string) {
    t in s.threads && (s.threads[t].OpenSession? || s.threads[t].Rollback?) && s.threads[t].id == id
  }

  /** A DestroyRoom that has closed its room but not yet dropped the session. */
  predicate IsDestroyer(s: State, t: nat, id: string) {
    t in s.threads && s.threads[t].DropSession? && s.threads[t].id == id
  }

  ghost predicate Creating(s: State, id: string) { exists t :: IsCreator(s, t, id) }

  ghost predicate Destroying(s: State, id: string) { exists t :: IsDestroyer(s, t, id) }

  ghost predicate Live(s: State, id: string) { id in s.w.table.rooms && !Creating(s, id) }

  datatype Phase = Absent | Created | Alive | Closing | Recreated

  ghost predicate InPhase(s: State, id: string, phase: Phase) {
    && (id in s.w.table.rooms <==> phase in {Created, Alive, Recreated})
    && (id in s.w.sessions <==> phase in {Alive, Closing, Recreated})
    && (Creating(s, id) <==> phase in {Created, Recreated})
    && (Destroying(s, id) <==> phase in {Closing, Recreated})
  }

  ghost predicate AtMostOne(s: State, id: string) {
    && (forall t, u :: IsCreator(s, t, id) && IsCreator(s, u, id) ==> t == u)
    && (forall t, u :: IsDestroyer(s, t, id) && IsDestroyer(s, u, id) ==> t == u)
  }

  ghost predicate Agrees(s: State, id: string) {
    AtMostOne(s, id) && exists phase :: InPhase(s, id, phase)
  }

  /** The steps that spoil the agreement: closing a room whose creator is pending, and shutdown's closes. */
  ghost predicate Spoils(s: State, a: Action, id: string) {
    match a
    case ShutdownClose(closed) => closed == id && id in s.w.table.rooms
    case Step(tid, _, _) =>
      tid in s.threads && s.threads[tid] == CloseRoom(id) && id in s.w.table.rooms && Creating(s, id)
    case _ => false
  }

  /** None of the actions does so. */
  ghost predicate Disciplined(states: seq<State>, acts: seq<Action>, id: string)
    requires |states| > |acts|
  {
    forall k: nat | k < |acts| :: !Spoils(states[k], acts[k], id)
  }

  /** The action spoils the agreement at no id. */
  ghost predicate KeepsRule(s: State, a: Action) {
    forall id :: !Spoils(s, a, id)
  }

  ghost predicate AllDisciplined(states: seq<State>, acts: seq<Action>)
    requires |states| > |acts|
  {
    forall k: nat | k < |acts| :: KeepsRule(states[k], acts[k])
  }

  /** The agreement at one id in terms that each step can be checked against. */
  lemma AgreesUnfolds(s: State, id: string)
    ensures Agrees(s, id) <==>
      && AtMostOne(s, id)
      && (Creating(s, id) ==> id in s.w.table.rooms)
      && (id in s.w.sessions <==> Live(s, id) || Destroying(s, id))
      && !(Live(s, id) && Destroying(s, id))
  {
    var phase := if Live(s, id) then Alive
      else if Creating(s, id) then (if Destroying(s, id) then Recreated else Created)
      else if Destroying(s, id) then Closing else Absent;
    assert InPhase(s, id, phase) || !exists p :: InPhase(s, id, p);
  }

  /** Actions that are not steps of a handler on this id change nothing that matters to it. */
  lemma ElsewhereAgrees(rules: Rules, s: State, a: Action, id: string)
    requires Agrees(s, id) && !Spoils(s, a, id)
    requires a.Step? && a.tid in s.threads ==> s.threads[a.tid].id != id
    ensures Agrees(Do(rules, s, a), id)
  {
    var u := Do(rules, s, a);
    AgreesUnfolds(s, id);
    AgreesUnfolds(u, id);
    if a.Step? && a.tid in s.threads {
      OtherIds(rules, s.w, s.threads[a.tid], a.redisOk, a.at, id);
    }
    forall t
      ensures IsCreator(u, t, id) <==> IsCreator(s, t, id)
      ensures IsDestroyer(u, t, id) <==> IsDestroyer(s, t, id)
    {
    }
    assert id in u.w.table.rooms <==> id in s.w.table.rooms;
    assert id in u.w.sessions <==> id in s.w.sessions;
  }

  /** Whose roles on the id a handler's step changes: its own, by where it goes. */
  lemma RolesMove(rules: Rules, s: State, a: Action, id: string)
    requires a.Step? && a.tid in s.threads && s.threads[a.tid].id == id
    ensures var u := Do(rules, s, a);
      var pc, next := s.threads[a.tid], u.threads[a.tid];
      && (forall o :: o != a.tid ==> (IsCreator(u, o, id) <==> IsCreator(s, o, id)))
      && (forall o :: o != a.tid ==> (IsDestroyer(u, o, id) <==> IsDestroyer(s, o, id)))
      && (IsCreator(s, a.tid, id) <==> pc.OpenSession? || pc.Rollback?)
      && (IsCreator(u, a.tid, id) <==> next.OpenSession? || next.Rollback?)
      && (IsDestroyer(s, a.tid, id) <==> pc.DropSession?)
      && (IsDestroyer(u, a.tid, id) <==> next.DropSession?)
  {
  }

  /** A step of a CreateRoom. */
  lemma CreatorAgrees(rules: Rules, s: State, a: Action, id: string)
    requires Agrees(s, id) && a.Step? && a.tid in s.threads && s.threads[a.tid].id == id
    requires OfCreate(s.threads[a.tid])
    ensures Agrees(Do(rules, s, a), id)
  {
    var u := Do(rules, s, a);
    AgreesUnfolds(s, id);
    AgreesUnfolds(u, id);
    RolesMove(rules, s, a, id);
    assert Destroying(u, id) <==> Destroying(s, id);
    if s.threads[a.tid].InsertRoom? {
      assert u.threads[a.tid].OpenSession? ==> !Creating(s, id);
    }
  }

  lemma HandlerAgrees(rules: Rules, s: State, a: Action, id: string)
    requires Agrees(s, id) && !Spoils(s, a, id)
    requires a.Step? && a.tid in s.threads && s.threads[a.tid].id == id
    ensures Agrees(Do(rules, s, a), id)
  {
    if OfCreate(s.threads[a.tid]) {
      CreatorAgrees(rules, s, a, id);
    } else {
      var u := Do(rules, s, a);
      AgreesUnfolds(s, id);
      AgreesUnfolds(u, id);
      RolesMove(rules, s, a, id);
      assert Creating(u, id) <==> Creating(s, id);
      if s.threads[a.tid].CloseRoom? {
        assert u.threads[a.tid].DropSession? ==> !Destroying(s, id);
      }
    }
  }

  /** One step keeps the five phases of an id exactly when it does not spoil them. */
  lemma StepAgrees(rules: Rules, s: State, a: Action, id: string)
    requires Agrees(s, id)
    ensures Agrees(Do(rules, s, a), id) <==> !Spoils(s, a, id)
  {
    if Spoils(s, a, id) {
      SpoiltDisagrees(rules, s, a, id);
    } else if a.Step? && a.tid in s.threads && s.threads[a.tid].id == id {
      HandlerAgrees(rules, s, a, id);
    } else {
      ElsewhereAgrees(rules, s, a, id);
    }
  }

  lemma SpoiltDisagrees(rules: Rules, s: State, a: Action, id: string)
    requires Agrees(s, id) && Spoils(s, a, id)
    ensures !Agrees(Do(rules, s, a), id)
  {
    var u := Do(rules, s, a);
    AgreesUnfolds(s, id);
    AgreesUnfolds(u, id);
    assert id !in u.w.table.rooms;
    if Creating(s, id) {
      var t :| IsCreator(s, t, id);
      assert IsCreator(u, t, id);
    } else {
      assert Live(s, id) && u.threads == s.threads && u.w.sessions == s.w.sessions;
      forall t
        ensures !IsDestroyer(u, t, id)
      {
        assert !IsDestroyer(s, t, id);
      }
    }
  }

  /** In every state of a disciplined schedule each id is in one of the five phases. */
  lemma {:induction false} RunAgrees(
      rules: Rules, maxRooms: int, states: seq<State>, acts: seq<Action>, k: nat, id: string)
    requires IsRun(rules, maxRooms, states, acts) && Disciplined(states, acts, id) && k <= |acts|
    ensures Agrees(states[k], id)
  {
    if k == 0 {
      assert InPhase(Init(maxRooms), id, Absent);
    } else {
      RunAgrees(rules, maxRooms, states, acts, k - 1, id);
      assert StepAt(rules, states, acts, k - 1);
      assert !Spoils(states[k - 1], acts[k - 1], id);
      StepAgrees(rules, states[k - 1], acts[k - 1], id);
    }
  }

  lemma RestAgrees(s: State, id: string)
    requires Agrees(s, id) && AtRest(s, id)
    ensures id in s.w.table.rooms <==> id in s.w.sessions
  {
    AgreesUnfolds(s, id);
    forall t
      ensures !IsCreator(s, t, id) && !IsDestroyer(s, t, id)
    {
      assert !InFlight(s, t, id);
    }
  }

  /** With no handler of its own in flight an id has a room exactly when it has a session. */
  lemma QuiescentAgreement(
      rules: Rules, maxRooms: int, states: seq<State>, acts: seq<Action>, k: nat, id: string)
    requires IsRun(rules, maxRooms, states, acts) && Disciplined(states, acts, id) && k <= |acts|
    requires AtRest(states[k], id)
    ensures id in states[k].w.table.rooms <==> id in states[k].w.sessions
  {
    RunAgrees(rules, maxRooms, states, acts, k, id);
    RestAgrees(states[k], id);
  }
}
