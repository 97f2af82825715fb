/** The Redis copy of the battles: where its values come from, and when it agrees with the battle. */
module Mirror {
  import opened Prelude
  import opened Battles
  import opened Handlers
  import opened Server
  import opened Agreement
  import opened Turns
  import Keys

  /**
   The action reads `doc` from the session of `id`, which exists, or computes it there as the response to a
   turn that the simulator calls all right.
   */
  ghost predicate Emits(rules: Rules, s: State, a: Action, id: string, doc: Json) {
    && a.Step? && a.tid in s.threads && id in s.w.sessions
    && (match s.threads[a.tid]
        case ReadState(r) => r == id && rules.view(s.w.sessions[id]) == Some(doc)
        case PlayTurn(r, parsed) => r == id && rules.turn(s.w.sessions[id], parsed).1 == doc && rules.ok(doc)
        case _ => false)
  }

  ghost predicate Produced(rules: Rules, states: seq<State>, acts: seq<Action>, k: nat, id: string, doc: Json)
    requires k <= |acts| < |states|
  {
    exists j: nat :: j < k && Emits(rules, states[j], acts[j], id, doc)
  }

  /** A stored value, or one a handler is about to store, and the document it comes from. */
  ghost predicate StoredFrom(rules: Rules, s: State, key: string, id: string, doc: Json) {
    key in s.w.store && key == Keys.RoomKey(id) && s.w.store[key] == rules.dump(doc)
  }

  predicate Pending(pc: Pc, doc: Json) { (pc.StoreState? || pc.StoreTurn?) && pc.doc == doc }

  lemma StoredStep(rules: Rules, s: State, a: Action, key: string)
    requires key in Do(rules, s, a).w.store
    ensures var u := Do(rules, s, a);
      || (key in s.w.store && u.w.store[key] == s.w.store[key])
      || (a.Step? && a.tid in s.threads && (s.threads[a.tid].StoreState? || s.threads[a.tid].StoreTurn?)
          && StoredFrom(rules, u, key, s.threads[a.tid].id, s.threads[a.tid].doc))
  {
  }

  lemma PendingStep(rules: Rules, s: State, a: Action, t: nat, doc: Json)
    requires t in Do(rules, s, a).threads && Pending(Do(rules, s, a).threads[t], doc)
    ensures (t in s.threads && Pending(s.threads[t], doc) && s.threads[t].id == Do(rules, s, a).threads[t].id)
      || Emits(rules, s, a, Do(rules, s, a).threads[t].id, doc)
  {
  }

  lemma {:induction false} PendingRun(
      rules: Rules, maxRooms: int, states: seq<State>, acts: seq<Action>, k: nat, t: nat, doc: Json)
    requires IsRun(rules, maxRooms, states, acts) && k <= |acts|
    requires t in states[k].threads && Pending(states[k].threads[t], doc)
    ensures Produced(rules, states, acts, k, states[k].threads[t].id, doc)
  {
    assert StepAt(rules, states, acts, k - 1);
    PendingStep(rules, states[k - 1], acts[k - 1], t, doc);
    var id := states[k].threads[t].id;
    if !Emits(rules, states[k - 1], acts[k - 1], id, doc) {
      PendingRun(rules, maxRooms, states, acts, k - 1, t, doc);
      var j: nat :| j < k - 1 && Emits(rules, states[j], acts[j], id, doc);
    }
  }

  /**
   Under every interleaving, with failing Redis commands and expiring keys, each stored value was read or
   computed from a session of the very id its key names.
   */
  lemma {:induction false} StoredValuesAreGenuine(
      rules: Rules, maxRooms: int, states: seq<State>, acts: seq<Action>, k: nat, key: string)
    returns (id: string, doc: Json)
    requires IsRun(rules, maxRooms, states, acts) && k <= |acts| && key in states[k].w.store
    ensures StoredFrom(rules, states[k], key, id, doc)
    ensures Produced(rules, states, acts, k, id, doc)
  {
    var s, a := states[k - 1], acts[k - 1];
    assert StepAt(rules, states, acts, k - 1);
    StoredStep(rules, s, a, key);
    if key in s.w.store && states[k].w.store[key] == s.w.store[key] {
      id, doc := StoredValuesAreGenuine(rules, maxRooms, states, acts, k - 1, key);
      var j: nat :| j < k - 1 && Emits(rules, states[j], acts[j], id, doc);
    } else {
      id, doc := s.threads[a.tid].id, s.threads[a.tid].doc;
      PendingRun(rules, maxRooms, states, acts, k - 1, a.tid, doc);
      var j: nat :| j < k - 1 && Emits(rules, states[j], acts[j], id, doc);
    }
  }

  /** A document and the handler that produced it; a handler produces at most one. */
  datatype Mark = Mark(tid: nat, doc: Json)

  /** What an action makes of the newest document of the battle of `id`. */
  ghost function NextNewest(rules: Rules, s: State, a: Action, id: string, newest: Option<Mark>): Option<Mark> {
    match EventOf(rules, s, a)
    case Some(Opened(r, _)) => if r == id then Shown(a.tid, View(rules, Do(rules, s, a).w.sessions, id)) else newest
    case Some(Played(r, _, Accepted(response))) => if r == id then Some(Mark(a.tid, response)) else newest
    case Some(Dropped(r)) => if r == id then None else newest
    case _ => newest
  }

  function Shown(tid: nat, doc: Option<Json>): Option<Mark> {
    if doc.None? then None else Some(Mark(tid, doc.value))
  }

  /** The last accepted response of the battle of `id`, or its initial state before the first. */
  ghost function Newest(rules: Rules, states: seq<State>, acts: seq<Action>, k: nat, id: string): Option<Mark>
    requires k <= |acts| < |states|
  {
    if k == 0 then None
    else NextNewest(rules, states[k - 1], acts[k - 1], id, Newest(rules, states, acts, k - 1, id))
  }

  /** What an action makes of the document last stored under the key of `id`, if it is still there. */
  ghost function NextStored(s: State, a: Action, id: string, stored: Option<Mark>): Option<Mark> {
    match a
    case Step(tid, redisOk, _) =>
      if tid !in s.threads || !redisOk then stored
      else (match s.threads[tid]
        case StoreState(r, doc) => if r == id then Some(Mark(tid, doc)) else stored
        case StoreTurn(r, doc) => if r == id then Some(Mark(tid, doc)) else stored
        case EraseData(r) => if Keys.Erases(r, id) then None else stored
        case _ => stored)
    case Expire(key) => if key == Keys.RoomKey(id) then None else stored
    case _ => stored
  }

  ghost function Stored(states: seq<State>, acts: seq<Action>, k: nat, id: string): Option<Mark>
    requires k <= |acts| < |states|
  {
    if k == 0 then None else NextStored(states[k - 1], acts[k - 1], id, Stored(states, acts, k - 1, id))
  }

  function Dumped(rules: Rules, mark: Option<Mark>): Option<string> {
    if mark.None? then None else Some(rules.dump(mark.value.doc))
  }

  lemma StoredStepHolds(rules: Rules, s: State, a: Action, id: string, stored: Option<Mark>)
    requires Lookup(s.w.store, Keys.RoomKey(id)) == Dumped(rules, stored)
    ensures Lookup(Do(rules, s, a).w.store, Keys.RoomKey(id)) == Dumped(rules, NextStored(s, a, id, stored))
  {
    if a.Step? && a.tid in s.threads && a.redisOk {
      var pc := s.threads[a.tid];
      if pc.StoreState? || pc.StoreTurn? {
        Keys.SetFrame(s.w.store, pc.id, id, rules.dump(pc.doc));
      } else if pc.EraseData? {
        Keys.EraseFrame(s.w.store, pc.id, id);
      }
    }
  }

  /**
   Under every interleaving, whichever Redis commands fail and whichever keys expire, the key of an id holds
   the document of the last store, until an erasure that reaches it or its expiry.
   */
  lemma {:induction false} LastStoreHolds(
      rules: Rules, maxRooms: int, states: seq<State>, acts: seq<Action>, k: nat, id: string)
    requires IsRun(rules, maxRooms, states, acts) && k <= |acts|
    ensures Lookup(states[k].w.store, Keys.RoomKey(id)) == Dumped(rules, Stored(states, acts, k, id))
  {
    if k > 0 {
      LastStoreHolds(rules, maxRooms, states, acts, k - 1, id);
      assert StepAt(rules, states, acts, k - 1);
      StoredStepHolds(rules, states[k - 1], acts[k - 1], id, Stored(states, acts, k - 1, id));
    }
  }

  /**
   What the reading below asks of an action, as far as this id is concerned: no CreateRoom or DestroyRoom
   overlaps another handler, while SendCommands may overlap each other; Redis executes the commands of
   handlers on the id, the fresh battle can be shown, and the key does not expire. A data erasure reaches this
   id's key exactly when it is its own. Shutdown may close rooms at any moment.
   */
  ghost predicate Orderly(rules: Rules, s: State, a: Action, id: string) {
    match a
    case Call(tid, request) =>
      request.id == id ==> forall t :: InFlight(s, t, id) ==> request.SendCommand? && OfCommand(s.threads[t])
    case Step(tid, redisOk, _) =>
      tid in s.threads ==>
        && (s.threads[tid].id == id ==> redisOk)
        && (s.threads[tid] == ReadState(id) ==> View(rules, s.w.sessions, id).Some?)
        && (s.threads[tid].EraseData? ==> (Keys.Erases(s.threads[tid].id, id) <==> s.threads[tid].id == id))
    case Expire(key) => key != Keys.RoomKey(id)
    case _ => true
  }

  ghost predicate AllOrderly(rules: Rules, states: seq<State>, acts: seq<Action>, id: string)
    requires |states| > |acts|
  {
    forall k: nat | k < |acts| :: Orderly(rules, states[k], acts[k], id)
  }

  /** A session has a document stored, and there is none without. */
  ghost predicate Balanced(s: State, id: string, newest: Option<Mark>, stored: Option<Mark>) {
    (id in s.w.sessions <==> newest.Some?) && (stored.Some? <==> newest.Some?)
  }

  /** What holds while a handler of the id is in flight. */
  ghost predicate MidCall(
      rules: Rules, s: State, t: nat, id: string, newest: Option<Mark>, stored: Option<Mark>)
    requires t in s.threads
  {
    match s.threads[t]
    case ReadState(_) =>
      id in s.w.sessions && stored == None && newest == Shown(t, View(rules, s.w.sessions, id))
    case StoreState(_, doc) => id in s.w.sessions && stored == None && newest == Some(Mark(t, doc))
    case StoreTurn(_, doc) =>
      Balanced(s, id, newest, stored) && newest.Some? && (newest.value.tid == t ==> newest.value.doc == doc)
    case EraseData(_) => id !in s.w.sessions && newest == None
    case _ => Balanced(s, id, newest, stored)
  }

  /** Any two handlers in flight on the id are commands. */
  ghost predicate Apart(s: State, id: string) {
    forall t, u :: InFlight(s, t, id) && InFlight(s, u, id) && t != u ==> OfCommand(s.threads[t])
  }

  /** The mark belongs to a handler of the id. */
  predicate Owns(s: State, id: string, mark: Option<Mark>) {
    mark.Some? ==> mark.value.tid in s.threads && s.threads[mark.value.tid].id == id
  }

  predicate HasDocument(pc: Pc) { pc.ReadState? || pc.StoreState? || pc.StoreTurn? || pc.Finished? }

  /** Both marks name handlers of the id, the storing one is through, and a handler has one document. */
  ghost predicate Marked(s: State, id: string, newest: Option<Mark>, stored: Option<Mark>) {
    && Owns(s, id, newest) && Owns(s, id, stored)
    && (newest.Some? ==> HasDocument(s.threads[newest.value.tid]))
    && (stored.Some? ==> s.threads[stored.value.tid].Finished?)
    && (newest.Some? && stored.Some? && newest.value.tid == stored.value.tid ==> newest == stored)
  }

  ghost predicate MirrorInv(rules: Rules, s: State, id: string, newest: Option<Mark>, stored: Option<Mark>) {
    && Apart(s, id)
    && Marked(s, id, newest, stored)
    && (forall t :: InFlight(s, t, id) ==> MidCall(rules, s, t, id, newest, stored))
    && (AtRest(s, id) ==> Balanced(s, id, newest, stored))
  }

  /** The session and the two marks of an id are out of reach of orderly actions other than its handlers' steps. */
  lemma Elsewhere(
      rules: Rules, s: State, a: Action, id: string, newest: Option<Mark>, stored: Option<Mark>)
    requires Orderly(rules, s, a, id) && (a.Step? && a.tid in s.threads ==> s.threads[a.tid].id != id)
    ensures Lookup(Do(rules, s, a).w.sessions, id) == Lookup(s.w.sessions, id)
    ensures NextNewest(rules, s, a, id, newest) == newest && NextStored(s, a, id, stored) == stored
  {
    if a.Step? && a.tid in s.threads {
      OtherIds(rules, s.w, s.threads[a.tid], a.redisOk, a.at, id);
    }
  }

  /** Nor do they move its handlers; a call may add one. */
  lemma ThreadsElsewhere(rules: Rules, s: State, a: Action, id: string)
    requires a.Step? && a.tid in s.threads ==> s.threads[a.tid].id != id
    ensures var u := Do(rules, s, a);
      && (forall t :: t in s.threads && s.threads[t].id == id ==> t in u.threads && u.threads[t] == s.threads[t])
      && (forall t :: InFlight(u, t, id) && !InFlight(s, t, id) ==>
            a.Call? && a.tid == t && t !in s.threads && a.request.id == id && u.threads[t] == First(a.request))
  {
  }

  lemma MidCallSame(
      rules: Rules, s: State, u: State, t: nat, id: string, newest: Option<Mark>, stored: Option<Mark>)
    requires t in s.threads && t in u.threads && u.threads[t] == s.threads[t]
    requires Lookup(u.w.sessions, id) == Lookup(s.w.sessions, id)
    ensures MidCall(rules, u, t, id, newest, stored) <==> MidCall(rules, s, t, id, newest, stored)
  {
    assert id in u.w.sessions <==> Lookup(u.w.sessions, id).Some?;
  }

  /** A handler that may be called finds session and store in balance. */
  lemma CallFindsBalance(
      rules: Rules, s: State, tid: nat, request: Request, newest: Option<Mark>, stored: Option<Mark>)
    requires MirrorInv(rules, s, request.id, newest, stored)
    requires Orderly(rules, s, Call(tid, request), request.id)
    ensures Balanced(s, request.id, newest, stored)
  {
    if t :| InFlight(s, t, request.id) {
      assert MidCall(rules, s, t, request.id, newest, stored);
    }
  }

  lemma ElsewhereMirrors(
      rules: Rules, s: State, a: Action, id: string, newest: Option<Mark>, stored: Option<Mark>)
    requires MirrorInv(rules, s, id, newest, stored) && Orderly(rules, s, a, id)
    requires a.Step? && a.tid in s.threads ==> s.threads[a.tid].id != id
    ensures MirrorInv(rules, Do(rules, s, a), id, newest, stored)
  {
    var u := Do(rules, s, a);
    Elsewhere(rules, s, a, id, newest, stored);
    ThreadsElsewhere(rules, s, a, id);
    assert id in u.w.sessions <==> Lookup(s.w.sessions, id).Some?;
    if a.Call? && a.request.id == id {
      CallFindsBalance(rules, s, a.tid, a.request, newest, stored);
    }
    forall t | InFlight(u, t, id)
      ensures MidCall(rules, u, t, id, newest, stored)
    {
      if InFlight(s, t, id) {
        MidCallSame(rules, s, u, t, id, newest, stored);
      }
    }
    if AtRest(u, id) {
      assert forall t :: InFlight(s, t, id) ==> InFlight(u, t, id);
    }
  }

  /** What one step of a handler of the id leaves behind for it. */
  ghost predicate Mirrors(
      rules: Rules, s: State, t: nat, id: string, newest: Option<Mark>, stored: Option<Mark>)
    requires t in s.threads
  {
    && Marked(s, id, newest, stored)
    && (if s.threads[t].Finished? then Balanced(s, id, newest, stored)
        else MidCall(rules, s, t, id, newest, stored))
  }

  lemma CommandMirrors(
      rules: Rules, s: State, a: Action, id: string, newest: Option<Mark>, stored: Option<Mark>)
    requires MirrorInv(rules, s, id, newest, stored) && Orderly(rules, s, a, id)
    requires a.Step? && InFlight(s, a.tid, id) && OfCommand(s.threads[a.tid])
    ensures Mirrors(rules, Do(rules, s, a), a.tid, id,
                    NextNewest(rules, s, a, id, newest), NextStored(s, a, id, stored))
    ensures OfCommand(Do(rules, s, a).threads[a.tid]) || Do(rules, s, a).threads[a.tid].Finished?
  {
    assert MidCall(rules, s, a.tid, id, newest, stored);
  }

  lemma CreatorMirrors(
      rules: Rules, s: State, a: Action, id: string, newest: Option<Mark>, stored: Option<Mark>)
    requires MirrorInv(rules, s, id, newest, stored) && Orderly(rules, s, a, id)
    requires a.Step? && InFlight(s, a.tid, id) && OfCreate(s.threads[a.tid])
    ensures Mirrors(rules, Do(rules, s, a), a.tid, id,
                    NextNewest(rules, s, a, id, newest), NextStored(s, a, id, stored))
  {
    assert MidCall(rules, s, a.tid, id, newest, stored);
  }

  lemma DestroyerMirrors(
      rules: Rules, s: State, a: Action, id: string, newest: Option<Mark>, stored: Option<Mark>)
    requires MirrorInv(rules, s, id, newest, stored) && Orderly(rules, s, a, id)
    requires a.Step? && InFlight(s, a.tid, id) && !OfCreate(s.threads[a.tid]) && !OfCommand(s.threads[a.tid])
    ensures Mirrors(rules, Do(rules, s, a), a.tid, id,
                    NextNewest(rules, s, a, id, newest), NextStored(s, a, id, stored))
  {
    assert MidCall(rules, s, a.tid, id, newest, stored);
  }

  /** The commands in flight beside a step of another command. */
  lemma BesideMirrors(
      rules: Rules, s: State, a: Action, id: string, t: nat, newest: Option<Mark>, stored: Option<Mark>)
    requires MirrorInv(rules, s, id, newest, stored) && Orderly(rules, s, a, id)
    requires a.Step? && InFlight(s, a.tid, id) && InFlight(s, t, id) && t != a.tid
    ensures MidCall(rules, Do(rules, s, a), t, id,
                    NextNewest(rules, s, a, id, newest), NextStored(s, a, id, stored))
  {
    assert OfCommand(s.threads[t]) && OfCommand(s.threads[a.tid]);
    assert MidCall(rules, s, t, id, newest, stored) && MidCall(rules, s, a.tid, id, newest, stored);
  }

  lemma HandlerMirrors(
      rules: Rules, s: State, a: Action, id: string, newest: Option<Mark>, stored: Option<Mark>)
    requires MirrorInv(rules, s, id, newest, stored) && Orderly(rules, s, a, id)
    requires a.Step? && InFlight(s, a.tid, id)
    ensures MirrorInv(rules, Do(rules, s, a), id,
                      NextNewest(rules, s, a, id, newest), NextStored(s, a, id, stored))
  {
    var u, tid := Do(rules, s, a), a.tid;
    if OfCommand(s.threads[tid]) {
      CommandMirrors(rules, s, a, id, newest, stored);
    } else if OfCreate(s.threads[tid]) {
      CreatorMirrors(rules, s, a, id, newest, stored);
    } else {
      DestroyerMirrors(rules, s, a, id, newest, stored);
    }
    forall t | t != tid
      ensures InFlight(u, t, id) <==> InFlight(s, t, id)
    {
    }
    forall t | t != tid && InFlight(s, t, id)
      ensures OfCommand(s.threads[t]) && OfCommand(s.threads[tid])
      ensures MidCall(rules, u, t, id, NextNewest(rules, s, a, id, newest), NextStored(s, a, id, stored))
    {
      BesideMirrors(rules, s, a, id, t, newest, stored);
    }
    assert InFlight(u, tid, id) <==> !u.threads[tid].Finished?;
  }

  lemma MirrorStep(
      rules: Rules, s: State, a: Action, id: string, newest: Option<Mark>, stored: Option<Mark>)
    requires MirrorInv(rules, s, id, newest, stored) && Orderly(rules, s, a, id)
    ensures MirrorInv(rules, Do(rules, s, a), id,
                      NextNewest(rules, s, a, id, newest), NextStored(s, a, id, stored))
  {
    if a.Step? && a.tid in s.threads && s.threads[a.tid].id == id {
      if InFlight(s, a.tid, id) {
        HandlerMirrors(rules, s, a, id, newest, stored);
      } else {
        assert Do(rules, s, a) == s;
      }
    } else {
      Elsewhere(rules, s, a, id, newest, stored);
      ElsewhereMirrors(rules, s, a, id, newest, stored);
    }
  }

  lemma {:induction false} MirrorRun(
      rules: Rules, maxRooms: int, states: seq<State>, acts: seq<Action>, k: nat, id: string)
    requires IsRun(rules, maxRooms, states, acts) && AllOrderly(rules, states, acts, id) && k <= |acts|
    ensures MirrorInv(rules, states[k], id, Newest(rules, states, acts, k, id), Stored(states, acts, k, id))
  {
    if k > 0 {
      MirrorRun(rules, maxRooms, states, acts, k - 1, id);
      assert StepAt(rules, states, acts, k - 1) && Orderly(rules, states[k - 1], acts[k - 1], id);
      MirrorStep(rules, states[k - 1], acts[k - 1], id,
                 Newest(rules, states, acts, k - 1, id), Stored(states, acts, k - 1, id));
    }
  }

  /**
   What a data erasure does to this: the id's own keeps it exactly if the id holds no NUL or nothing was
   stored, and another id's, with no handler of this id in flight, exactly if it does not reach the key of an
   id with a session.
   */
  lemma EraseKeepsMirror(
      rules: Rules, s: State, tid: nat, at: int, id: string, newest: Option<Mark>, stored: Option<Mark>)
    requires MirrorInv(rules, s, id, newest, stored) && tid in s.threads && s.threads[tid].EraseData?
    requires forall t :: InFlight(s, t, id) ==> t == tid
    ensures var a := Step(tid, true, at);
      MirrorInv(rules, Do(rules, s, a), id, newest, NextStored(s, a, id, stored))
      <==> if s.threads[tid].id == id then NulFree(id) || stored.None?
           else !(Keys.Erases(s.threads[tid].id, id) && id in s.w.sessions)
  {
    var pc, a := s.threads[tid], Step(tid, true, at);
    var u := Do(rules, s, a);
    assert u.threads[tid].Finished?;
    forall t
      ensures !InFlight(u, t, id)
    {
      assert t != tid ==> !InFlight(s, t, id);
    }
    CStringFacts(id);
    if pc.id == id {
      assert InFlight(s, tid, id) && MidCall(rules, s, tid, id, newest, stored);
    } else {
      assert AtRest(s, id);
    }
    assert MirrorInv(rules, u, id, newest, NextStored(s, a, id, stored))
      <==> Balanced(u, id, newest, NextStored(s, a, id, stored));
  }

  /** The action stores a document of the id. */
  predicate Stores(s: State, a: Action, id: string) {
    && a.Step? && a.tid in s.threads && a.redisOk && s.threads[a.tid].id == id
    && (s.threads[a.tid].StoreState? || s.threads[a.tid].StoreTurn?)
  }

  /** After `k` actions: when the last store was made, a newer turn than the stored one had been accepted. */
  ghost predicate Overtaken(rules: Rules, states: seq<State>, acts: seq<Action>, k: nat, id: string)
    requires k <= |acts| < |states|
  {
    k > 0 && NextOvertaken(states[k - 1], acts[k - 1], id, Newest(rules, states, acts, k - 1, id),
                           Overtaken(rules, states, acts, k - 1, id))
  }

  ghost predicate NextOvertaken(s: State, a: Action, id: string, newest: Option<Mark>, before: bool) {
    if Stores(s, a, id) then newest.Some? && newest.value.tid != a.tid else before
  }

  /** Once the newest document's handler is through, the stored one is that one unless it was overtaken. */
  ghost predicate OvertakenInv(s: State, newest: Option<Mark>, stored: Option<Mark>, overtaken: bool) {
    newest.Some? && stored.Some? && newest.value.tid in s.threads && s.threads[newest.value.tid].Finished? ==>
      (stored == newest <==> !overtaken)
  }

  lemma OvertakenStep(
      rules: Rules, s: State, a: Action, id: string, newest: Option<Mark>, stored: Option<Mark>, overtaken: bool)
    requires MirrorInv(rules, s, id, newest, stored) && Orderly(rules, s, a, id)
    requires OvertakenInv(s, newest, stored, overtaken)
    ensures OvertakenInv(Do(rules, s, a), NextNewest(rules, s, a, id, newest), NextStored(s, a, id, stored),
                         NextOvertaken(s, a, id, newest, overtaken))
  {
    if a.Step? && a.tid in s.threads && s.threads[a.tid].id == id {
      if InFlight(s, a.tid, id) {
        assert MidCall(rules, s, a.tid, id, newest, stored);
      } else {
        assert Do(rules, s, a) == s;
      }
    } else {
      Elsewhere(rules, s, a, id, newest, stored);
      assert newest.Some? ==> Do(rules, s, a).threads[newest.value.tid] == s.threads[newest.value.tid];
    }
  }

  lemma {:induction false} OvertakenRun(
      rules: Rules, maxRooms: int, states: seq<State>, acts: seq<Action>, k: nat, id: string)
    requires IsRun(rules, maxRooms, states, acts) && AllOrderly(rules, states, acts, id) && k <= |acts|
    ensures OvertakenInv(states[k], Newest(rules, states, acts, k, id), Stored(states, acts, k, id),
                         Overtaken(rules, states, acts, k, id))
  {
    if k > 0 {
      OvertakenRun(rules, maxRooms, states, acts, k - 1, id);
      MirrorRun(rules, maxRooms, states, acts, k - 1, id);
      assert StepAt(rules, states, acts, k - 1) && Orderly(rules, states[k - 1], acts[k - 1], id);
      OvertakenStep(rules, states[k - 1], acts[k - 1], id, Newest(rules, states, acts, k - 1, id),
                    Stored(states, acts, k - 1, id), Overtaken(rules, states, acts, k - 1, id));
    }
  }

  /**
   Redis and the battle. However the commands of an id overlap, and whichever rooms shutdown closes, between
   handlers of the id its key is present exactly when its session is. It then holds the document of the last
   store, which is that of the last accepted turn, or the initial state before the first, exactly if no newer
   turn had been accepted when the store was made.
   */
  lemma RedisFollowsSession(
      rules: Rules, maxRooms: int, states: seq<State>, acts: seq<Action>, k: nat, id: string)
    requires IsRun(rules, maxRooms, states, acts) && AllOrderly(rules, states, acts, id) && k <= |acts|
    requires AtRest(states[k], id)
    ensures var w, newest, stored := states[k].w, Newest(rules, states, acts, k, id), Stored(states, acts, k, id);
      && (Keys.RoomKey(id) in w.store <==> id in w.sessions)
      && (id in w.sessions ==>
            && newest.Some? && stored.Some? && w.store[Keys.RoomKey(id)] == rules.dump(stored.value.doc)
            && (stored == newest <==> !Overtaken(rules, states, acts, k, id)))
  {
    var newest := Newest(rules, states, acts, k, id);
    MirrorRun(rules, maxRooms, states, acts, k, id);
    OvertakenRun(rules, maxRooms, states, acts, k, id);
    LastStoreHolds(rules, maxRooms, states, acts, k, id);
    assert Keys.RoomKey(id) in states[k].w.store <==> Lookup(states[k].w.store, Keys.RoomKey(id)).Some?;
    if newest.Some? {
      assert !InFlight(states[k], newest.value.tid, id);
    }
  }

  /** A destroy that starts alone finds no create pending. */
  lemma CloserAlone(s: State, tid: nat, id: string)
    requires Apart(s, id) && tid in s.threads && s.threads[tid] == CloseRoom(id)
    ensures !Creating(s, id)
  {
    forall t
      ensures !IsCreator(s, t, id)
    {
      assert InFlight(s, tid, id);
      assert IsCreator(s, t, id) ==> InFlight(s, t, id);
    }
  }

  /** As long as shutdown does not close the room, it is there exactly when the session is. */
  lemma RoomFollowsSession(
      rules: Rules, maxRooms: int, states: seq<State>, acts: seq<Action>, k: nat, id: string)
    requires IsRun(rules, maxRooms, states, acts) && AllOrderly(rules, states, acts, id) && k <= |acts|
    requires AtRest(states[k], id) && forall j: nat | j < |acts| :: acts[j] != ShutdownClose(id)
    ensures id in states[k].w.table.rooms <==> id in states[k].w.sessions
  {
    forall j: nat | j < |acts|
      ensures !Spoils(states[j], acts[j], id)
    {
      MirrorRun(rules, maxRooms, states, acts, j, id);
      var s, a := states[j], acts[j];
      if a.Step? && a.tid in s.threads && s.threads[a.tid] == CloseRoom(id) {
        CloserAlone(s, a.tid, id);
      }
    }
    QuiescentAgreement(rules, maxRooms, states, acts, k, id);
  }

  /** The handlers of the id start one at a time. */
  ghost predicate Serial(s: State, a: Action, id: string) {
    a.Call? && a.request.id == id ==> AtRest(s, id)
  }

  ghost predicate AllSerial(states: seq<State>, acts: seq<Action>, id: string)
    requires |states| > |acts|
  {
    forall k: nat | k < |acts| :: Serial(states[k], acts[k], id)
  }

  /** Then the one that is about to store an accepted response has the newest one. */
  ghost predicate SerialInv(s: State, id: string, newest: Option<Mark>) {
    && (forall t, u :: InFlight(s, t, id) && InFlight(s, u, id) ==> t == u)
    && (forall t :: InFlight(s, t, id) && s.threads[t].StoreTurn? ==> newest.Some? && newest.value.tid == t)
  }

  lemma SerialHandler(
      rules: Rules, s: State, a: Action, id: string, newest: Option<Mark>, stored: Option<Mark>)
    requires SerialInv(s, id, newest) && a.Step? && InFlight(s, a.tid, id)
    requires MirrorInv(rules, s, id, newest, stored) && Orderly(rules, s, a, id)
    ensures SerialInv(Do(rules, s, a), id, NextNewest(rules, s, a, id, newest))
    ensures !NextOvertaken(s, a, id, newest, false)
  {
    var u := Do(rules, s, a);
    assert MidCall(rules, s, a.tid, id, newest, stored);
    forall t | t != a.tid
      ensures !InFlight(u, t, id)
    {
      assert !InFlight(s, t, id);
    }
  }

  lemma SerialStep(
      rules: Rules, s: State, a: Action, id: string, newest: Option<Mark>, stored: Option<Mark>)
    requires SerialInv(s, id, newest) && Serial(s, a, id)
    requires MirrorInv(rules, s, id, newest, stored) && Orderly(rules, s, a, id)
    ensures SerialInv(Do(rules, s, a), id, NextNewest(rules, s, a, id, newest))
    ensures !NextOvertaken(s, a, id, newest, false)
  {
    if a.Step? && a.tid in s.threads && s.threads[a.tid].id == id {
      if InFlight(s, a.tid, id) {
        SerialHandler(rules, s, a, id, newest, stored);
      } else {
        assert Do(rules, s, a) == s;
      }
    } else {
      Elsewhere(rules, s, a, id, newest, stored);
      ThreadsElsewhere(rules, s, a, id);
    }
  }

  lemma {:induction false} SerialRun(
      rules: Rules, maxRooms: int, states: seq<State>, acts: seq<Action>, k: nat, id: string)
    requires IsRun(rules, maxRooms, states, acts) && AllOrderly(rules, states, acts, id) && k <= |acts|
    requires AllSerial(states, acts, id)
    ensures SerialInv(states[k], id, Newest(rules, states, acts, k, id))
    ensures !Overtaken(rules, states, acts, k, id)
  {
    if k > 0 {
      SerialRun(rules, maxRooms, states, acts, k - 1, id);
      MirrorRun(rules, maxRooms, states, acts, k - 1, id);
      assert StepAt(rules, states, acts, k - 1) && Orderly(rules, states[k - 1], acts[k - 1], id);
      assert Serial(states[k - 1], acts[k - 1], id);
      SerialStep(rules, states[k - 1], acts[k - 1], id,
                 Newest(rules, states, acts, k - 1, id), Stored(states, acts, k - 1, id));
    }
  }

  /**
   Redis agrees with the battle. With the handlers of an id serialised and erasures on target, between
   handlers its key is present exactly when its session is, and its room unless shutdown closed it, and then
   holds the last accepted turn's response, or the initial state if there was none.
   */
  lemma RedisAgrees(rules: Rules, maxRooms: int, states: seq<State>, acts: seq<Action>, k: nat, id: string)
    requires IsRun(rules, maxRooms, states, acts) && AllOrderly(rules, states, acts, id) && k <= |acts|
    requires AllSerial(states, acts, id) && AtRest(states[k], id)
    ensures var w, newest := states[k].w, Newest(rules, states, acts, k, id);
      && (Keys.RoomKey(id) in w.store <==> id in w.sessions)
      && (id in w.sessions ==> newest.Some? && w.store[Keys.RoomKey(id)] == rules.dump(newest.value.doc))
      && ((forall j: nat | j < |acts| :: acts[j] != ShutdownClose(id)) ==>
            (id in w.table.rooms <==> id in w.sessions))
  {
    RedisFollowsSession(rules, maxRooms, states, acts, k, id);
    SerialRun(rules, maxRooms, states, acts, k, id);
    if forall j: nat | j < |acts| :: acts[j] != ShutdownClose(id) {
      RoomFollowsSession(rules, maxRooms, states, acts, k, id);
    }
  }
}
