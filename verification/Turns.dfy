/**
 What happens to a session under every interleaving: its turns are serialised in lock order, and nothing
 that concerns another id reaches it. No rule on the schedule is needed here.
 */
module Turns {
  import opened Prelude
  import opened Battles
  import opened Handlers
  import opened Server

  datatype Event =
    | Opened(id: string, init: Json)
    | Played(id: string, request: Json, outcome: Outcome)
    | Dropped(id: string)

  /** What an action does to a session, if anything. */
  ghost function EventOf(rules: Rules, s: State, a: Action): Option<Event> {
    if !a.Step? || a.tid !in s.threads then None
    else
      match s.threads[a.tid]
      case OpenSession(id, parsed) =>
        if Open(rules, s.w.sessions, id, parsed).Some? then Some(Opened(id, parsed)) else None
      case PlayTurn(id, parsed) =>
        if id in s.w.sessions then Some(Played(id, parsed, Play(rules, s.w.sessions, id, parsed).1)) else None
      case DropSession(id) => if id in s.w.sessions then Some(Dropped(id)) else None
      case _ => None
  }

  /** The session events of the first `k` actions, in lock order. */
  ghost function Events(rules: Rules, states: seq<State>, acts: seq<Action>, k: nat): seq<Event>
    requires k <= |acts| < |states|
  {
    if k == 0 then []
    else
      match EventOf(rules, states[k - 1], acts[k - 1])
      case None => Events(rules, states, acts, k - 1)
      case Some(e) => Events(rules, states, acts, k - 1) + [e]
  }

  /** The turn requests of one id among the events `from`, ..., `to - 1`. */
  ghost function Requests(events: seq<Event>, from: nat, to: nat, id: string): seq<Json>
    requires to <= |events|
  {
    if to <= from then []
    else
      var earlier, e := Requests(events, from, to - 1, id), events[to - 1];
      if e.Played? && e.id == id then earlier + [e.request] else earlier
  }

  /** Event `i` opened the session of `id`, and no later one opened or dropped it. */
  ghost predicate Current(events: seq<Event>, i: nat, id: string) {
    && i < |events| && events[i].Opened? && events[i].id == id
    && forall j: nat | i < j < |events| :: events[j].id == id ==> events[j].Played?
  }

  /** An action without a session event for `id` leaves its session alone; reading the state is one such. */
  lemma Isolation(rules: Rules, s: State, a: Action, id: string)
    requires EventOf(rules, s, a).Some? ==> EventOf(rules, s, a).value.id != id
    ensures Lookup(Do(rules, s, a).w.sessions, id) == Lookup(s.w.sessions, id)
  {
  }

  /** And with one, this is what becomes of it. */
  lemma Effect(rules: Rules, s: State, a: Action)
    requires EventOf(rules, s, a).Some?
    ensures var e := EventOf(rules, s, a).value;
      Lookup(Do(rules, s, a).w.sessions, e.id)
      == match e
         case Opened(_, init) => rules.create(init)
         case Played(id, request, _) => Some(rules.turn(s.w.sessions[id], request).0)
         case Dropped(_) => None
    ensures var e := EventOf(rules, s, a).value;
      (e.Opened? <==> e.id !in s.w.sessions) && (e.Opened? ==> rules.create(e.init).Some?)
  {
  }

  lemma RequestsPrefix(events: seq<Event>, e: Event, from: nat, to: nat, id: string)
    requires to <= |events|
    ensures Requests(events + [e], from, to, id) == Requests(events, from, to, id)
  {
  }

  lemma FoldSnoc(rules: Rules, start: Battle, requests: seq<Json>, request: Json)
    ensures Fold(rules, start, requests + [request]) == rules.turn(Fold(rules, start, requests), request).0
  {
  }

  /** The battle an init document and a stretch of the event log make. */
  ghost function Battled(rules: Rules, start: Battle, events: seq<Event>, from: nat, id: string): Battle {
    Fold(rules, start, Requests(events, from, |events|, id))
  }

  /** One more event of a current session: a turn of its own, or nothing to it. */
  lemma BattledNext(rules: Rules, start: Battle, events: seq<Event>, e: Event, i: nat, id: string)
    requires Current(events, i, id) && (e.id == id ==> e.Played?)
    ensures Current(events + [e], i, id)
    ensures Battled(rules, start, events + [e], i + 1, id)
         == var before := Battled(rules, start, events, i + 1, id);
            if e.id == id then rules.turn(before, e.request).0 else before
  {
    RequestsPrefix(events, e, i + 1, |events|, id);
    if e.id == id {
      FoldSnoc(rules, start, Requests(events, i + 1, |events|, id), e.request);
    }
  }

  /**
   Turn serialisation. In every state of every schedule a session is the battle made from its init
   document, taken through its turn requests since then in lock order.
   */
  lemma {:induction false} TurnSerialisation(
      rules: Rules, maxRooms: int, states: seq<State>, acts: seq<Action>, k: nat, id: string)
    returns (i: nat)
    requires IsRun(rules, maxRooms, states, acts) && k <= |acts| && id in states[k].w.sessions
    ensures var events := Events(rules, states, acts, k);
      && Current(events, i, id)
      && rules.create(events[i].init).Some?
      && states[k].w.sessions[id]
         == Battled(rules, rules.create(events[i].init).value, events, i + 1, id)
  {
    assert StepAt(rules, states, acts, k - 1);
    var s, a := states[k - 1], acts[k - 1];
    var earlier, events := Events(rules, states, acts, k - 1), Events(rules, states, acts, k);
    var event := EventOf(rules, s, a);
    if event.Some? && event.value.id == id && event.value.Opened? {
      Effect(rules, s, a);
      i := |earlier|;
    } else {
      if event.Some? && event.value.id == id { Effect(rules, s, a); } else { Isolation(rules, s, a, id); }
      assert id in s.w.sessions by { assert Lookup(states[k].w.sessions, id).Some?; }
      i := TurnSerialisation(rules, maxRooms, states, acts, k - 1, id);
      if event.Some? {
        BattledNext(rules, rules.create(earlier[i].init).value, earlier, event.value, i, id);
      }
    }
  }

  /** Conversely an opened session is there until it is dropped. */
  lemma {:induction false} SessionPresent(
      rules: Rules, maxRooms: int, states: seq<State>, acts: seq<Action>, k: nat, i: nat, id: string)
    requires IsRun(rules, maxRooms, states, acts) && k <= |acts| && Current(Events(rules, states, acts, k), i, id)
    ensures id in states[k].w.sessions
  {
    assert StepAt(rules, states, acts, k - 1);
    var s, a := states[k - 1], acts[k - 1];
    var earlier, events := Events(rules, states, acts, k - 1), Events(rules, states, acts, k);
    var event := EventOf(rules, s, a);
    if event.Some? && event.value.id == id {
      assert event.value == events[|earlier|];
      Effect(rules, s, a);
    } else {
      assert i < |earlier| && forall j: nat | j < |earlier| :: events[j] == earlier[j];
      SessionPresent(rules, maxRooms, states, acts, k - 1, i, id);
      Isolation(rules, s, a, id);
    }
    assert Lookup(states[k].w.sessions, id).Some?;
  }
}
