/**
 Serial replay under the stricter rule that no CreateRoom or DestroyRoom overlaps another handler on its
 id: then no command is late, and the replay gives every call the reply it gave.
 */
module Overlap {
  import opened Prelude
  import opened Battles
  import opened Handlers
  import opened Server
  import opened Agreement
  import opened Replay
  import Rooms

  /** Handlers in flight on the same id are all commands. */
  ghost predicate Apart(s: State) {
    forall t, u ::
      (t in s.threads && u in s.threads && t != u && s.threads[t].id == s.threads[u].id
       && !s.threads[t].Finished? && !s.threads[u].Finished?)
      ==> (OfCommand(s.threads[t]) && OfCommand(s.threads[u]))
  }

  /** A create or destroy starts only when no handler on its id is in flight, and nothing starts beside one. */
  ghost predicate StartsApart(s: State, a: Action) {
    match a
    case Call(tid, request) =>
      tid !in s.threads ==>
        forall t ::
          (t in s.threads && !s.threads[t].Finished? && s.threads[t].id == request.id)
          ==> (OfCommand(s.threads[t]) && request.SendCommand?)
    case ShutdownClose(id) => id !in s.w.table.rooms
    case _ => true
  }

  lemma ApartStep(rules: Rules, s: State, a: Action)
    requires Apart(s) && StartsApart(s, a)
    ensures Apart(Do(rules, s, a))
  {
    if a.Step? && a.tid in s.threads {
      var pc, u := s.threads[a.tid], Do(rules, s, a);
      assert OfCommand(pc) ==> OfCommand(u.threads[a.tid]) || u.threads[a.tid].Finished?;
    }
  }

  lemma ApartKeepsTheRule(rules: Rules, s: State, a: Action)
    requires Apart(s) && StartsApart(s, a)
    ensures KeepsRule(s, a)
    ensures EntryOf(rules, s, a).Some? ==> !EntryOf(rules, s, a).value.late
  {
  }

  ghost predicate AllApart(states: seq<State>, acts: seq<Action>)
    requires |states| > |acts|
  {
    forall k: nat | k < |acts| :: StartsApart(states[k], acts[k])
  }

  lemma {:induction false} ApartRun(rules: Rules, maxRooms: int, states: seq<State>, acts: seq<Action>, k: nat)
    requires IsRun(rules, maxRooms, states, acts) && AllApart(states, acts) && k <= |acts|
    ensures Apart(states[k])
    ensures forall i: nat | i < |Log(rules, states, acts, k)| :: !Log(rules, states, acts, k)[i].late
  {
    if k > 0 {
      ApartRun(rules, maxRooms, states, acts, k - 1);
      assert StepAt(rules, states, acts, k - 1) && StartsApart(states[k - 1], acts[k - 1]);
      ApartStep(rules, states[k - 1], acts[k - 1]);
      ApartKeepsTheRule(rules, states[k - 1], acts[k - 1]);
    }
  }

  /**
   When no CreateRoom or DestroyRoom overlaps another handler on its id, before shutdown closes rooms, the
   replay gives every logged call the very reply it gave, within the room limit.
   */
  lemma NonOverlappingReplay(rules: Rules, maxRooms: int, states: seq<State>, acts: seq<Action>, k: nat)
    returns (worlds: seq<World>)
    requires IsRun(rules, maxRooms, states, acts) && AllApart(states, acts) && k <= |acts|
    requires Rooms.Limit(maxRooms) >= 0 && Quiescent(states[k])
    ensures var s, log := states[k], Log(rules, states, acts, k);
      && LogComplete(s, log)
      && IsReplay(rules, maxRooms, worlds, log)
      && s.w.table.rooms.Keys == worlds[|log|].table.rooms.Keys
      && s.w.sessions == worlds[|log|].sessions
      && (forall i: nat | i < |log| :: SameReply(rules, worlds, log, i))
  {
    forall j: nat | j < |acts|
      ensures KeepsRule(states[j], acts[j])
    {
      ApartRun(rules, maxRooms, states, acts, j);
      assert StartsApart(states[j], acts[j]);
      ApartKeepsTheRule(rules, states[j], acts[j]);
    }
    ApartRun(rules, maxRooms, states, acts, k);
    worlds := SerialReplay(rules, maxRooms, states, acts, k);
  }
}
