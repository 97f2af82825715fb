/** Shutdown is never stuck: from every reachable state some continuation takes the drain to its end. */
module Progress {
  import opened Prelude
  import opened RoomLocks
  import opened Drain

  /** An activity pass only has rooms left to age that are still stored. */
  ghost predicate TodoInv(s: State) {
    s.writer.Some? && s.writer.value in s.threads && s.threads[s.writer.value].Ticking? ==>
      s.threads[s.writer.value].todo <= s.rooms.Keys
  }

  lemma TodoStep(s: State, a: Action)
    requires LockInv(s) && TodoInv(s)
    ensures TodoInv(Do(s, a))
  {
    if s.writer.Some? && !(a.Step? && a.tid == s.writer.value) {
      WriterAlone(s, a, s.writer.value);
      OthersMove(s, a, s.writer.value);
      assert Accounted(s, s.writer.value);
    }
    assert a.Step? && a.tid in s.threads ==> Accounted(s, a.tid);
  }

  lemma {:induction false} TodoRun(maxRooms: int, states: seq<State>, acts: seq<Action>, k: nat)
    requires IsRun(maxRooms, states, acts) && k <= |acts|
    ensures TodoInv(states[k])
  {
    if k > 0 {
      TodoRun(maxRooms, states, acts, k - 1);
      LockRun(maxRooms, states, acts, k - 1);
      assert StepAt(states, acts, k - 1);
      TodoStep(states[k - 1], acts[k - 1]);
    }
  }

  /** Steps the writer has left before it releases the lock, at most. */
  function StepsToRelease(s: State, pc: Pc): nat {
    match pc
    case Holding(_) => |s.rooms| + 4
    case Admitted(_) => 3
    case Ticking(todo) => |todo| + 2
    case Leaving(_, _) => 1
    case _ => 2
  }

  /** One more room aged. */
  lemma TickMoves(s: State, tid: nat) returns (pick: string)
    requires TodoInv(s) && s.writer == Some(tid) && tid in s.threads
    requires s.threads[tid].Ticking? && s.threads[tid].todo != {}
    ensures Advance(s, tid, s.threads[tid], pick).threads[tid] == Ticking(s.threads[tid].todo - {pick})
    ensures pick in s.threads[tid].todo
  {
    pick :| pick in s.threads[tid].todo;
  }

  /** The first step under the exclusive lock. */
  lemma HolderMoves(s: State, tid: nat, pick: string)
    requires LockInv(s) && s.writer == Some(tid) && tid in s.threads && s.threads[tid].Holding?
    ensures var u := Advance(s, tid, s.threads[tid], pick);
      u.plan == s.plan && u.writer == s.writer && tid in u.threads
      && StepsToRelease(u, u.threads[tid]) < |s.rooms| + 4
  {
    assert Accounted(s, tid);
    assert |s.rooms.Keys| == |s.rooms|;
  }

  lemma WriterMoves(s: State, tid: nat) returns (pick: string)
    requires LockInv(s) && TodoInv(s) && s.writer == Some(tid)
    ensures var u := Do(s, Step(tid, pick));
      && u.plan == s.plan && tid in s.threads && tid in u.threads
      && (u.writer == None
          || (u.writer == s.writer && StepsToRelease(u, u.threads[tid]) < StepsToRelease(s, s.threads[tid])))
  {
    assert Accounted(s, tid);
    pick := "";
    if s.threads[tid].Ticking? && s.threads[tid].todo != {} {
      pick := TickMoves(s, tid);
    } else if s.threads[tid].Holding? {
      HolderMoves(s, tid, pick);
    }
  }

  lemma {:induction false} WriterReleases(maxRooms: int, before: seq<State>, earlier: seq<Action>, tid: nat)
    returns (states: seq<State>, acts: seq<Action>)
    requires IsRun(maxRooms, before, earlier)
    requires before[|earlier|].writer == Some(tid) && tid in before[|earlier|].threads
    ensures IsRun(maxRooms, states, acts) && before <= states
    ensures states[|acts|].writer == None && states[|acts|].plan == before[|earlier|].plan
    decreases StepsToRelease(before[|earlier|], before[|earlier|].threads[tid])
  {
    var s := before[|earlier|];
    LockRun(maxRooms, before, earlier, |earlier|);
    TodoRun(maxRooms, before, earlier, |earlier|);
    var pick := WriterMoves(s, tid);
    states, acts := Extended(maxRooms, before, earlier, Step(tid, pick), Do(s, Step(tid, pick)));
    if states[|acts|].writer.Some? {
      states, acts := WriterReleases(maxRooms, states, acts, tid);
    }
  }

  /** A reader is at most two steps from releasing the lock. */
  lemma ReaderMoves(s: State, tid: nat)
    requires LockInv(s) && tid in s.readers
    ensures var u := Do(s, Step(tid, ""));
      && u.plan == s.plan && u.writer == s.writer && tid in s.threads
      && (if s.threads[tid].Leaving? then u.readers == s.readers - {tid}
          else u.readers == s.readers && u.threads[tid].Leaving?)
  {
    assert Accounted(s, tid);
  }

  lemma {:induction false} ReadersRelease(maxRooms: int, before: seq<State>, earlier: seq<Action>)
    returns (states: seq<State>, acts: seq<Action>)
    requires IsRun(maxRooms, before, earlier) && before[|earlier|].writer == None
    ensures IsRun(maxRooms, states, acts) && before <= states
    ensures states[|acts|].writer == None && states[|acts|].readers == {}
    ensures states[|acts|].plan == before[|earlier|].plan
    decreases before[|earlier|].readers
  {
    states, acts := before, earlier;
    if states[|acts|].readers != {} {
      var tid :| tid in states[|acts|].readers;
      LockRun(maxRooms, states, acts, |acts|);
      ReaderMoves(states[|acts|], tid);
      var leaving := states[|acts|].threads[tid].Leaving?;
      states, acts := Extended(maxRooms, states, acts, Step(tid, ""), Do(states[|acts|], Step(tid, "")));
      if !leaving {
        LockRun(maxRooms, states, acts, |acts|);
        ReaderMoves(states[|acts|], tid);
        states, acts := Extended(maxRooms, states, acts, Step(tid, ""), Do(states[|acts|], Step(tid, "")));
      }
      states, acts := ReadersRelease(maxRooms, states, acts);
    }
  }

  /** Whoever is inside the lock can leave it, and shutdown's plan waits meanwhile. */
  lemma LockFrees(maxRooms: int, before: seq<State>, earlier: seq<Action>)
    returns (states: seq<State>, acts: seq<Action>)
    requires IsRun(maxRooms, before, earlier)
    ensures IsRun(maxRooms, states, acts) && before <= states
    ensures states[|acts|].writer == None && states[|acts|].readers == {}
    ensures states[|acts|].plan == before[|earlier|].plan
  {
    states, acts := before, earlier;
    LockRun(maxRooms, before, earlier, |earlier|);
    if states[|acts|].writer.Some? {
      states, acts := WriterReleases(maxRooms, states, acts, states[|acts|].writer.value);
    }
    states, acts := ReadersRelease(maxRooms, states, acts);
  }

  lemma {:induction false} SomeOrder(ids: set<string>) returns (order: seq<string>)
    ensures Iterates(order, ids)
    decreases ids
  {
    order := [];
    if ids != {} {
      var first :| first in ids;
      var rest := SomeOrder(ids - {first});
      order := [first] + rest;
      var seen := set id | id in rest;
      forall id
        ensures id in order <==> id in ids
      {
        assert id in rest <==> id in seen;
      }
    }
  }

  /** With the lock free, the shutdown thread's call runs to its return. */
  lemma CallReturns(maxRooms: int, before: seq<State>, earlier: seq<Action>)
    returns (states: seq<State>, acts: seq<Action>)
    requires IsRun(maxRooms, before, earlier)
    requires before[|earlier|].writer == None && before[|earlier|].readers == {}
    requires before[|earlier|].plan.Listing? || before[|earlier|].plan.Awaiting?
    ensures IsRun(maxRooms, states, acts) && before <= states
    ensures var u := states[|acts|];
      u.plan == before[|earlier|].plan && SHUTDOWN in u.threads && u.threads[SHUTDOWN].Returned?
  {
    states, acts := before, earlier;
    var step := Step(SHUTDOWN, "");
    LockRun(maxRooms, states, acts, |acts|);
    DrainRun(maxRooms, states, acts, |acts|);
    assert Accounted(states[|acts|], SHUTDOWN);
    if states[|acts|].threads[SHUTDOWN].Waiting? {
      states, acts := Extended(maxRooms, states, acts, step, Do(states[|acts|], step));
      assert states[|acts|].threads[SHUTDOWN].Holding?;
      states, acts := Extended(maxRooms, states, acts, step, Do(states[|acts|], step));
      if states[|acts|].threads[SHUTDOWN].Erased? {
        states, acts := Extended(maxRooms, states, acts, step, Do(states[|acts|], step));
      }
      assert states[|acts|].threads[SHUTDOWN].Leaving?;
      states, acts := Extended(maxRooms, states, acts, step, Do(states[|acts|], step));
    }
  }

  function Phase(plan: Plan): nat {
    match plan
    case Idle => 4
    case Polling(_) => 3
    case Listing => 2
    case Drained => 0
    case _ => 1
  }

  function Rounds(plan: Plan): nat {
    match plan
    case Polling(left) => left
    case Closing(todo) => 2 * |todo| + 1
    case Awaiting(todo) => 2 * |todo|
    case _ => 0
  }

  /** The next action of the shutdown procedure itself takes effect once the call it waits for has returned. */
  lemma PlanMoves(s: State) returns (order: seq<string>)
    requires DrainInv(s) && !s.plan.Drained?
    requires s.plan.Listing? || s.plan.Awaiting? ==> SHUTDOWN in s.threads && s.threads[SHUTDOWN].Returned?
    ensures var u := Do(s, Shut(order));
      Phase(u.plan) < Phase(s.plan) || (Phase(u.plan) == Phase(s.plan) && Rounds(u.plan) < Rounds(s.plan))
  {
    order := [];
    if s.plan.Listing? {
      order := SomeOrder(s.threads[SHUTDOWN].result.rooms.Keys);
    }
  }

  /**
   However the threads have been scheduled so far, and whoever holds the lock, the graceful shutdown can still
   be run to the end of its closing loop.
   */
  lemma {:induction false} ShutdownCanEnd(maxRooms: int, before: seq<State>, earlier: seq<Action>)
    returns (states: seq<State>, acts: seq<Action>)
    requires IsRun(maxRooms, before, earlier)
    ensures IsRun(maxRooms, states, acts) && before <= states && states[|acts|].plan.Drained?
    ensures states[|acts|].rooms == map[]
    decreases Phase(before[|earlier|].plan), Rounds(before[|earlier|].plan)
  {
    states, acts := before, earlier;
    if !before[|earlier|].plan.Drained? {
      states, acts := LockFrees(maxRooms, states, acts);
      if states[|acts|].plan.Listing? || states[|acts|].plan.Awaiting? {
        states, acts := CallReturns(maxRooms, states, acts);
      }
      DrainRun(maxRooms, states, acts, |acts|);
      var order := PlanMoves(states[|acts|]);
      states, acts := Extended(maxRooms, states, acts, Shut(order), Do(states[|acts|], Shut(order)));
      states, acts := ShutdownCanEnd(maxRooms, states, acts);
    }
    DrainedForGood(maxRooms, states, acts, |acts|, |acts|);
  }
}
