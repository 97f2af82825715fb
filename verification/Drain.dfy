/**
 Graceful shutdown empties the room table for good, although it raises the maintenance flag without
 the lock and closes the ids of a snapshot taken some time before.
 */
module Drain {
  import opened Prelude
  import opened Rooms
  import opened RoomLocks
  import RoomCount

  function Ids(todo: seq<string>): set<string> { set id | id in todo }

  /** Ids that may still be stored, once the shutdown thread has taken its snapshot. */
  ghost function Remaining(s: State): Option<set<string>> {
    match s.plan
    case Idle => None
    case Polling(_) => None
    case Listing =>
      if SHUTDOWN !in s.threads then None
      else (match s.threads[SHUTDOWN]
        case Leaving(_, Listed(rooms)) => Some(rooms.Keys)
        case Returned(Listed(rooms)) => Some(rooms.Keys)
        case _ => None)
    case Closing(todo) => Some(Ids(todo))
    case Awaiting(todo) =>
      if todo != [] && SHUTDOWN in s.threads && !s.threads[SHUTDOWN].Waiting? && !s.threads[SHUTDOWN].Holding?
      then Some(Ids(todo[1..])) else Some(Ids(todo))
    case Drained => Some({})
  }

  /** The shutdown thread is inside the call its plan is waiting for. */
  ghost predicate OnPlan(s: State) {
    match s.plan
    case Listing =>
      SHUTDOWN in s.threads &&
      (match s.threads[SHUTDOWN]
       case Waiting(op) => op == ListAll
       case Holding(op) => op == ListAll
       case Leaving(exclusive, result) => !exclusive && result.Listed?
       case Returned(result) => result.Listed?
       case _ => false)
    case Awaiting(todo) =>
      todo != [] && SHUTDOWN in s.threads &&
      (match s.threads[SHUTDOWN]
       case Waiting(op) => op == Close(todo[0])
       case Holding(op) => op == Close(todo[0])
       case Leaving(exclusive, result) => exclusive
       case Returned(_) => true
       case pc => pc.Erased?)
    case _ => true
  }

  /** No create can store a room any more. */
  ghost predicate Sealed(s: State) {
    s.maintaining && forall t :: t in s.threads ==> !s.threads[t].Admitted?
  }

  ghost predicate DrainInv(s: State) {
    && LockInv(s)
    && OnPlan(s)
    && (!s.plan.Idle? ==> s.maintaining)
    && (Remaining(s).Some? ==> Sealed(s) && s.rooms.Keys <= Remaining(s).value)
  }

  /** Once sealed, the table only shrinks. */
  lemma SealedShrinks(s: State, a: Action)
    requires LockInv(s) && Sealed(s)
    ensures Sealed(Do(s, a)) && Do(s, a).rooms.Keys <= s.rooms.Keys
  {
  }

  lemma RemainingSame(s: State, u: State)
    requires u.plan == s.plan && Lookup(u.threads, SHUTDOWN) == Lookup(s.threads, SHUTDOWN)
    ensures Remaining(u) == Remaining(s) && (OnPlan(u) <==> OnPlan(s))
  {
  }

  lemma OtherFrame(s: State, a: Action)
    requires !a.Shut? && a.tid != SHUTDOWN
    ensures var u := Do(s, a);
      u.plan == s.plan && u.maintaining == s.maintaining && Lookup(u.threads, SHUTDOWN) == Lookup(s.threads, SHUTDOWN)
  {
  }

  /** Steps that are not the shutdown thread's leave its plan and its remaining ids alone. */
  lemma OtherThreads(s: State, a: Action)
    requires DrainInv(s) && !a.Shut? && a.tid != SHUTDOWN
    ensures DrainInv(Do(s, a))
  {
    LockStep(s, a);
    OtherFrame(s, a);
    RemainingSame(s, Do(s, a));
    if Remaining(s).Some? {
      SealedShrinks(s, a);
    }
  }

  /** A snapshot is taken under the shared lock, so no admitted create is left to store its room. */
  lemma ListingStep(s: State, pick: string)
    requires DrainInv(s) && s.plan.Listing?
    ensures DrainInv(Do(s, Step(SHUTDOWN, pick)))
  {
    LockStep(s, Step(SHUTDOWN, pick));
    var u := Do(s, Step(SHUTDOWN, pick));
    assert Accounted(s, SHUTDOWN);
    if s.threads[SHUTDOWN].Holding? {
      forall t | t in u.threads
        ensures !u.threads[t].Admitted?
      {
        assert Accounted(s, t);
      }
      assert u.rooms == s.rooms && Remaining(u) == Some(s.rooms.Keys);
    } else if Remaining(s).Some? {
      SealedShrinks(s, Step(SHUTDOWN, pick));
    }
  }

  lemma AwaitingStep(s: State, pick: string)
    requires DrainInv(s) && s.plan.Awaiting?
    ensures DrainInv(Do(s, Step(SHUTDOWN, pick)))
  {
    var a := Step(SHUTDOWN, pick);
    var todo := s.plan.todo;
    LockStep(s, a);
    SealedShrinks(s, a);
    var u := Do(s, a);
    assert Accounted(s, SHUTDOWN);
    assert Ids(todo) == {todo[0]} + Ids(todo[1..]) by {
      assert todo == [todo[0]] + todo[1..];
    }
    if s.threads[SHUTDOWN].Holding? {
      assert todo[0] !in u.rooms;
    }
  }

  lemma PlanStep(s: State, order: seq<string>)
    requires DrainInv(s)
    ensures DrainInv(Do(s, Shut(order)))
  {
    LockStep(s, Shut(order));
    var u := Do(s, Shut(order));
    assert Sealed(s) ==> Sealed(u);
    if s.plan.Closing? && s.plan.todo == [] {
      assert Ids(s.plan.todo) == {};
    }
  }

  lemma RestingStep(s: State, pick: string)
    requires DrainInv(s) && !s.plan.Listing? && !s.plan.Awaiting?
    ensures DrainInv(Do(s, Step(SHUTDOWN, pick)))
  {
  }

  lemma {:induction false} DrainRun(maxRooms: int, states: seq<State>, acts: seq<Action>, k: nat)
    requires IsRun(maxRooms, states, acts) && k <= |acts|
    ensures DrainInv(states[k])
  {
    if k > 0 {
      DrainRun(maxRooms, states, acts, k - 1);
      assert StepAt(states, acts, k - 1);
      var s, a := states[k - 1], acts[k - 1];
      if a.Shut? {
        PlanStep(s, a.order);
      } else if a.tid != SHUTDOWN {
        OtherThreads(s, a);
      } else if a.Step? {
        if s.plan.Listing? { ListingStep(s, a.pick); }
        else if s.plan.Awaiting? { AwaitingStep(s, a.pick); }
        else { RestingStep(s, a.pick); }
      }
    }
  }

  /**
   Under every schedule, when the loop that closes the listed rooms has ended (state `j`) the table is
   empty, and it is empty in every later state `k`.
   */
  lemma {:induction false} DrainedForGood(maxRooms: int, states: seq<State>, acts: seq<Action>, j: nat, k: nat)
    requires IsRun(maxRooms, states, acts) && j <= k <= |acts| && states[j].plan.Drained?
    ensures states[k].plan.Drained? && states[k].rooms == map[]
    decreases k
  {
    DrainRun(maxRooms, states, acts, k);
    if j < k {
      DrainedForGood(maxRooms, states, acts, j, k - 1);
      assert StepAt(states, acts, k - 1);
    }
  }

  /**
   And then the counter that heartbeats report, whenever nobody writes, is the number of creates that ever
   stored a room under a drawn id already taken: zero exactly if there was none.
   */
  lemma DrainedCount(maxRooms: int, states: seq<State>, acts: seq<Action>, j: nat, k: nat)
    requires IsRun(maxRooms, states, acts) && j <= k <= |acts| && states[j].plan.Drained? && states[k].writer.None?
    ensures states[k].count == RoomCount.Drift(states, acts, k)
    ensures states[k].count == 0 <==> forall i: nat | i < k :: !RoomCount.Overwrites(states[i], acts[i])
  {
    DrainedForGood(maxRooms, states, acts, j, k);
    RoomCount.CountExactly(maxRooms, states, acts, k);
    RoomCount.DriftZero(states, acts, k);
  }
}
