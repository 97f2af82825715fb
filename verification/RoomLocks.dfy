/**
 The room manager under its readers-writer lock, in small steps: taking the lock, reading the flag,
 changing the map, updating the counter and releasing the lock are separate. Any number of threads call
 any methods in any order, an activity pass ages one room at a time, the maintenance flag is written
 outside the lock, and one further thread runs the graceful shutdown.
 */
module RoomLocks {
  import opened Prelude
  import opened Rooms

  /** Where a thread is inside the method it called. */
  datatype Pc =
    | Waiting(op: Op)                              // the lock is not taken yet
    | Holding(op: Op)                              // the lock is taken, nothing is read yet
    | Admitted(op: Op)                             // a create that has read a lowered flag
    | Stored(id: string)                           // the entry is in the map, the counter not yet raised
    | Erased                                       // the entry is gone, the counter not yet lowered
    | Ticking(todo: set<string>)                   // rooms this activity pass has still to age
    | Leaving(exclusive: bool, result: Result)     // about to release the lock
    | Returned(result: Result)

  /** Progress of the shutdown procedure around the methods it calls. */
  datatype Plan =
    | Idle
    | Polling(left: nat)
    | Listing
    | Closing(todo: seq<string>)
    | Awaiting(todo: seq<string>)                  // the call that closes `todo[0]` is under way
    | Drained

  datatype State = State(
    rooms: map<string, Room>,
    maintaining: bool,
    maxRooms: int,
    count: int,
    writer: Option<nat>,
    readers: set<nat>,
    threads: map<nat, Pc>,
    plan: Plan
  )

  /** The thread id the shutdown procedure uses; every other id is free for callers. */
  const SHUTDOWN: nat := 0

  datatype Action =
    | Call(tid: nat, op: Op)
    | Step(tid: nat, pick: string)                 // `pick` is the room an activity pass visits next
    | Shut(order: seq<string>)                     // `order` is the iteration order of the listed map

  function Init(maxRooms: int): State {
    State(map[], false, maxRooms, 0, None, {}, map[], Idle)
  }

  predicate Creates(op: Op) { op.Generate? || op.CreateWithId? }

  predicate Exclusive(op: Op) { Creates(op) || op.Close? || op.Tick? }

  function Contents(s: State): Table {
    Table(s.rooms, s.maintaining, s.maxRooms)
  }

  predicate Refuses(s: State, op: Op) {
    |s.rooms| >= Limit(s.maxRooms) || (op.CreateWithId? && op.id in s.rooms)
  }

  function Goto(s: State, tid: nat, pc: Pc): State {
    s.(threads := s.threads[tid := pc])
  }

  function Advance(s: State, tid: nat, pc: Pc, pick: string): State {
    match pc
    case Waiting(op) =>
      if s.writer.Some? || (Exclusive(op) && s.readers != {}) then s
      else if Exclusive(op) then Goto(s, tid, Holding(op)).(writer := Some(tid))
      else Goto(s, tid, Holding(op)).(readers := s.readers + {tid})
    case Holding(op) =>
      if Creates(op) then Goto(s, tid, if s.maintaining then Leaving(true, Refused) else Admitted(op))
      else if op.Close? then
        if op.id in s.rooms then Goto(s, tid, Erased).(rooms := s.rooms - {op.id})
        else Goto(s, tid, Leaving(true, Missing))
      else if op.Tick? then Goto(s, tid, Ticking(s.rooms.Keys))
      else Goto(s, tid, Leaving(false, Apply(Contents(s), op).1))
    case Admitted(op) =>
      if !Creates(op) || Refuses(s, op) then Goto(s, tid, Leaving(true, Refused))
      else Goto(s, tid, Stored(op.id)).(rooms := s.rooms[op.id := NewRoom(op.id, op.name, op.maxPlayers, op.at)])
    case Stored(id) => Goto(s, tid, Leaving(true, Created(id))).(count := s.count + 1)
    case Erased => Goto(s, tid, Leaving(true, Closed)).(count := s.count - 1)
    case Ticking(todo) =>
      if todo == {} then Goto(s, tid, Leaving(true, Done))
      else if pick in todo && pick in s.rooms then
        Goto(s, tid, Ticking(todo - {pick})).(rooms := s.rooms[pick := Aged(s.rooms[pick])])
      else s
    case Leaving(exclusive, result) =>
      if exclusive then Goto(s, tid, Returned(result)).(writer := None)
      else Goto(s, tid, Returned(result)).(readers := s.readers - {tid})
    case Returned(_) => s
  }

  predicate Iterates(order: seq<string>, ids: set<string>) {
    |order| == |ids| && (set id | id in order) == ids
  }

  /** One step of the shutdown procedure itself: raise the flag, poll five times, list, close each. */
  function Proceed(s: State, order: seq<string>): State {
    match s.plan
    case Idle => s.(maintaining := true, plan := Polling(5))
    case Polling(left) =>
      if left > 0 then s.(plan := Polling(left - 1))
      else Goto(s, SHUTDOWN, Waiting(ListAll)).(plan := Listing)
    case Listing =>
      if SHUTDOWN in s.threads && s.threads[SHUTDOWN].Returned? && s.threads[SHUTDOWN].result.Listed?
         && Iterates(order, s.threads[SHUTDOWN].result.rooms.Keys)
      then s.(plan := Closing(order)) else s
    case Closing(todo) =>
      if todo == [] then s.(plan := Drained)
      else Goto(s, SHUTDOWN, Waiting(Close(todo[0]))).(plan := Awaiting(todo))
    case Awaiting(todo) =>
      if SHUTDOWN in s.threads && s.threads[SHUTDOWN].Returned? && todo != []
      then s.(plan := Closing(todo[1..])) else s
    case Drained => s
  }

  /** A step that is not enabled leaves the state alone, so every action sequence is a schedule. */
  function Do(s: State, a: Action): State {
    match a
    case Call(tid, op) =>
      if tid == SHUTDOWN || op.Maintain? || (tid in s.threads && !s.threads[tid].Returned?) then s
      else Goto(s, tid, Waiting(op))
    case Step(tid, pick) =>
      if tid in s.threads then Advance(s, tid, s.threads[tid], pick) else s
    case Shut(order) => Proceed(s, order)
  }

  ghost predicate StepAt(states: seq<State>, acts: seq<Action>, k: nat)
    requires k < |acts| && |states| == |acts| + 1
  {
    states[k + 1] == Do(states[k], acts[k])
  }

  /** A schedule from the empty room manager, with the states it passes through. */
  ghost predicate IsRun(maxRooms: int, states: seq<State>, acts: seq<Action>) {
    |states| == |acts| + 1 && states[0] == Init(maxRooms) && forall k: nat | k < |acts| :: StepAt(states, acts, k)
  }

  lemma Extended(maxRooms: int, before: seq<State>, earlier: seq<Action>, a: Action, u: State)
    returns (states: seq<State>, acts: seq<Action>)
    requires IsRun(maxRooms, before, earlier) && u == Do(before[|earlier|], a)
    ensures states == before + [u] && acts == earlier + [a] && IsRun(maxRooms, states, acts)
  {
    states, acts := before + [u], earlier + [a];
    forall k: nat | k <= |earlier|
      ensures StepAt(states, acts, k)
    {
      assert k < |earlier| ==> StepAt(before, earlier, k);
    }
  }

  predicate Writes(pc: Pc) {
    match pc
    case Holding(op) => Exclusive(op)
    case Leaving(exclusive, _) => exclusive
    case _ => pc.Admitted? || pc.Stored? || pc.Erased? || pc.Ticking?
  }

  predicate Reads(pc: Pc) {
    match pc
    case Holding(op) => !Exclusive(op)
    case Leaving(exclusive, _) => !exclusive
    case _ => false
  }

  /** The lock fields say exactly whether this thread is inside, and how. */
  ghost predicate Accounted(s: State, t: nat)
    requires t in s.threads
  {
    && (Writes(s.threads[t]) <==> s.writer == Some(t))
    && (Reads(s.threads[t]) <==> t in s.readers)
    && (s.threads[t].Admitted? ==> Creates(s.threads[t].op))
    && ((s.threads[t].Waiting? || s.threads[t].Holding?) ==> !s.threads[t].op.Maintain?)
  }

  /** One writer or many readers. */
  ghost predicate LockInv(s: State) {
    && (forall t :: t in s.threads ==> Accounted(s, t))
    && s.readers <= s.threads.Keys
    && (s.writer.Some? ==> s.writer.value in s.threads && s.readers == {})
    && (s.plan.Idle? || s.plan.Polling? ==> SHUTDOWN !in s.threads)
    && (s.plan.Closing? ==> SHUTDOWN in s.threads && s.threads[SHUTDOWN].Returned?)
  }

  /** A thread that moves on inside (or outside) the lock, taking and releasing nothing. */
  lemma LockKept(s: State, u: State, tid: nat)
    requires LockInv(s) && tid in s.threads && tid in u.threads
    requires u == s.(rooms := u.rooms, count := u.count, threads := s.threads[tid := u.threads[tid]])
    requires Writes(u.threads[tid]) == Writes(s.threads[tid]) && Reads(u.threads[tid]) == Reads(s.threads[tid])
    requires u.threads[tid].Admitted? ==> Creates(u.threads[tid].op)
    requires !u.threads[tid].Waiting? && !u.threads[tid].Holding? && !s.threads[tid].Returned?
    ensures LockInv(u)
  {
  }

  lemma LockAcquired(s: State, tid: nat, pick: string)
    requires LockInv(s) && tid in s.threads && s.threads[tid].Waiting?
    ensures LockInv(Advance(s, tid, s.threads[tid], pick))
  {
  }

  lemma LockReleased(s: State, tid: nat, pick: string)
    requires LockInv(s) && tid in s.threads && s.threads[tid].Leaving?
    ensures LockInv(Advance(s, tid, s.threads[tid], pick))
  {
  }

  lemma LockEntered(s: State, tid: nat, pick: string)
    requires LockInv(s) && tid in s.threads && s.threads[tid].Holding?
    ensures LockInv(Advance(s, tid, s.threads[tid], pick))
  {
  }

  lemma LockAdvance(s: State, tid: nat, pick: string)
    requires LockInv(s) && tid in s.threads
    ensures LockInv(Advance(s, tid, s.threads[tid], pick))
  {
    var pc := s.threads[tid];
    if pc.Waiting? {
      LockAcquired(s, tid, pick);
    } else if pc.Leaving? {
      LockReleased(s, tid, pick);
    } else if pc.Holding? {
      LockEntered(s, tid, pick);
    } else if Advance(s, tid, pc, pick) != s {
      LockKept(s, Advance(s, tid, pc, pick), tid);
    }
  }

  lemma LockStep(s: State, a: Action)
    requires LockInv(s)
    ensures LockInv(Do(s, a))
  {
    if a.Step? {
      if a.tid in s.threads { LockAdvance(s, a.tid, a.pick); }
    } else {
      var u := Do(s, a);
      forall t | t in u.threads
        ensures Accounted(u, t)
      {
        assert t in s.threads ==> Accounted(s, t);
      }
    }
  }

  lemma {:induction false} LockRun(maxRooms: int, states: seq<State>, acts: seq<Action>, k: nat)
    requires IsRun(maxRooms, states, acts) && k <= |acts|
    ensures LockInv(states[k]) && states[k].maxRooms == maxRooms
  {
    if k > 0 {
      LockRun(maxRooms, states, acts, k - 1);
      assert StepAt(states, acts, k - 1);
      LockStep(states[k - 1], acts[k - 1]);
    }
  }

  /** The table as the atomic operations see it: a change that can no longer fail has already happened. */
  ghost function Ahead(s: State): Table {
    var rooms :=
      if s.writer.None? || s.writer.value !in s.threads then s.rooms
      else match s.threads[s.writer.value]
        case Admitted(op) =>
          if !Creates(op) || Refuses(s, op) then s.rooms
          else s.rooms[op.id := NewRoom(op.id, op.name, op.maxPlayers, op.at)]
        case Ticking(todo) =>
          map id | id in s.rooms :: if id in todo then Aged(s.rooms[id]) else s.rooms[id]
        case _ => s.rooms;
    Table(rooms, s.maintaining, s.maxRooms)
  }

  /** The result a thread is bound to return, once that is settled. */
  ghost function Promised(s: State, tid: nat): Option<Result> {
    if tid !in s.threads then None
    else match s.threads[tid]
      case Waiting(_) => None
      case Holding(_) => None
      case Admitted(op) => Some(if !Creates(op) || Refuses(s, op) then Refused else Created(op.id))
      case Stored(id) => Some(Created(id))
      case Erased => Some(Closed)
      case Ticking(_) => Some(Done)
      case Leaving(_, result) => Some(result)
      case Returned(result) => Some(result)
  }

  /** The action at which a call takes effect: its first access under the lock, or the flag write. */
  ghost function Commit(s: State, a: Action): Option<Op> {
    match a
    case Step(tid, _) =>
      if tid in s.threads && s.threads[tid].Holding? then Some(s.threads[tid].op) else None
    case Shut(_) => if s.plan.Idle? then Some(Maintain) else None
    case Call(_, _) => None
  }

  lemma AheadSame(s: State, u: State)
    requires u.rooms == s.rooms && u.writer == s.writer && u.maxRooms == s.maxRooms
    requires s.writer.Some? ==> Lookup(u.threads, s.writer.value) == Lookup(s.threads, s.writer.value)
    ensures Ahead(u) == Ahead(s).(maintaining := u.maintaining)
  {
  }

  /** Taking or releasing the lock, and every call, leave the atomic table alone. */
  lemma OutsideStutters(s: State, tid: nat, pick: string)
    requires LockInv(s) && tid in s.threads
    requires s.threads[tid].Waiting? || s.threads[tid].Leaving? || s.threads[tid].Returned?
    ensures Ahead(Advance(s, tid, s.threads[tid], pick)) == Ahead(s)
  {
  }

  /** The first access under the lock is where a call takes effect. */
  lemma HoldingCommits(s: State, tid: nat, pick: string)
    requires LockInv(s) && tid in s.threads && s.threads[tid].Holding?
    ensures var op := s.threads[tid].op;
      var u := Advance(s, tid, s.threads[tid], pick);
      (Ahead(u), Promised(u, tid)) == (Apply(Ahead(s), op).0, Some(Apply(Ahead(s), op).1))
  {
    assert Accounted(s, tid);
    var op := s.threads[tid].op;
    var u := Advance(s, tid, s.threads[tid], pick);
    assert s.writer == if Exclusive(op) then Some(tid) else None;
    assert Ahead(s) == Contents(s);
    match op {
      case Tick =>
        assert Ahead(u).rooms == AgeAll(s.rooms);
      case _ =>
    }
  }

  /** What follows under the lock only catches up with it. */
  lemma InsideStutters(s: State, tid: nat, pick: string)
    requires LockInv(s) && tid in s.threads
    requires s.threads[tid].Admitted? || s.threads[tid].Stored? || s.threads[tid].Erased? || s.threads[tid].Ticking?
    ensures Ahead(Advance(s, tid, s.threads[tid], pick)) == Ahead(s)
    ensures Promised(Advance(s, tid, s.threads[tid], pick), tid) == Promised(s, tid)
  {
    assert Accounted(s, tid);
    var u := Advance(s, tid, s.threads[tid], pick);
    assert u.writer == s.writer == Some(tid);
    if s.threads[tid].Ticking? {
      assert Ahead(u).rooms == Ahead(s).rooms;
    }
  }

  lemma OthersStutter(s: State, a: Action)
    requires LockInv(s) && !a.Step?
    ensures Ahead(Do(s, a)) == if Commit(s, a).None? then Ahead(s) else Apply(Ahead(s), Maintain).0
  {
    var u := Do(s, a);
    if s.writer.Some? {
      var t := s.writer.value;
      assert Accounted(s, t);
      if a.Call? {
        assert u.threads[t] == s.threads[t];
      } else {
        assert (!s.plan.Polling? && !s.plan.Closing?) || t != SHUTDOWN;
        assert u.threads[t] == s.threads[t];
      }
    }
    AheadSame(s, u);
  }

  /** Every step either performs exactly one atomic operation, with its result, or changes nothing. */
  lemma StepRefines(s: State, a: Action)
    requires LockInv(s)
    ensures Ahead(Do(s, a)) == if Commit(s, a).None? then Ahead(s) else Apply(Ahead(s), Commit(s, a).value).0
    ensures Commit(s, a).Some? && a.Step? ==>
      Promised(Do(s, a), a.tid) == Some(Apply(Ahead(s), Commit(s, a).value).1)
  {
    if !a.Step? {
      OthersStutter(s, a);
    } else if a.tid in s.threads {
      var pc := s.threads[a.tid];
      if pc.Holding? {
        HoldingCommits(s, a.tid, a.pick);
      } else if pc.Waiting? || pc.Leaving? || pc.Returned? {
        OutsideStutters(s, a.tid, a.pick);
      } else {
        InsideStutters(s, a.tid, a.pick);
      }
    }
  }

  lemma OthersMove(s: State, a: Action, tid: nat)
    requires tid in s.threads && (a.Step? ==> a.tid != tid)
    ensures tid in Do(s, a).threads
    ensures Do(s, a).threads[tid] == s.threads[tid] || Do(s, a).threads[tid].Waiting?
  {
  }

  /** Nobody else touches the map while a thread is writing. */
  lemma WriterAlone(s: State, a: Action, tid: nat)
    requires LockInv(s) && s.writer == Some(tid)
    requires a.Step? ==> a.tid != tid
    ensures Do(s, a).rooms == s.rooms
  {
  }

  /** A settled result is the one that is returned: no step of any thread changes it. */
  lemma PromiseKept(s: State, a: Action, tid: nat)
    requires LockInv(s) && Promised(s, tid).Some?
    requires tid in Do(s, a).threads && !Do(s, a).threads[tid].Waiting?
    ensures Promised(Do(s, a), tid) == Promised(s, tid)
  {
    var pc := s.threads[tid];
    assert Accounted(s, tid);
    if a.Step? && a.tid == tid {
      if pc.Admitted? || pc.Stored? || pc.Erased? || pc.Ticking? {
        InsideStutters(s, tid, a.pick);
      }
    } else {
      OthersMove(s, a, tid);
      if pc.Admitted? {
        WriterAlone(s, a, tid);
      }
    }
  }

  /** The atomic operations of the first `k` actions, in the order in which they take effect. */
  ghost function Commits(maxRooms: int, states: seq<State>, acts: seq<Action>, k: nat): seq<Op>
    requires IsRun(maxRooms, states, acts) && k <= |acts|
  {
    if k == 0 then []
    else
      match Commit(states[k - 1], acts[k - 1])
      case None => Commits(maxRooms, states, acts, k - 1)
      case Some(op) => Commits(maxRooms, states, acts, k - 1) + [op]
  }

  /** The table of the history that is in force at moment `m`. */
  ghost predicate Meets(
      maxRooms: int, states: seq<State>, acts: seq<Action>, tables: seq<Table>, m: nat)
    requires IsRun(maxRooms, states, acts) && m <= |acts|
  {
    var i := |Commits(maxRooms, states, acts, m)|;
    i < |tables| && tables[i] == Ahead(states[m])
  }

  /** Every schedule is equivalent to running whole operations one at a time. */
  lemma {:induction false} RunRefines(maxRooms: int, states: seq<State>, acts: seq<Action>, k: nat)
    returns (tables: seq<Table>)
    requires IsRun(maxRooms, states, acts) && k <= |acts|
    ensures IsHistory(tables, Commits(maxRooms, states, acts, k))
    ensures tables[0] == Table(map[], false, maxRooms) && tables[|tables| - 1] == Ahead(states[k])
    ensures forall m: nat | m <= k :: Meets(maxRooms, states, acts, tables, m)
  {
    if k == 0 {
      tables := [Table(map[], false, maxRooms)];
    } else {
      var s, a := states[k - 1], acts[k - 1];
      var earlier, ops := Commits(maxRooms, states, acts, k - 1), Commits(maxRooms, states, acts, k);
      tables := RunRefines(maxRooms, states, acts, k - 1);
      assert StepAt(states, acts, k - 1);
      LockRun(maxRooms, states, acts, k - 1);
      StepRefines(s, a);
      if Commit(s, a).Some? {
        var longer := tables + [Ahead(states[k])];
        forall j: nat | j < |ops|
          ensures AppliesAt(longer, ops, j)
        {
          assert j < |earlier| ==> AppliesAt(tables, earlier, j);
        }
        forall m: nat | m <= k
          ensures Meets(maxRooms, states, acts, longer, m)
        {
          assert m < k ==> Meets(maxRooms, states, acts, tables, m);
        }
        tables := longer;
      }
    }
  }

  lemma {:induction false} CommitsGrow(maxRooms: int, states: seq<State>, acts: seq<Action>, m: nat, k: nat)
    requires IsRun(maxRooms, states, acts) && m <= k <= |acts|
    ensures Commits(maxRooms, states, acts, m) <= Commits(maxRooms, states, acts, k)
    decreases k
  {
    if m < k {
      CommitsGrow(maxRooms, states, acts, m, k - 1);
    }
  }

  /** The operation a thread has called and not yet performed. */
  function Asked(s: State, tid: nat): Option<Op> {
    if tid in s.threads && (s.threads[tid].Waiting? || s.threads[tid].Holding?) then Some(s.threads[tid].op) else None
  }

  /** Action `c` is the call of `op` by this thread, which is still pending at moment `m`. */
  ghost predicate PendingSince(states: seq<State>, acts: seq<Action>, c: nat, m: nat, tid: nat, op: Op)
    requires m <= |acts| < |states|
  {
    && c < m && (if tid == SHUTDOWN then acts[c].Shut? else acts[c] == Call(tid, op))
    && forall j: nat | c < j <= m :: Asked(states[j], tid) == Some(op)
  }

  lemma AskedStep(s: State, a: Action, tid: nat)
    requires Asked(Do(s, a), tid).Some?
    ensures Asked(s, tid) == Asked(Do(s, a), tid)
      || (if tid == SHUTDOWN then a.Shut? else a == Call(tid, Asked(Do(s, a), tid).value))
  {
  }

  lemma {:induction false} AskedRun(maxRooms: int, states: seq<State>, acts: seq<Action>, m: nat, tid: nat)
    returns (c: nat)
    requires IsRun(maxRooms, states, acts) && m <= |acts| && Asked(states[m], tid).Some?
    ensures PendingSince(states, acts, c, m, tid, Asked(states[m], tid).value)
  {
    assert StepAt(states, acts, m - 1);
    AskedStep(states[m - 1], acts[m - 1], tid);
    if Asked(states[m - 1], tid) == Asked(states[m], tid) {
      c := AskedRun(maxRooms, states, acts, m - 1, tid);
    } else {
      c := m - 1;
    }
  }

  /** The step at which a thread's operation took effect, and which settled its result for good. */
  ghost predicate SettledAt(states: seq<State>, acts: seq<Action>, m: nat, k: nat, tid: nat, op: Op)
    requires k <= |acts| < |states|
  {
    && m < k && acts[m].Step? && acts[m].tid == tid && Commit(states[m], acts[m]) == Some(op)
    && forall j: nat | m < j <= k :: Promised(states[j], tid) == Some(Apply(Ahead(states[m]), op).1)
  }

  /** A result is only ever settled at a commit. */
  lemma PromiseStep(s: State, a: Action, tid: nat)
    requires LockInv(s) && Promised(Do(s, a), tid).Some?
    ensures Promised(s, tid) == Promised(Do(s, a), tid)
      || (a.Step? && a.tid == tid && Commit(s, a).Some?)
  {
    if Promised(s, tid).Some? {
      PromiseKept(s, a, tid);
    } else if !a.Step? || a.tid != tid {
      if tid in s.threads { OthersMove(s, a, tid); }
    }
  }

  lemma {:induction false} PromiseRun(maxRooms: int, states: seq<State>, acts: seq<Action>, k: nat, tid: nat)
    returns (m: nat, op: Op)
    requires IsRun(maxRooms, states, acts) && k <= |acts| && Promised(states[k], tid).Some?
    ensures SettledAt(states, acts, m, k, tid, op)
  {
    var s, a := states[k - 1], acts[k - 1];
    assert StepAt(states, acts, k - 1);
    LockRun(maxRooms, states, acts, k - 1);
    PromiseStep(s, a, tid);
    if a.Step? && a.tid == tid && Commit(s, a).Some? {
      m, op := k - 1, Commit(s, a).value;
      StepRefines(s, a);
    } else {
      m, op := PromiseRun(maxRooms, states, acts, k - 1, tid);
    }
  }

  /**
   Results over whole schedules: what a call returns is the result of its own operation at its own place in
   the history of whole operations, and that place lies between the call and its return.
   */
  lemma ResultsRefine(maxRooms: int, states: seq<State>, acts: seq<Action>, k: nat, tid: nat)
    returns (tables: seq<Table>, c: nat, m: nat, i: nat)
    requires IsRun(maxRooms, states, acts) && k <= |acts| && Promised(states[k], tid).Some?
    ensures var ops := Commits(maxRooms, states, acts, k);
      && IsHistory(tables, ops) && tables[0] == Table(map[], false, maxRooms) && i < |ops|
      && Promised(states[k], tid) == Some(Apply(tables[i], ops[i]).1)
      && SettledAt(states, acts, m, k, tid, ops[i])
      && PendingSince(states, acts, c, m, tid, ops[i])
  {
    var op;
    m, op := PromiseRun(maxRooms, states, acts, k, tid);
    c := AskedRun(maxRooms, states, acts, m, tid);
    tables := RunRefines(maxRooms, states, acts, k);
    i := |Commits(maxRooms, states, acts, m)|;
    assert Meets(maxRooms, states, acts, tables, m);
    CommitsGrow(maxRooms, states, acts, m + 1, k);
  }

  /** Hence a room seen while nobody writes is exactly as old as the activity passes since its insertion. */
  lemma RoomsKeepTheirAge(maxRooms: int, states: seq<State>, acts: seq<Action>, k: nat, id: string)
    returns (tables: seq<Table>, i: nat)
    requires IsRun(maxRooms, states, acts) && k <= |acts| && states[k].writer.None? && id in states[k].rooms
    ensures var ops := Commits(maxRooms, states, acts, k);
      && IsHistory(tables, ops) && LastInsertion(tables, ops, i, |ops|, id)
      && HasAge(states[k].rooms[id], ops[i], Ticks(ops, i + 1, |ops|))
  {
    tables := RunRefines(maxRooms, states, acts, k);
    i := EveryRoomEqualsItsAge(tables, Commits(maxRooms, states, acts, k), |tables| - 1, id);
  }
}
