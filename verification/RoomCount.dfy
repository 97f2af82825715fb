/** The lock-free room counter: what a heartbeat may read at any instant, inside critical sections too. */
module RoomCount {
  import opened Prelude
  import opened Rooms
  import opened RoomLocks

  /** Counter updates the writer has still to make: one up after a store, one down after an erase. */
  ghost function Owed(s: State): int {
    if s.writer.None? || s.writer.value !in s.threads then 0
    else match s.threads[s.writer.value]
      case Stored(_) => 1
      case Erased => -1
      case _ => 0
  }

  /** How far the counter runs ahead of the table, the update under way included. */
  ghost function Slack(s: State): int { s.count + Owed(s) - |s.rooms| }

  ghost predicate SizeInv(s: State) {
    && |s.rooms| <= s.maxRooms
    && (Owed(s) == -1 ==> |s.rooms| < s.maxRooms)
    && (Owed(s) == 1 ==> |s.rooms| > 0)
  }

  /** A create that is not refused stores a drawn id that is already taken. */
  predicate Overwrites(s: State, a: Action) {
    && a.Step? && a.tid in s.threads && s.threads[a.tid].Admitted?
    && s.threads[a.tid].op.Generate? && !Refuses(s, s.threads[a.tid].op) && s.threads[a.tid].op.id in s.rooms
  }

  /** How many of the first `k` actions did that. */
  ghost function Drift(states: seq<State>, acts: seq<Action>, k: nat): nat
    requires k <= |acts| < |states|
  {
    if k == 0 then 0
    else Drift(states, acts, k - 1) + if Overwrites(states[k - 1], acts[k - 1]) then 1 else 0
  }

  /** What a writing thread does to the map, the counter and its own obligation, in one place. */
  lemma WriterEffect(s: State, tid: nat, pick: string)
    requires LockInv(s) && tid in s.threads && s.writer == Some(tid)
    ensures var u := Advance(s, tid, s.threads[tid], pick);
      match s.threads[tid]
      case Holding(op) =>
        if op.Close? && op.id in s.rooms
        then Owed(u) == -1 && u.count == s.count && u.rooms == s.rooms - {op.id}
        else Owed(u) == 0 && u.count == s.count && u.rooms == s.rooms
      case Admitted(op) =>
        if Refuses(s, op) then Owed(u) == 0 && u.count == s.count && u.rooms == s.rooms
        else Owed(u) == 1 && u.count == s.count && u.rooms.Keys == s.rooms.Keys + {op.id}
      case _ => Owed(u) == 0 && u.count == s.count + Owed(s) && u.rooms.Keys == s.rooms.Keys
  {
    assert Accounted(s, tid);
    var u := Advance(s, tid, s.threads[tid], pick);
    if s.threads[tid].Ticking? {
      assert u.rooms.Keys == s.rooms.Keys;
    }
  }

  lemma WriterStep(s: State, tid: nat, pick: string)
    requires LockInv(s) && tid in s.threads && s.writer == Some(tid)
    ensures var u := Advance(s, tid, s.threads[tid], pick);
      && Slack(u) == Slack(s) + (if Overwrites(s, Step(tid, pick)) then 1 else 0)
      && (SizeInv(s) && s.maxRooms >= 0 ==> SizeInv(u))
  {
    var u := Advance(s, tid, s.threads[tid], pick);
    assert Accounted(s, tid);
    WriterEffect(s, tid, pick);
    match s.threads[tid] {
      case Holding(op) =>
        if op.Close? { CutSize(s.rooms, op.id); }
      case Admitted(op) =>
        if !Refuses(s, op) { PutSize(s.rooms, op.id, NewRoom(op.id, op.name, op.maxPlayers, op.at)); }
      case _ => assert |u.rooms.Keys| == |s.rooms.Keys|;
    }
  }

  lemma OtherEffect(s: State, a: Action)
    requires LockInv(s)
    requires a.Step? ==> s.writer != Some(a.tid)
    ensures var u := Do(s, a);
      u.rooms == s.rooms && u.count == s.count && u.maxRooms == s.maxRooms && Owed(u) == Owed(s)
  {
  }

  lemma CountStep(s: State, a: Action)
    requires LockInv(s)
    ensures Slack(Do(s, a)) == Slack(s) + (if Overwrites(s, a) then 1 else 0)
    ensures SizeInv(s) && s.maxRooms >= 0 ==> SizeInv(Do(s, a))
  {
    if a.Step? && s.writer == Some(a.tid) {
      WriterStep(s, a.tid, a.pick);
    } else {
      OtherEffect(s, a);
      assert a.Step? && a.tid in s.threads ==> Accounted(s, a.tid);
    }
  }

  lemma {:induction false} DriftZero(states: seq<State>, acts: seq<Action>, k: nat)
    requires k <= |acts| < |states|
    ensures Drift(states, acts, k) == 0 <==> forall j: nat | j < k :: !Overwrites(states[j], acts[j])
  {
    if k > 0 {
      DriftZero(states, acts, k - 1);
    }
  }

  /**
   The counter in every schedule and for every limit: it is the table size, less the update the writer still
   owes, plus one for every create that stored a room under a drawn id already taken. So with nobody
   writing it is right exactly if there was no such create.
   */
  lemma {:induction false} CountExactly(maxRooms: int, states: seq<State>, acts: seq<Action>, k: nat)
    requires IsRun(maxRooms, states, acts) && k <= |acts|
    ensures states[k].count + Owed(states[k]) == |states[k].rooms| + Drift(states, acts, k)
    ensures states[k].writer.None? ==>
      (states[k].count == |states[k].rooms| <==> forall j: nat | j < k :: !Overwrites(states[j], acts[j]))
    ensures maxRooms >= 0 ==> SizeInv(states[k])
  {
    if k > 0 {
      CountExactly(maxRooms, states, acts, k - 1);
      LockRun(maxRooms, states, acts, k - 1);
      assert StepAt(states, acts, k - 1);
      CountStep(states[k - 1], acts[k - 1]);
    }
    DriftZero(states, acts, k);
  }

  /**
   At every instant of every schedule without such a create so far, the counter lies between zero and the
   capacity, is at most one away from the table size, and equals it whenever nobody writes. A heartbeat
   loads it without the lock, so it never reports more active rooms than capacity.
   */
  lemma CountAlwaysSafe(maxRooms: int, states: seq<State>, acts: seq<Action>, k: nat)
    requires IsRun(maxRooms, states, acts) && k <= |acts| && maxRooms >= 0
    requires forall j: nat | j < k :: !Overwrites(states[j], acts[j])
    ensures var s := states[k];
      && 0 <= s.count <= s.maxRooms == maxRooms
      && |s.rooms| - 1 <= s.count <= |s.rooms| + 1
      && (s.writer.None? ==> s.count == |s.rooms|)
  {
    CountExactly(maxRooms, states, acts, k);
    DriftZero(states, acts, k);
    LockRun(maxRooms, states, acts, k);
  }

  /** A create that runs through its six actions undisturbed. */
  lemma CreateAlone(maxRooms: int, before: seq<State>, earlier: seq<Action>, tid: nat, op: Op)
    returns (states: seq<State>, acts: seq<Action>)
    requires IsRun(maxRooms, before, earlier)
    requires var s := before[|earlier|];
      s.writer.None? && s.readers == {} && !s.maintaining && tid != SHUTDOWN && tid !in s.threads
      && op.Generate? && !Refuses(s, op)
    ensures IsRun(maxRooms, states, acts)
    ensures var s := before[|earlier|];
      states[|acts|] == s.(rooms := s.rooms[op.id := NewRoom(op.id, op.name, op.maxPlayers, op.at)],
                           count := s.count + 1,
                           threads := s.threads[tid := Returned(Created(op.id))])
  {
    var s, step := before[|earlier|], Step(tid, "");
    var rooms := s.rooms[op.id := NewRoom(op.id, op.name, op.maxPlayers, op.at)];
    var called := Goto(s, tid, Waiting(op));
    states, acts := Extended(maxRooms, before, earlier, Call(tid, op), called);
    states, acts := Extended(maxRooms, states, acts, step, Goto(s, tid, Holding(op)).(writer := Some(tid)));
    states, acts := Extended(maxRooms, states, acts, step, Goto(s, tid, Admitted(op)).(writer := Some(tid)));
    states, acts := Extended(maxRooms, states, acts, step,
      Goto(s, tid, Stored(op.id)).(writer := Some(tid), rooms := rooms));
    states, acts := Extended(maxRooms, states, acts, step,
      Goto(s, tid, Leaving(true, Created(op.id))).(writer := Some(tid), rooms := rooms, count := s.count + 1));
    states, acts := Extended(maxRooms, states, acts, step,
      Goto(s, tid, Returned(Created(op.id))).(rooms := rooms, count := s.count + 1));
  }

  /** Such a create can happen: the same id drawn twice leaves the counter one above the table size. */
  lemma RepeatedDrawDrifts(maxRooms: int, id: string) returns (states: seq<State>, acts: seq<Action>)
    requires maxRooms >= 2
    ensures IsRun(maxRooms, states, acts)
    ensures states[|acts|].writer.None? && states[|acts|].rooms.Keys == {id} && states[|acts|].count == 2
  {
    var op := Generate(id, "room", 2, 0);
    states, acts := CreateAlone(maxRooms, [Init(maxRooms)], [], 1, op);
    assert states[|acts|].rooms.Keys == {id};
    states, acts := CreateAlone(maxRooms, states, acts, 2, op);
  }
}
