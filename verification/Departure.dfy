/**
 The end of a node: its heartbeat thread, its metrics thread and its heartbeat calls may still touch the
 lease while shutdown deregisters the node and stops them one after the other.
 */
module Departure {
  import opened Prelude
  import opened Redis
  import L = Lease

  datatype BeatThread = Checking | Sleeping(until: int) | Touching | Ended

  datatype MetricsThread = Polling | Scraping | Closed

  /** How far shutdown has come, from its deregistration to the end of `Stop`. */
  datatype Stage =
    | Serving
    | Deregistered
    | BeatStopping       // heartbeat_running_ is false; waits for the heartbeat thread
    | MetricsStopping    // metrics_running_ is false; waits for the metrics thread
    | CallsStopping      // gRPC takes no new calls; waits for those in flight
    | Stopped

  datatype State = State(r: Store, beat: BeatThread, metrics: MetricsThread, calls: nat, stage: Stage)

  datatype Action =
    | Others(a: L.Action)                 // the clock, and the commands of everybody else
    | BeatStep(answers: bool)
    | MetricsStep(client: bool, answers: bool)
    | CallStarts
    | CallTouches(answers: bool)
    | ShutStep(answers: bool)

  predicate BeatRuns(stage: Stage) { stage.Serving? || stage.Deregistered? }

  predicate MetricsRuns(stage: Stage) { BeatRuns(stage) || stage.BeatStopping? }

  predicate CallsAccepted(stage: Stage) { MetricsRuns(stage) || stage.MetricsStopping? }

  function TouchIf(answers: bool, r: Store, ip: string, ttl: int): Store {
    if answers then Touch(r, ip, ttl) else r
  }

  function Do(ip: string, s: State, a: Action): State {
    match a
    case Others(b) => if L.Decides(b, ip) then s else s.(r := L.Do(s.r, b))
    case BeatStep(answers) =>
      (match s.beat
       case Checking => s.(beat := if BeatRuns(s.stage) then Sleeping(s.r.now + 60_000) else Ended)
       case Sleeping(until) => if s.r.now >= until then s.(beat := Touching) else s
       case Touching => s.(beat := Checking, r := TouchIf(answers, s.r, ip, 300))
       case Ended => s)
    case MetricsStep(client, answers) =>
      (match s.metrics
       case Polling => s.(metrics := if !MetricsRuns(s.stage) then Closed else if client then Scraping else Polling)
       case Scraping => s.(metrics := Polling, r := TouchIf(answers, s.r, ip, 30))
       case Closed => s)
    case CallStarts => if CallsAccepted(s.stage) then s.(calls := s.calls + 1) else s
    case CallTouches(answers) =>
      if s.calls == 0 then s else s.(calls := s.calls - 1, r := TouchIf(answers, s.r, ip, 30))
    case ShutStep(answers) =>
      (match s.stage
       case Serving => s.(stage := Deregistered, r := if answers then Unregister(s.r, ip) else s.r)
       case Deregistered => s.(stage := BeatStopping)
       case BeatStopping => if s.beat.Ended? then s.(stage := MetricsStopping) else s
       case MetricsStopping => if s.metrics.Closed? then s.(stage := CallsStopping) else s
       case CallsStopping => if s.calls == 0 then s.(stage := Stopped) else s
       case Stopped => s)
  }

  ghost predicate StepAt(ip: string, states: seq<State>, acts: seq<Action>, k: nat)
    requires k < |acts| && |states| == |acts| + 1
  {
    states[k + 1] == Do(ip, states[k], acts[k])
  }

  /** A heartbeat entry of the node lasts at most five minutes from now. */
  ghost predicate ShortLease(r: Store, ip: string) {
    Alive(r, HeartbeatKey(ip)) ==>
      r.data[HeartbeatKey(ip)].deadline.Some? && r.data[HeartbeatKey(ip)].deadline.value <= r.now + 300_000
  }

  /**
   From a serving node that was registered no longer than a lease ago; the rest of the store is arbitrary.
   The id comes out of the environment, so no NUL is in it.
   */
  ghost predicate IsRun(ip: string, states: seq<State>, acts: seq<Action>) {
    && |states| == |acts| + 1
    && NulFree(ip)
    && states[0].stage.Serving? && states[0].beat.Checking? && states[0].metrics.Polling? && states[0].calls == 0
    && ShortLease(states[0].r, ip)
    && forall k: nat | k < |acts| :: StepAt(ip, states, acts, k)
  }

  /** Everything that could touch the lease is over by the stage that has waited for it. */
  ghost predicate WindDown(s: State) {
    && (!MetricsRuns(s.stage) ==> s.beat.Ended?)
    && (!CallsAccepted(s.stage) ==> s.metrics.Closed?)
    && (s.stage.Stopped? ==> s.calls == 0)
  }

  lemma WindDownStep(ip: string, s: State, a: Action)
    requires WindDown(s)
    ensures WindDown(Do(ip, s, a))
  {
  }

  /** The action refreshes the node's own lease. */
  predicate OwnTouch(s: State, a: Action) {
    match a
    case BeatStep(answers) => s.beat.Touching? && answers
    case MetricsStep(_, answers) => s.metrics.Scraping? && answers
    case CallTouches(answers) => s.calls > 0 && answers
    case _ => false
  }

  /** The answered deregistration. */
  predicate Deregisters(s: State, a: Action) { s.stage.Serving? && a == ShutStep(true) }

  /** The heartbeat entry that a touch at this instant leaves, whichever of the three made it. */
  function Lease(now: int): Entry { Entry(Text("1"), Some(now + 300_000)) }

  /** What one action makes of the node's heartbeat entry. */
  lemma LeaseStep(ip: string, s: State, a: Action)
    requires NulFree(ip)
    ensures Lookup(Do(ip, s, a).r.data, HeartbeatKey(ip))
         == if OwnTouch(s, a) then Some(Lease(s.r.now))
            else if Deregisters(s, a) then None else Lookup(s.r.data, HeartbeatKey(ip))
    ensures s.r.now <= Do(ip, s, a).r.now
    ensures !s.stage.Serving? ==> !Do(ip, s, a).stage.Serving?
  {
    CStringFacts(ip);
    if a.Others? && !L.Decides(a.a, ip) {
      L.LeaseFrame(s.r, a.a, ip);
    }
  }

  /** Each of the three ways in which a node refreshes its lease, answered, makes it last five minutes from now. */
  lemma TouchesExtend(ip: string, s: State, a: Action)
    requires NulFree(ip)
    requires
      || (a == BeatStep(true) && s.beat.Touching?)
      || (a.MetricsStep? && a.answers && s.metrics.Scraping?)
      || (a == CallTouches(true) && s.calls > 0)
    ensures Lookup(Do(ip, s, a).r.data, HeartbeatKey(ip)) == Some(Entry(Text("1"), Some(s.r.now + 300_000)))
    ensures OwnTouch(s, a)
  {
    LeaseStep(ip, s, a);
  }

  lemma EntryIsLookup(r: Store, ip: string)
    ensures HeartbeatKey(ip) in r.data <==> Lookup(r.data, HeartbeatKey(ip)).Some?
  {
  }

  lemma ShortLeaseStep(ip: string, s: State, a: Action)
    requires ShortLease(s.r, ip) && NulFree(ip)
    ensures ShortLease(Do(ip, s, a).r, ip)
  {
    LeaseStep(ip, s, a);
    EntryIsLookup(s.r, ip);
    EntryIsLookup(Do(ip, s, a).r, ip);
  }

  lemma {:induction false} RunKeeps(ip: string, states: seq<State>, acts: seq<Action>, k: nat)
    requires IsRun(ip, states, acts) && k <= |acts|
    ensures WindDown(states[k]) && ShortLease(states[k].r, ip)
  {
    if k > 0 {
      RunKeeps(ip, states, acts, k - 1);
      assert StepAt(ip, states, acts, k - 1);
      WindDownStep(ip, states[k - 1], acts[k - 1]);
      ShortLeaseStep(ip, states[k - 1], acts[k - 1]);
    }
  }

  /** Once stopped, the node's heartbeat entry is never written again. */
  lemma StoppedStep(ip: string, s: State, a: Action)
    requires WindDown(s) && s.stage.Stopped? && NulFree(ip)
    ensures var u := Do(ip, s, a);
      && u.stage.Stopped? && s.r.now <= u.r.now
      && Lookup(u.r.data, HeartbeatKey(ip)) == Lookup(s.r.data, HeartbeatKey(ip))
  {
    LeaseStep(ip, s, a);
  }

  lemma {:induction false} StoppedRun(ip: string, states: seq<State>, acts: seq<Action>, j: nat, k: nat)
    requires IsRun(ip, states, acts) && j <= k <= |acts| && states[j].stage.Stopped?
    ensures states[k].stage.Stopped? && states[j].r.now <= states[k].r.now
    ensures Lookup(states[k].r.data, HeartbeatKey(ip)) == Lookup(states[j].r.data, HeartbeatKey(ip))
    decreases k
  {
    if j < k {
      StoppedRun(ip, states, acts, j, k - 1);
      RunKeeps(ip, states, acts, k - 1);
      assert StepAt(ip, states, acts, k - 1);
      StoppedStep(ip, states[k - 1], acts[k - 1]);
    }
  }

  /**
   In every run the node is off the list for good no later than five minutes after `Stop` has joined its
   threads and shut down gRPC, whether or not its deregistration was answered.
   */
  lemma GoneForGood(ip: string, states: seq<State>, acts: seq<Action>, j: nat, k: nat)
    requires IsRun(ip, states, acts) && j <= k <= |acts| && states[j].stage.Stopped?
    requires states[k].r.now >= states[j].r.now + 300_000
    ensures !Listed(states[k].r, ip)
  {
    RunKeeps(ip, states, acts, j);
    StoppedRun(ip, states, acts, j, k);
    var key := HeartbeatKey(ip);
    assert key in states[k].r.data <==> Lookup(states[k].r.data, key).Some?;
    assert key in states[j].r.data <==> Lookup(states[j].r.data, key).Some?;
  }

  /** Touches by the heartbeat thread after its flag was cleared, among the first `k` actions. */
  ghost function LateBeats(ip: string, states: seq<State>, acts: seq<Action>, k: nat): nat
    requires k <= |acts| < |states|
  {
    if k == 0 then 0
    else
      var s, earlier := states[k - 1], LateBeats(ip, states, acts, k - 1);
      if acts[k - 1].BeatStep? && s.beat.Touching? && !BeatRuns(s.stage) then earlier + 1 else earlier
  }

  /** The heartbeat thread does not recheck its flag after its sleep, but it touches at most once more. */
  lemma {:induction false} AtMostOneLateBeat(ip: string, states: seq<State>, acts: seq<Action>, k: nat)
    requires IsRun(ip, states, acts) && k <= |acts|
    ensures LateBeats(ip, states, acts, k) <= 1
    ensures BeatRuns(states[k].stage) ==> LateBeats(ip, states, acts, k) == 0
    ensures !BeatRuns(states[k].stage) && (states[k].beat.Sleeping? || states[k].beat.Touching?) ==>
      LateBeats(ip, states, acts, k) == 0
  {
    if k > 0 {
      AtMostOneLateBeat(ip, states, acts, k - 1);
      assert StepAt(ip, states, acts, k - 1);
    }
  }

  predicate BeatTouches(s: State, a: Action) { a.BeatStep? && s.beat.Touching? }

  /** Between two touches the heartbeat thread sleeps a minute. */
  lemma {:induction false} SleptSince(ip: string, states: seq<State>, acts: seq<Action>, i: nat, k: nat)
    requires IsRun(ip, states, acts) && i < k <= |acts| && BeatTouches(states[i], acts[i])
    ensures states[i].r.now <= states[k].r.now
    ensures match states[k].beat
      case Sleeping(until) => states[i].r.now + 60_000 <= until
      case Touching => states[i].r.now + 60_000 <= states[k].r.now
      case _ => true
    decreases k
  {
    assert StepAt(ip, states, acts, k - 1);
    LeaseStep(ip, states[k - 1], acts[k - 1]);
    if i < k - 1 {
      SleptSince(ip, states, acts, i, k - 1);
    }
  }

  /** So its touches, answered or not, are at least a minute apart. */
  lemma BeatsApart(ip: string, states: seq<State>, acts: seq<Action>, i: nat, k: nat)
    requires IsRun(ip, states, acts) && i < k < |acts|
    requires BeatTouches(states[i], acts[i]) && BeatTouches(states[k], acts[k])
    ensures states[i].r.now + 60_000 <= states[k].r.now
  {
    SleptSince(ip, states, acts, i, k);
  }

  lemma Extended(ip: string, before: seq<State>, earlier: seq<Action>, a: Action, u: State)
    returns (states: seq<State>, acts: seq<Action>)
    requires IsRun(ip, before, earlier) && u == Do(ip, before[|earlier|], a)
    ensures states == before + [u] && acts == earlier + [a] && IsRun(ip, states, acts)
  {
    states, acts := before + [u], earlier + [a];
    forall k: nat | k <= |earlier|
      ensures StepAt(ip, states, acts, k)
    {
      assert k < |earlier| ==> StepAt(ip, before, earlier, k);
    }
  }

  /** No touch of the node's own since action `i`. */
  ghost predicate Untouched(states: seq<State>, acts: seq<Action>, i: nat, k: nat)
    requires k <= |acts| < |states|
  {
    forall j: nat | i < j < k :: !OwnTouch(states[j], acts[j])
  }

  /** After an answered deregistration the entry is what the node's own last touch since then left. */
  lemma {:induction false} EntrySince(ip: string, states: seq<State>, acts: seq<Action>, j: nat, k: nat)
    returns (last: Option<nat>)
    requires IsRun(ip, states, acts) && j < k <= |acts| && Deregisters(states[j], acts[j])
    ensures !states[k].stage.Serving?
    ensures last.None? ==>
      Untouched(states, acts, j, k) && HeartbeatKey(ip) !in states[k].r.data
    ensures last.Some? ==>
      && j < last.value < k && OwnTouch(states[last.value], acts[last.value])
      && Untouched(states, acts, last.value, k) && states[last.value].r.now <= states[k].r.now
      && Lookup(states[k].r.data, HeartbeatKey(ip)) == Some(Lease(states[last.value].r.now))
    decreases k
  {
    var s, a := states[k - 1], acts[k - 1];
    assert StepAt(ip, states, acts, k - 1);
    LeaseStep(ip, s, a);
    if k - 1 == j {
      last := None;
    } else {
      last := EntrySince(ip, states, acts, j, k - 1);
      if OwnTouch(s, a) { last := Some(k - 1); }
      EntryIsLookup(s.r, ip);
    }
    EntryIsLookup(states[k].r, ip);
  }

  lemma {:induction false} ClockRuns(ip: string, states: seq<State>, acts: seq<Action>, i: nat, k: nat)
    requires IsRun(ip, states, acts) && i <= k <= |acts|
    ensures states[i].r.now <= states[k].r.now
    decreases k
  {
    if i < k {
      ClockRuns(ip, states, acts, i, k - 1);
      assert StepAt(ip, states, acts, k - 1);
      LeaseStep(ip, states[k - 1], acts[k - 1]);
    }
  }

  /**
   When a deregistered node is back: exactly if, in the last five minutes, its own heartbeat thread, a
   scrape or one of its calls touched the lease after the deregistration.
   */
  lemma RelistedExactly(ip: string, states: seq<State>, acts: seq<Action>, j: nat, k: nat)
    requires IsRun(ip, states, acts) && j < k <= |acts| && Deregisters(states[j], acts[j]) && ip != ""
    ensures Listed(states[k].r, ip) <==>
      exists i: nat :: j < i < k && OwnTouch(states[i], acts[i]) && states[k].r.now < states[i].r.now + 300_000
  {
    var last := EntrySince(ip, states, acts, j, k);
    EntryIsLookup(states[k].r, ip);
    if last.Some? {
      forall i: nat | j < i < k && OwnTouch(states[i], acts[i])
        ensures states[i].r.now <= states[last.value].r.now
      {
        ClockRuns(ip, states, acts, i, last.value);
      }
    }
  }

  /**
   That one touch is real: in some run the deregistration succeeds, the heartbeat flag is cleared, and
   only then does the node come back onto the list.
   */
  lemma ListedAfterDeregistration(ip: string, r: Store) returns (states: seq<State>, acts: seq<Action>)
    requires ip != "" && NulFree(ip) && ShortLease(r, ip)
    ensures IsRun(ip, states, acts) && |acts| == 6
    ensures states[0].r == r && acts[3] == ShutStep(true) && !Listed(states[4].r, ip)
    ensures states[5].stage.BeatStopping? && acts[5].BeatStep? && Listed(states[6].r, ip)
  {
    HeartbeatKeyInjective(ip, ip);
    CStringFacts(ip);
    var later := Wait(r, 60_000);
    var gone := Unregister(later, ip);
    states, acts := [State(r, Checking, Polling, 0, Serving)], [];
    var asleep := Sleeping(r.now + 60_000);
    states, acts := Extended(ip, states, acts, BeatStep(true), State(r, asleep, Polling, 0, Serving));
    states, acts := Extended(ip, states, acts, Others(L.Pass(60_000)), State(later, asleep, Polling, 0, Serving));
    states, acts := Extended(ip, states, acts, BeatStep(true), State(later, Touching, Polling, 0, Serving));
    states, acts := Extended(ip, states, acts, ShutStep(true), State(gone, Touching, Polling, 0, Deregistered));
    states, acts := Extended(ip, states, acts, ShutStep(true), State(gone, Touching, Polling, 0, BeatStopping));
    states, acts := Extended(ip, states, acts, BeatStep(true),
                             State(Touch(gone, ip, 300), Checking, Polling, 0, BeatStopping));
  }

  /**
   How late the heartbeat thread's next touch already is: the time that has passed since its last answered
   touch, apart from its sleeps of a minute, and a minute for every touch that Redis did not answer.
   */
  function NextLag(s: State, a: Action, lag: int): int {
    match a
    case Others(Pass(milliseconds)) =>
      if !s.beat.Sleeping? then lag + milliseconds
      else if s.r.now + milliseconds <= s.beat.until then lag
      else lag + milliseconds - (if s.r.now < s.beat.until then s.beat.until - s.r.now else 0)
    case BeatStep(answers) =>
      if !s.beat.Touching? then lag else if answers then 0 else lag + 60_000
    case _ => lag
  }

  /** The lag after `k` actions, from `late` milliseconds between the registration and the thread's start. */
  ghost function Lag(late: nat, states: seq<State>, acts: seq<Action>, k: nat): int
    requires k <= |acts| < |states|
  {
    if k == 0 then late else NextLag(states[k - 1], acts[k - 1], Lag(late, states, acts, k - 1))
  }

  /** How long the lease lasts at least, in terms of the lag. */
  ghost predicate Covered(ip: string, s: State, lag: int) {
    && lag >= 0
    && HeartbeatKey(ip) in s.r.data
    && s.r.data[HeartbeatKey(ip)].deadline.Some?
    && var deadline := s.r.data[HeartbeatKey(ip)].deadline.value;
       match s.beat
       case Checking => s.r.now + 300_000 - lag <= deadline
       case Sleeping(until) =>
         until <= s.r.now + 60_000 && until + 240_000 - lag <= deadline && s.r.now + 240_000 - lag <= deadline
       case Touching => s.r.now + 240_000 - lag <= deadline
       case Ended => false
  }

  lemma CoveredStep(ip: string, s: State, a: Action, lag: int)
    requires Covered(ip, s, lag) && NulFree(ip) && s.stage.Serving? && Do(ip, s, a).stage.Serving?
    ensures Covered(ip, Do(ip, s, a), NextLag(s, a, lag))
  {
    LeaseStep(ip, s, a);
    EntryIsLookup(s.r, ip);
    EntryIsLookup(Do(ip, s, a).r, ip);
  }

  lemma {:induction false} CoveredRun(ip: string, late: nat, states: seq<State>, acts: seq<Action>, k: nat)
    requires IsRun(ip, states, acts) && k <= |acts| && states[k].stage.Serving? && Covered(ip, states[0], late)
    ensures Covered(ip, states[k], Lag(late, states, acts, k))
  {
    if k > 0 {
      assert StepAt(ip, states, acts, k - 1);
      LeaseStep(ip, states[k - 1], acts[k - 1]);
      CoveredRun(ip, late, states, acts, k - 1);
      CoveredStep(ip, states[k - 1], acts[k - 1], Lag(late, states, acts, k - 1));
    }
  }

  /**
   A serving node is listed at every moment at which its heartbeat thread lags by less than four minutes,
   wherever the thread lost that time: before its sleep, by oversleeping, in Redis, or in failed touches.
   */
  lemma ServingStaysListed(ip: string, late: nat, states: seq<State>, acts: seq<Action>, k: nat)
    requires IsRun(ip, states, acts) && k <= |acts| && states[k].stage.Serving? && ip != ""
    requires Covered(ip, states[0], late) && Lag(late, states, acts, k) < 240_000
    ensures Listed(states[k].r, ip)
  {
    CoveredRun(ip, late, states, acts, k);
  }
}
