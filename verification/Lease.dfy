/** The node lease over time: any number of nodes touch, register and deregister while the clock runs. */
module Lease {
  import opened Prelude
  import opened Redis
  import Keys

  /** Single Redis commands of any node, room traffic included, and the passing of time. */
  datatype Action =
    | Pass(milliseconds: nat)
    | Enlist(ip: string)                          // SADD into the node set
    | Beat(ip: string, ttl: int)                  // TouchNodeHeartbeat
    | Leave(ip: string)                           // UnregisterNode
    | StoreRoom(id: string, data: string)
    | EraseRoom(id: string)

  function Do(r: Store, a: Action): Store {
    match a
    case Pass(milliseconds) => Wait(r, milliseconds)
    case Enlist(ip) => SAdd(r, NODES_KEY, CString(ip))
    case Beat(ip, ttl) => Touch(r, ip, ttl)
    case Leave(ip) => Unregister(r, ip)
    case StoreRoom(id, data) => SetEx(r, Keys.RoomKey(id), data, ROOM_SECONDS)
    case EraseRoom(id) => Redis.EraseRoom(r, id)
  }

  ghost predicate StepAt(states: seq<Store>, acts: seq<Action>, k: nat)
    requires k < |acts| && |states| == |acts| + 1
  {
    states[k + 1] == Do(states[k], acts[k])
  }

  ghost predicate IsRun(states: seq<Store>, acts: seq<Action>) {
    |states| == |acts| + 1 && forall k: nat | k < |acts| :: StepAt(states, acts, k)
  }

  /** The action touches the lease of the node. */
  predicate Beats(a: Action, ip: string) { a.Beat? && CString(a.ip) == ip }

  /** The action decides over the lease of the node. */
  predicate Decides(a: Action, ip: string) { Beats(a, ip) || (a.Leave? && CString(a.ip) == ip) }

  /** `i` is the last deciding action among the first `k`. */
  ghost predicate LastWord(acts: seq<Action>, i: nat, k: nat, ip: string)
    requires k <= |acts|
  {
    i < k && Decides(acts[i], ip) && forall j: nat | i < j < k :: !Decides(acts[j], ip)
  }

  lemma RoomKeyIsNoHeartbeat(id: string, ip: string)
    ensures Keys.RoomKey(id) != HeartbeatKey(ip)
  {
    assert Keys.RoomKey(id)[8] == 'r' && HeartbeatKey(ip)[8] == 's';
  }

  /** Only its own heartbeats and deregistration reach a node's heartbeat key. */
  lemma LeaseFrame(r: Store, a: Action, ip: string)
    requires !Decides(a, ip)
    ensures Lookup(Do(r, a).data, HeartbeatKey(ip)) == Lookup(r.data, HeartbeatKey(ip))
  {
    HeartbeatKeyInjective(ip, ip);
    match a {
      case Beat(other, _) => HeartbeatKeyInjective(CString(other), ip);
      case Leave(other) => HeartbeatKeyInjective(CString(other), ip);
      case StoreRoom(id, _) => RoomKeyIsNoHeartbeat(id, ip);
      case EraseRoom(id) =>
        Keys.ErasedKeys(id);
        RoomKeyIsNoHeartbeat(CString(id), ip);
        RoomKeyIsNoHeartbeat(if NulFree(id) then id + Keys.COMMAND_SUFFIX else CString(id), ip);
      case _ =>
    }
  }

  ghost function LeaseAfter(now: int, a: Action): Option<Entry> {
    if a.Beat? then Some(Entry(Text("1"), Some(now + 1000 * LeaseSeconds(a.ttl)))) else None
  }

  /** The heartbeat entry is what the last deciding action left. */
  lemma {:induction false} LeaseRun(states: seq<Store>, acts: seq<Action>, i: nat, k: nat, ip: string)
    requires IsRun(states, acts) && k <= |acts| && LastWord(acts, i, k, ip)
    ensures Lookup(states[k].data, HeartbeatKey(ip)) == LeaseAfter(states[i].now, acts[i])
  {
    assert StepAt(states, acts, k - 1);
    if i < k - 1 {
      LeaseRun(states, acts, i, k - 1, ip);
      LeaseFrame(states[k - 1], acts[k - 1], ip);
    }
  }

  lemma {:induction false} NeverDecided(states: seq<Store>, acts: seq<Action>, k: nat, ip: string)
    requires IsRun(states, acts) && k <= |acts| && forall j: nat | j < k :: !Decides(acts[j], ip)
    ensures Lookup(states[k].data, HeartbeatKey(ip)) == Lookup(states[0].data, HeartbeatKey(ip))
  {
    if k > 0 {
      assert StepAt(states, acts, k - 1);
      NeverDecided(states, acts, k - 1, ip);
      LeaseFrame(states[k - 1], acts[k - 1], ip);
    }
  }

  lemma {:induction false} ClockRuns(states: seq<Store>, acts: seq<Action>, i: nat, k: nat)
    requires IsRun(states, acts) && i <= k <= |acts|
    ensures states[i].now <= states[k].now
    decreases k
  {
    if i < k {
      ClockRuns(states, acts, i, k - 1);
      assert StepAt(states, acts, k - 1);
    }
  }

  lemma FindLastWord(acts: seq<Action>, k: nat, ip: string) returns (i: nat)
    requires k <= |acts| && exists j: nat :: j < k && Decides(acts[j], ip)
    ensures LastWord(acts, i, k, ip)
  {
    i := k - 1;
    while !Decides(acts[i], ip)
      invariant i < k && forall j: nat | i < j < k :: !Decides(acts[j], ip)
      invariant exists j: nat :: j <= i && Decides(acts[j], ip)
      decreases i
    {
      i := i - 1;
    }
  }

  /**
   The lease in one formula: starting from a store without heartbeats, a node is listed exactly when its
   last deciding action was a heartbeat whose lease has not run out.
   */
  lemma ListedExactly(states: seq<Store>, acts: seq<Action>, k: nat, ip: string)
    requires IsRun(states, acts) && k <= |acts| && ip != "" && HeartbeatKey(ip) !in states[0].data
    ensures Listed(states[k], ip) <==>
      exists i: nat :: LastWord(acts, i, k, ip) && acts[i].Beat?
                       && states[k].now < states[i].now + 1000 * LeaseSeconds(acts[i].ttl)
  {
    if exists j: nat :: j < k && Decides(acts[j], ip) {
      var i := FindLastWord(acts, k, ip);
      LeaseRun(states, acts, i, k, ip);
      assert forall other: nat | LastWord(acts, other, k, ip) :: other == i;
      assert HeartbeatKey(ip) in states[k].data <==> acts[i].Beat?;
    } else {
      NeverDecided(states, acts, k, ip);
      assert HeartbeatKey(ip) !in states[k].data;
    }
  }

  /** Within five minutes of some heartbeat after action `i`, or of `i` itself. */
  ghost predicate Fresh(states: seq<Store>, acts: seq<Action>, i: nat, k: nat, ip: string)
    requires |states| == |acts| + 1 && k <= |acts|
  {
    exists j: nat :: i <= j < k && Beats(acts[j], ip) && states[k].now < states[j].now + 300_000
  }

  /**
   Lease safety: a node that was touched at action `i`, has not been deregistered since, and has never
   been without a heartbeat for five minutes, is listed. The time to live it asks for does not matter.
   */
  lemma LeaseSafety(states: seq<Store>, acts: seq<Action>, i: nat, k: nat, ip: string)
    requires IsRun(states, acts) && i < k <= |acts| && ip != ""
    requires forall j: nat | i <= j < k :: acts[j].Leave? ==> CString(acts[j].ip) != ip
    requires Fresh(states, acts, i, k, ip)
    ensures Listed(states[k], ip)
  {
    var j: nat :| i <= j < k && Beats(acts[j], ip) && states[k].now < states[j].now + 300_000;
    var last := FindLastWord(acts, k, ip);
    LeaseRun(states, acts, last, k, ip);
    ClockRuns(states, acts, j, last);
  }

  /** A node that stops touching is gone five minutes later, if its leases were the default ones. */
  lemma SilentNodeGone(states: seq<Store>, acts: seq<Action>, k: nat, ip: string)
    requires IsRun(states, acts) && k <= |acts| && HeartbeatKey(ip) !in states[0].data
    requires forall j: nat | j < k && Beats(acts[j], ip) :: acts[j].ttl <= 300
    requires forall j: nat | j < k && Beats(acts[j], ip) :: states[j].now + 300_000 <= states[k].now
    ensures !Listed(states[k], ip)
  {
    if ip != "" {
      ListedExactly(states, acts, k, ip);
    }
  }

  /** With the time to live of every call in the source, 30 or 300, nobody's touch ever shortens a lease. */
  lemma TouchNeverShortens(states: seq<Store>, acts: seq<Action>, k: nat, ip: string, caller: string, ttl: int)
    requires IsRun(states, acts) && k <= |acts| && HeartbeatKey(ip) !in states[0].data
    requires forall j: nat | j < k && Beats(acts[j], ip) :: acts[j].ttl <= 300
    ensures HeartbeatKey(ip) in states[k].data && states[k].data[HeartbeatKey(ip)].deadline.Some? ==>
      states[k].data[HeartbeatKey(ip)].deadline.value
        <= Touch(states[k], caller, ttl).data[HeartbeatKey(ip)].deadline.value
  {
    if exists j: nat :: j < k && Decides(acts[j], ip) {
      var i := FindLastWord(acts, k, ip);
      LeaseRun(states, acts, i, k, ip);
      ClockRuns(states, acts, i, k);
    } else {
      NeverDecided(states, acts, k, ip);
    }
  }
}
