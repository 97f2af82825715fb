/** The cursor loop that collects the room keys, and the metrics that count the active ones among them. */
module Scans {
  import opened Prelude
  import opened Redis
  import opened Keys
  import opened Pages
  import RoomManagers

  /** What the count asks of a stored text: its `status`, when it parses and that reads as an int. */
  datatype Docs = Docs(status: string -> Option<int>)

  /** A scanned key together with the string its GET returned, if it did. */
  datatype Hit = Hit(key: string, value: Option<string>)

  /** The snapshots kept of a sequence of hits. */
  function Kept(hits: seq<Hit>): seq<(string, string)> {
    if hits == [] then []
    else
      var earlier, hit := Kept(hits[..|hits| - 1]), hits[|hits| - 1];
      if !IsCommandKey(hit.key) && hit.value.Some? then earlier + [(hit.key, hit.value.value)] else earlier
  }

  lemma KeptSnoc(hits: seq<Hit>, hit: Hit)
    ensures Kept(hits + [hit])
         == Kept(hits) + if !IsCommandKey(hit.key) && hit.value.Some? then [(hit.key, hit.value.value)] else []
  {
  }

  /** The hits of one reply, after those in `seen`. */
  method KeepPage(hits: seq<Hit>, before: seq<(string, string)>, ghost seen: seq<Hit>)
    returns (snapshots: seq<(string, string)>)
    requires before == Kept(seen)
    ensures snapshots == Kept(seen + hits)
  {
    snapshots := before;
    assert seen + hits[..0] == seen;
    for i := 0 to |hits|
      invariant snapshots == Kept(seen + hits[..i])
    {
      var hit := hits[i];
      KeptSnoc(seen + hits[..i], hit);
      assert seen + hits[..i + 1] == seen + hits[..i] + [hit];
      if |hit.key| >= 8 && hit.key[|hit.key| - 8..] == ":command" {
        continue;
      }
      if hit.value.Some? {
        snapshots := snapshots + [(hit.key, hit.value.value)];
      }
    }
    assert hits[..|hits|] == hits;
  }

  method GetAllRoomSnapshots(connected: bool, replies: seq<Page<Hit>>) returns (snapshots: seq<(string, string)>)
    ensures snapshots == if connected then Kept(Scanned(replies)) else []
  {
    snapshots := [];
    if !connected {
      return;
    }
    var n, more := 0, true;
    ghost var seen: seq<Hit> := [];
    while more && n < |replies| && replies[n].Page?
      invariant n <= |replies|
      invariant seen + (if more then ScannedFrom(replies, n) else []) == Scanned(replies)
      invariant snapshots == Kept(seen)
      decreases |replies| - n
    {
      var page := replies[n];
      snapshots := KeepPage(page.items, snapshots, seen);
      Associative(seen, page.items, if page.cursor == 0 then [] else ScannedFrom(replies, n + 1));
      seen := seen + page.items;
      n, more := n + 1, page.cursor != 0;
    }
    assert seen + [] == seen;
  }

  /** What is kept of two stretches of hits, one after the other; and of a single hit. */
  lemma {:induction false} KeptConcat(one: seq<Hit>, other: seq<Hit>)
    ensures Kept(one + other) == Kept(one) + Kept(other)
    ensures Kept([]) == []
  {
    if other == [] {
      assert one + other == one;
    } else {
      var last := |other| - 1;
      KeptConcat(one, other[..last]);
      KeptSnoc(one + other[..last], other[last]);
      KeptSnoc(other[..last], other[last]);
      assert one + other == (one + other[..last]) + [other[last]];
      assert other == other[..last] + [other[last]];
    }
  }

  lemma KeptOne(hit: Hit)
    ensures Kept([hit])
         == if hit.value.Some? && !(|hit.key| >= 8 && hit.key[|hit.key| - 8..] == ":command")
            then [(hit.key, hit.value.value)] else []
  {
    KeptSnoc([], hit);
    assert [] + [hit] == [hit];
  }

  predicate IsActive(docs: Docs, text: string) { docs.status(text) == Some(1) }

  function CountActive(docs: Docs, snapshots: seq<(string, string)>): nat {
    if snapshots == [] then 0
    else
      var last := |snapshots| - 1;
      CountActive(docs, snapshots[..last]) + if IsActive(docs, snapshots[last].1) then 1 else 0
  }

  /** The integer part of the metrics. */
  datatype Metrics = Metrics(localActive: int, localMax: int, globalActive: int, globalCapacity: int)

  /** `manager` supplies the two local numbers; the scrape also refreshes the pod's own lease. */
  method CollectMetricsSnapshot(
      manager: RoomManagers.RoomManager, client: RedisClient, docs: Docs, ip: string,
      touchAnswers: bool, nodesReply: Option<seq<string>>, replies: seq<Page<Hit>>)
    returns (metrics: Metrics, nodes: seq<string>)
    requires var db := if client.connected && touchAnswers then Touch(client.db, ip, 30) else client.db;
      nodesReply.Some? ==> IsKeysReply(db, nodesReply.value)
    modifies client`db
    ensures client.db == if client.connected && touchAnswers then Touch(old(client.db), ip, 30) else old(client.db)
    ensures metrics.localActive == manager.roomCount && metrics.localMax == manager.maxRooms
    ensures metrics.globalActive == if client.connected then CountActive(docs, Kept(Scanned(replies))) else 0
    ensures metrics.globalCapacity == |nodes| * manager.maxRooms
    ensures client.connected && nodesReply.Some? ==> forall node :: node in nodes <==> Listed(client.db, node)
    ensures forall i, j :: 0 <= i < j < |nodes| ==> nodes[i] != nodes[j]
  {
    metrics, nodes := Metrics(manager.roomCount, manager.maxRooms, 0, 0), [];
    if client.connected {
      var _ := client.TouchNodeHeartbeat(ip, 30, touchAnswers);
    }
    if !client.connected {
      return;
    }
    nodes := client.GetAllNodes(nodesReply);
    var snapshots := GetAllRoomSnapshots(client.connected, replies);
    var active := 0;
    for i := 0 to |snapshots|
      invariant active == CountActive(docs, snapshots[..i])
    {
      assert snapshots[..i + 1][..i] == snapshots[..i];
      var status := docs.status(snapshots[i].1);
      if status.None? || status.value != 1 {
        continue;
      }
      active := active + 1;
    }
    assert snapshots[..|snapshots|] == snapshots;
    metrics := metrics.(globalActive := active, globalCapacity := |nodes| * metrics.localMax);
  }

  /** A hit that is counted: not overlooked, with a string whose status is one. */
  predicate Counted(docs: Docs, hit: Hit) {
    !IsCommandKey(hit.key) && hit.value.Some? && IsActive(docs, hit.value.value)
  }

  function CountedKeys(docs: Docs, hits: seq<Hit>): set<string> {
    set hit | hit in hits && Counted(docs, hit) :: hit.key
  }

  /** How often a counted key comes back. */
  function Repeats(docs: Docs, hits: seq<Hit>): nat {
    if hits == [] then 0
    else
      var fewer, last := hits[..|hits| - 1], hits[|hits| - 1];
      Repeats(docs, fewer) + if Counted(docs, last) && last.key in CountedKeys(docs, fewer) then 1 else 0
  }

  /** No key is counted twice. */
  ghost predicate CountsEachOnce(docs: Docs, hits: seq<Hit>) {
    forall i, j :: 0 <= i < j < |hits| && Counted(docs, hits[i]) && Counted(docs, hits[j]) ==>
      hits[i].key != hits[j].key
  }

  lemma {:induction false} RepeatsZero(docs: Docs, hits: seq<Hit>)
    ensures Repeats(docs, hits) == 0 <==> CountsEachOnce(docs, hits)
  {
    if hits != [] {
      var fewer, last := hits[..|hits| - 1], hits[|hits| - 1];
      RepeatsZero(docs, fewer);
      assert hits == fewer + [last];
      if Counted(docs, last) && last.key in CountedKeys(docs, fewer) {
        var hit :| hit in fewer && Counted(docs, hit) && hit.key == last.key;
        var i :| 0 <= i < |fewer| && fewer[i] == hit;
        assert hits[i] == hit && hits[|fewer|] == last;
      }
      if !CountsEachOnce(docs, fewer) {
        var i, j :| 0 <= i < j < |fewer| && Counted(docs, fewer[i]) && Counted(docs, fewer[j])
                    && fewer[i].key == fewer[j].key;
        assert hits[i] == fewer[i] && hits[j] == fewer[j];
      }
    }
  }

  /** The count is the number of counted keys plus their repetitions, so exact if none is repeated and only then. */
  lemma {:induction false} CountVersusKeys(docs: Docs, hits: seq<Hit>)
    ensures CountActive(docs, Kept(hits)) == |CountedKeys(docs, hits)| + Repeats(docs, hits)
  {
    if hits != [] {
      var fewer, last := hits[..|hits| - 1], hits[|hits| - 1];
      CountVersusKeys(docs, fewer);
      assert hits == fewer + [last];
      assert CountedKeys(docs, hits) == CountedKeys(docs, fewer) + if Counted(docs, last) then {last.key} else {};
      KeptNext(docs, fewer, last);
      if Counted(docs, last) && last.key in CountedKeys(docs, fewer) {
        assert CountedKeys(docs, hits) == CountedKeys(docs, fewer);
      }
    }
  }

  lemma NothingKept(docs: Docs)
    ensures CountActive(docs, Kept([])) == 0
  {
  }

  /** A hit of status one under a key that is no companion adds one to the count, and any other hit nothing. */
  lemma KeptNext(docs: Docs, hits: seq<Hit>, last: Hit)
    ensures CountActive(docs, Kept(hits + [last]))
         == CountActive(docs, Kept(hits))
            + if last.value.Some? && docs.status(last.value.value) == Some(1) && !IsCommandKey(last.key) then 1 else 0
  {
  }

  /** A GET under this name shows a document with status one. */
  predicate ShowsActive(docs: Docs, r: Store, name: string) {
    Get(r, name).Some? && IsActive(docs, Get(r, name).value)
  }

  /** The live room keys that the scan does not overlook. */
  ghost function Rooms(r: Store): set<string> {
    set key | key in r.data && IsRoomKey(key) && Alive(r, key) && !IsCommandKey(key)
  }

  /** Those whose documents have status one. */
  ghost function ActiveRooms(docs: Docs, r: Store): set<string> {
    set key | key in Rooms(r) && Get(r, key).Some? && docs.status(Get(r, key).value) == Some(1)
  }

  /** Those for which the loop reads such a document: it asks for the key cut at its first NUL. */
  ghost function ReadActive(docs: Docs, r: Store): set<string> {
    set key | key in Rooms(r) && ShowsActive(docs, r, CString(key))
  }

  /** A scan of an unchanging store: live room keys only, every one of them, each with what GET returns. */
  ghost predicate QuietScan(r: Store, hits: seq<Hit>) {
    && (forall hit :: hit in hits ==>
          IsRoomKey(hit.key) && Alive(r, hit.key) && hit.value == Get(r, CString(hit.key)))
    && (forall key :: IsRoomKey(key) && Alive(r, key) ==> Hit(key, Get(r, CString(key))) in hits)
  }

  lemma ReadIsCounted(docs: Docs, r: Store, hits: seq<Hit>)
    requires QuietScan(r, hits)
    ensures ReadActive(docs, r) == CountedKeys(docs, hits)
  {
    forall key
      ensures key in ReadActive(docs, r) <==> key in CountedKeys(docs, hits)
    {
      if key in ReadActive(docs, r) {
        assert Counted(docs, Hit(key, Get(r, CString(key))));
      }
    }
  }

  lemma DifferenceSizes<T>(a: set<T>, b: set<T>)
    ensures |a| + |b - a| == |b| + |a - b|
  {
    assert a == (a - b) + a * b && b == (b - a) + a * b;
    assert |a| == |a - b| + |a * b| && |b| == |b - a| + |a * b|;
  }

  /**
   Scan-and-count, exactly: too many for every repetition of a counted key and for every room with a NUL in
   its key that only the document of the shortened key makes active, too few for every active room that the
   latter hides.
   */
  lemma GlobalCount(docs: Docs, r: Store, hits: seq<Hit>)
    requires QuietScan(r, hits)
    ensures var active, read := ActiveRooms(docs, r), ReadActive(docs, r);
      && CountActive(docs, Kept(hits)) == |active| + |read - active| - |active - read| + Repeats(docs, hits)
      && (forall key :: key in (read - active) + (active - read) ==> !NulFree(key))
  {
    CountVersusKeys(docs, hits);
    ReadIsCounted(docs, r, hits);
    DifferenceSizes(ActiveRooms(docs, r), ReadActive(docs, r));
    forall key
      ensures NulFree(key) <==> CString(key) == key
    {
      CStringFacts(key);
    }
  }

  /** With no NUL in a room key the count is never too small, and it is right exactly if no key is counted twice. */
  lemma GlobalCountWithoutNul(docs: Docs, r: Store, hits: seq<Hit>)
    requires QuietScan(r, hits) && forall key :: key in Rooms(r) ==> NulFree(key)
    ensures ActiveRooms(docs, r)
         == set key | key in r.data && "pokemon:room:" <= key && !(|key| >= 8 && key[|key| - 8..] == ":command")
                      && Get(r, key).Some? && docs.status(Get(r, key).value) == Some(1)
    ensures CountActive(docs, Kept(hits)) >= |ActiveRooms(docs, r)|
    ensures CountActive(docs, Kept(hits)) == |ActiveRooms(docs, r)| <==> CountsEachOnce(docs, hits)
  {
    GlobalCount(docs, r, hits);
    var active, read := ActiveRooms(docs, r), ReadActive(docs, r);
    assert read - active == {} && active - read == {};
    RepeatsZero(docs, hits);
  }

  /** With concurrent writers too: rooms that the scan meets, and that are active at each meeting, are all counted. */
  lemma NeverUndercounts(docs: Docs, hits: seq<Hit>, rooms: set<string>)
    requires forall key :: key in rooms ==> exists hit :: hit in hits && hit.key == key
    requires forall hit :: hit in hits && hit.key in rooms ==> Counted(docs, hit)
    ensures CountActive(docs, Kept(hits)) >= |rooms|
  {
    CountVersusKeys(docs, hits);
    SubsetSize(rooms, CountedKeys(docs, hits));
  }
}
