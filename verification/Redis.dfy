/** A key-value store with expiry, and what the node commands of the Redis client do to it. */
module Redis {
  import opened Prelude
  import Keys

  datatype Value = Text(text: string) | Members(ids: set<string>)

  /** Deadlines and the clock count milliseconds; expired entries are still in `data` but not alive. */
  datatype Entry = Entry(value: Value, deadline: Option<int>)

  datatype Store = Store(now: int, data: map<string, Entry>)

  predicate Alive(r: Store, key: string) {
    key in r.data && (r.data[key].deadline.Some? ==> r.now < r.data[key].deadline.value)
  }

  /** GET: a live string. */
  function Get(r: Store, key: string): Option<string> {
    if Alive(r, key) && r.data[key].value.Text? then Some(r.data[key].value.text) else None
  }

  /** SET key text EX seconds. */
  function SetEx(r: Store, key: string, text: string, seconds: int): Store {
    r.(data := r.data[key := Entry(Text(text), Some(r.now + 1000 * seconds))])
  }

  /** DEL. */
  function Del(r: Store, keys: set<string>): Store {
    r.(data := r.data - keys)
  }

  predicate WrongType(r: Store, key: string) { Alive(r, key) && r.data[key].value.Text? }

  /** SADD, which fails on a key that holds a string. */
  function SAdd(r: Store, key: string, id: string): Store {
    if WrongType(r, key) then r
    else if Alive(r, key) then r.(data := r.data[key := r.data[key].(value := Members(r.data[key].value.ids + {id}))])
    else r.(data := r.data[key := Entry(Members({id}), None)])
  }

  /** The members of a live set. */
  function MembersOf(r: Store, key: string): set<string> {
    if Alive(r, key) && r.data[key].value.Members? then r.data[key].value.ids else {}
  }

  function Wait(r: Store, milliseconds: nat): Store {
    r.(now := r.now + milliseconds)
  }

  const NODES_KEY: string := "pokemon:server:nodes"
  const HEARTBEAT_PREFIX: string := "pokemon:server:heartbeat:"

  function HeartbeatKey(ip: string): string { HEARTBEAT_PREFIX + ip }

  lemma HeartbeatKeyInjective(one: string, other: string)
    ensures HeartbeatKey(one) == HeartbeatKey(other) <==> one == other
    ensures HeartbeatKey(one) != NODES_KEY
  {
    assert HeartbeatKey(one)[|HEARTBEAT_PREFIX|..] == one;
    assert HeartbeatKey(other)[|HEARTBEAT_PREFIX|..] == other;
    assert HeartbeatKey(one)[15] == 'h' && NODES_KEY[15] == 'n';
  }

  /** Leases shorter than five minutes are stretched to five minutes. */
  function LeaseSeconds(ttl: int): int {
    if ttl < 300 then 300 else ttl
  }

  /** Node ids travel through `%s` too: a command reaches the node whose name ends before the first NUL. */
  function Touch(r: Store, ip: string, ttl: int): Store {
    SetEx(r, HeartbeatKey(CString(ip)), "1", LeaseSeconds(ttl))
  }

  /** Deletes the heartbeat of one node, and the node set of all of them. */
  function Unregister(r: Store, ip: string): Store {
    Del(r, {NODES_KEY, HeartbeatKey(CString(ip))})
  }

  lemma HeartbeatName(ip: string)
    ensures CString(HEARTBEAT_PREFIX + ip) == HeartbeatKey(CString(ip))
  {
    assert forall i | 0 <= i < 25 :: HEARTBEAT_PREFIX[i] != '\0';
    CStringConcat(HEARTBEAT_PREFIX, ip);
  }

  /** A node counts while its heartbeat key is alive. */
  predicate Listed(r: Store, ip: string) {
    ip != "" && Alive(r, HeartbeatKey(ip))
  }

  /** Deregistering takes one node, whose name is cut at its first NUL, and no other off the list. */
  lemma UnregisterFrame(r: Store, ip: string, other: string)
    ensures Listed(Unregister(r, ip), other) <==> other != CString(ip) && Listed(r, other)
    ensures NODES_KEY !in Unregister(r, ip).data
  {
    HeartbeatKeyInjective(CString(ip), other);
  }

  /** The live strings, without their expiry. */
  function Texts(r: Store): map<string, string> {
    map key | key in r.data && Get(r, key).Some? :: Get(r, key).value
  }

  /** The passing of time takes away exactly the strings whose deadline it reaches. */
  lemma WaitExpires(r: Store, milliseconds: nat, key: string)
    ensures Lookup(Texts(Wait(r, milliseconds)), key)
      == if key in r.data && r.data[key].deadline.Some? && r.data[key].deadline.value <= r.now + milliseconds
         then None else Lookup(Texts(r), key)
  {
    assert Get(Wait(r, milliseconds), key).Some? ==> Get(r, key).Some?;
  }

  const ROOM_SECONDS := 3600

  /** Room data can be read for exactly an hour after it was stored, if nothing else touches its key. */
  lemma RoomDataLasts(r: Store, id: string, data: string, milliseconds: nat)
    ensures Get(Wait(SetEx(r, "pokemon:room:" + id, data, ROOM_SECONDS), milliseconds), "pokemon:room:" + id)
         == if milliseconds < 3_600_000 then Some(data) else None
  {
  }

  lemma SetRoomTexts(r: Store, id: string, data: string)
    ensures Texts(SetEx(r, Keys.RoomKey(id), data, ROOM_SECONDS)) == Keys.Set(Texts(r), id, data)
  {
  }

  /** DEL of a room's two keys, as their names arrive. */
  function EraseRoom(r: Store, id: string): Store {
    Del(r, {CString(Keys.RoomKey(id)), CString(Keys.Companion(Keys.RoomKey(id)))})
  }

  lemma EraseRoomTexts(r: Store, id: string)
    ensures Texts(EraseRoom(r, id)) == Keys.Erase(Texts(r), id)
  {
  }

  /** KEYS with the heartbeat pattern: every live key with the prefix once, in any order. */
  ghost predicate IsKeysReply(r: Store, reply: seq<string>) {
    && (forall key :: key in reply <==> HEARTBEAT_PREFIX <= key && Alive(r, key))
    && (forall i, j :: 0 <= i < j < |reply| ==> reply[i] != reply[j])
  }

  class RedisClient {
    var db: Store
    var connected: bool

    constructor (db: Store, connected: bool)
      ensures this.db == db && this.connected == connected
    {
      this.db, this.connected := db, connected;
    }

    /** `answers` says whether Redis executes the command and replies as expected. */
    method TouchNodeHeartbeat(ip: string, ttl: int, answers: bool) returns (ok: bool)
      modifies this`db
      ensures ok == (connected && answers)
      ensures db == if ok then Touch(old(db), ip, ttl) else old(db)
      ensures ok ==>
        var key, seconds := "pokemon:server:heartbeat:" + CString(ip), if ttl < 300 then 300 else ttl;
        && db.now == old(db).now
        && db.data == old(db).data[key := Entry(Text("1"), Some(db.now + 1000 * seconds))]
    {
      if !connected {
        return false;
      }
      var seconds := ttl;
      if seconds < 300 {
        seconds := 300;
      }
      if !answers {
        return false;
      }
      var key := HEARTBEAT_PREFIX + ip;
      HeartbeatName(ip);
      db := SetEx(db, CString(key), "1", seconds);
      return true;
    }

    /** The heartbeat that follows a successful SADD may fail on its own; that goes unnoticed. */
    method RegisterNode(ip: string, addAnswers: bool, touchAnswers: bool) returns (ok: bool)
      modifies this`db
      ensures ok == (connected && addAnswers && !WrongType(old(db), NODES_KEY))
      ensures db == if !ok then old(db)
                    else if touchAnswers then Touch(SAdd(old(db), NODES_KEY, CString(ip)), ip, 30)
                    else SAdd(old(db), NODES_KEY, CString(ip))
      ensures ok ==>
        && Alive(db, "pokemon:server:nodes")
        && db.data["pokemon:server:nodes"].value
           == Members({CString(ip)} + MembersOf(old(db), "pokemon:server:nodes"))
    {
      if !connected || !addAnswers {
        return false;
      }
      ok := !WrongType(db, NODES_KEY);
      db := SAdd(db, NODES_KEY, CString(ip));
      if ok {
        var _ := TouchNodeHeartbeat(ip, 30, touchAnswers);
      }
    }

    method UnregisterNode(ip: string, answers: bool) returns (ok: bool)
      modifies this`db
      ensures ok == (connected && answers)
      ensures db == if ok then Unregister(old(db), ip) else old(db)
      ensures ok ==>
        && db.now == old(db).now
        && db.data == old(db).data - {"pokemon:server:nodes", "pokemon:server:heartbeat:" + CString(ip)}
    {
      if !connected || !answers {
        return false;
      }
      var heartbeatKey := HEARTBEAT_PREFIX + ip;
      HeartbeatName(ip);
      db := Del(db, {NODES_KEY, CString(heartbeatKey)});
      return true;
    }

    method SetRoomData(id: string, data: string, answers: bool) returns (ok: bool)
      modifies this`db
      ensures ok == (connected && answers)
      ensures db == if ok then SetEx(old(db), Keys.RoomKey(id), data, ROOM_SECONDS) else old(db)
      ensures ok ==>
        && db.now == old(db).now
        && db.data == old(db).data["pokemon:room:" + id := Entry(Text(data), Some(db.now + 3_600_000))]
      ensures Texts(db) == if ok then Keys.Set(Texts(old(db)), id, data) else Texts(old(db))
    {
      if !connected || !answers {
        return false;
      }
      SetRoomTexts(db, id, data);
      db := SetEx(db, "pokemon:room:" + id, data, 3600);
      return true;
    }

    method DeleteRoomData(id: string, answers: bool) returns (ok: bool)
      modifies this`db
      ensures ok == (connected && answers)
      ensures db == if ok then EraseRoom(old(db), id) else old(db)
      ensures ok ==>
        && db.now == old(db).now
        && db.data == old(db).data - {CString("pokemon:room:" + id), CString("pokemon:room:" + id + ":command")}
      ensures Texts(db) == if ok then Keys.Erase(Texts(old(db)), id) else Texts(old(db))
    {
      if !connected || !answers {
        return false;
      }
      var roomKey := "pokemon:room:" + id;
      var commandKey := roomKey + ":command";
      EraseRoomTexts(db, id);
      db := Del(db, {CString(roomKey), CString(commandKey)});
      return true;
    }

    /** Exactly the listed nodes, each once: stripping the prefix undoes adding it. */
    method GetAllNodes(reply: Option<seq<string>>) returns (nodes: seq<string>)
      requires reply.Some? ==> IsKeysReply(db, reply.value)
      ensures connected && reply.Some? ==> forall ip :: ip in nodes <==> Listed(db, ip)
      ensures !connected || reply.None? ==> nodes == []
      ensures forall i, j :: 0 <= i < j < |nodes| ==> nodes[i] != nodes[j]
    {
      nodes := [];
      if !connected || reply.None? {
        return;
      }
      var keys := reply.value;
      var n := |HEARTBEAT_PREFIX|;
      for i := 0 to |keys|
        invariant forall ip :: ip in nodes <==> ip != "" && HeartbeatKey(ip) in keys[..i]
        invariant forall a, b :: 0 <= a < b < |nodes| ==> nodes[a] != nodes[b]
      {
        var key := keys[i];
        ghost var before := nodes;
        assert key in keys && HEARTBEAT_PREFIX <= key;
        if |key| > n && key[..n] == HEARTBEAT_PREFIX {
          var ip := key[n..];
          assert HeartbeatKey(ip) == key;
          assert key !in keys[..i];
          if ip != "" {
            nodes := nodes + [ip];
          }
        }
        ReplyNext(keys, i, before, nodes);
      }
      assert keys[..|keys|] == keys;
    }
  }

  /** The list after one more key of the reply. */
  lemma ReplyNext(keys: seq<string>, i: nat, before: seq<string>, after: seq<string>)
    requires i < |keys| && HEARTBEAT_PREFIX <= keys[i]
    requires forall ip :: ip in before <==> ip != "" && HeartbeatKey(ip) in keys[..i]
    requires after == if |keys[i]| > |HEARTBEAT_PREFIX| then before + [keys[i][|HEARTBEAT_PREFIX|..]] else before
    ensures forall ip :: ip in after <==> ip != "" && HeartbeatKey(ip) in keys[..i + 1]
  {
    assert keys[..i + 1] == keys[..i] + [keys[i]];
    var last := keys[i][|HEARTBEAT_PREFIX|..];
    assert HeartbeatKey(last) == keys[i];
    forall ip
      ensures ip in after <==> ip != "" && HeartbeatKey(ip) in keys[..i + 1]
    {
      HeartbeatKeyInjective(ip, last);
    }
  }
}
