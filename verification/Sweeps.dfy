/** The cursor loop that deletes a server's rooms from Redis: what it removes, and when that is right. */
module Sweeps {
  import opened Prelude
  import opened Redis
  import opened Keys
  import opened Pages

  /** What the loop asks of a stored text: its `server_id`, when it parses and that is a string. */
  datatype Docs = Docs(serverId: string -> Option<string>)

  /** A key that SCAN returned, and whether Redis answers the GET and the DEL that may follow for it. */
  datatype Item = Item(key: string, getAnswers: bool, delAnswers: bool)

  /** GET of this name returns a document that names the server. */
  predicate NamesServer(docs: Docs, r: Store, ip: string, name: string) {
    Get(r, name).Some? && docs.serverId(Get(r, name).value) == Some(ip)
  }

  /** The names that the DEL for a scanned key receives. */
  function Names(key: string): set<string> { {CString(key), CString(Companion(key))} }

  lemma NamesAre(key: string)
    ensures Names(key) == if NulFree(key) then {key, Companion(key)} else {CString(key)}
  {
    CStringFacts(key);
    CutCompanion(key);
  }

  /** The loop body: the store after it, and whether it took the key for one of the server's. */
  function Visit(docs: Docs, r: Store, ip: string, item: Item): (Store, bool) {
    if IsCommandKey(item.key) || !item.getAnswers || !NamesServer(docs, r, ip, CString(item.key)) then (r, false)
    else (if item.delAnswers then Del(r, Names(item.key)) else r, true)
  }

  function Sweep(docs: Docs, r: Store, ip: string, items: seq<Item>): (Store, bool) {
    if items == [] then (r, false)
    else
      var (before, any) := Sweep(docs, r, ip, items[..|items| - 1]);
      var (after, taken) := Visit(docs, before, ip, items[|items| - 1]);
      (after, any || taken)
  }

  /** The loop gets to see the document under the item's name, if there is one. */
  predicate Reads(item: Item) { !IsCommandKey(item.key) && item.getAnswers }

  /** Both commands for the item are answered. */
  predicate Works(item: Item) { Reads(item) && item.delAnswers }

  /** The first working item under its truncated name, which shows a document of the server. */
  ghost predicate Opens(docs: Docs, r: Store, ip: string, items: seq<Item>, i: nat) {
    && i < |items| && Works(items[i]) && NamesServer(docs, r, ip, CString(items[i].key))
    && forall j: nat | j < i :: Works(items[j]) ==> CString(items[j].key) != CString(items[i].key)
  }

  ghost predicate Swept(docs: Docs, r: Store, ip: string, items: seq<Item>, key: string) {
    exists i: nat :: Opens(docs, r, ip, items, i) && key in Names(items[i].key)
  }

  ghost predicate SweptExactly(docs: Docs, r: Store, ip: string, items: seq<Item>, after: Store) {
    && after.now == r.now
    && forall key :: Lookup(after.data, key) == if Swept(docs, r, ip, items, key) then None else Lookup(r.data, key)
  }

  lemma {:induction false} FirstOpens(docs: Docs, r: Store, ip: string, items: seq<Item>, n: nat) returns (i: nat)
    requires n < |items| && Works(items[n]) && NamesServer(docs, r, ip, CString(items[n].key))
    ensures i <= n && Opens(docs, r, ip, items, i) && CString(items[i].key) == CString(items[n].key)
    decreases n
  {
    i := n;
    if j: nat :| j < n && Works(items[j]) && CString(items[j].key) == CString(items[n].key) {
      i := FirstOpens(docs, r, ip, items, j);
    }
  }

  lemma SweptSnoc(docs: Docs, r: Store, ip: string, fewer: seq<Item>, last: Item, key: string)
    ensures Swept(docs, r, ip, fewer + [last], key)
       <==> Swept(docs, r, ip, fewer, key)
            || (Opens(docs, r, ip, fewer + [last], |fewer|) && key in Names(last.key))
  {
    var items := fewer + [last];
    forall i: nat | i < |fewer|
      ensures Opens(docs, r, ip, items, i) <==> Opens(docs, r, ip, fewer, i)
    {
      assert forall j: nat | j <= i :: items[j] == fewer[j];
    }
    if i: nat :| Opens(docs, r, ip, fewer, i) && key in Names(fewer[i].key) {
      assert Opens(docs, r, ip, items, i) && items[i] == fewer[i];
    }
  }

  /** What the loop body finds after an exact sweep of earlier items. */
  lemma SweptNames(docs: Docs, r: Store, ip: string, items: seq<Item>, after: Store, name: string)
    requires SweptExactly(docs, r, ip, items, after)
    ensures NamesServer(docs, after, ip, name)
       <==> NamesServer(docs, r, ip, name) && !Swept(docs, r, ip, items, name)
  {
    assert Lookup(after.data, name)
        == if Swept(docs, r, ip, items, name) then None else Lookup(r.data, name);
    assert name in after.data <==> Lookup(after.data, name).Some?;
  }

  /** A later item under a name already swept adds nothing. */
  lemma NothingNew(docs: Docs, r: Store, ip: string, fewer: seq<Item>, last: Item, key: string)
    requires Swept(docs, r, ip, fewer, CString(last.key)) && !IsCommandKey(last.key)
    requires Opens(docs, r, ip, fewer + [last], |fewer|) && key in Names(last.key)
    ensures Swept(docs, r, ip, fewer, key)
  {
    var name := CString(last.key);
    var i: nat :| Opens(docs, r, ip, fewer, i) && name in Names(fewer[i].key);
    assert (fewer + [last])[i] == fewer[i];
    NamesAre(fewer[i].key);
    NamesAre(last.key);
    CompanionIsCommandKey(fewer[i].key);
    CStringFacts(last.key);
  }

  /**
   Whatever SCAN returns, in whatever order and however often, and whichever commands fail: of the items with
   one truncated name that shows a document of the server, the first working one decides what is deleted.
   The loop reports a deletion exactly if it read such a document at all.
   */
  lemma {:induction false} SweepIsExact(docs: Docs, r: Store, ip: string, items: seq<Item>)
    ensures SweptExactly(docs, r, ip, items, Sweep(docs, r, ip, items).0)
    ensures Sweep(docs, r, ip, items).1
       <==> exists item :: item in items && Reads(item) && NamesServer(docs, r, ip, CString(item.key))
  {
    if items != [] {
      var fewer, last := items[..|items| - 1], items[|items| - 1];
      var before := Sweep(docs, r, ip, fewer).0;
      SweepIsExact(docs, r, ip, fewer);
      assert items == fewer + [last];
      var name := CString(last.key);
      SweptNames(docs, r, ip, fewer, before, name);
      if Reads(last) && NamesServer(docs, r, ip, name) && Swept(docs, r, ip, fewer, name) {
        var i: nat :| Opens(docs, r, ip, fewer, i) && name in Names(fewer[i].key);
        assert fewer[i] in fewer;
      }
      if Works(last) && NamesServer(docs, before, ip, name) && !Opens(docs, r, ip, items, |fewer|) {
        var j: nat :| j < |fewer| && Works(items[j]) && CString(items[j].key) == name;
        var i := FirstOpens(docs, r, ip, fewer, j);
        assert Swept(docs, r, ip, fewer, name);
      }
      forall key
        ensures Swept(docs, r, ip, items, key)
           <==> Swept(docs, r, ip, fewer, key)
                || (Works(last) && NamesServer(docs, before, ip, name) && key in Names(last.key))
      {
        SweptSnoc(docs, r, ip, fewer, last, key);
        if Opens(docs, r, ip, items, |fewer|) && key in Names(last.key) && Swept(docs, r, ip, fewer, name) {
          NothingNew(docs, r, ip, fewer, last, key);
        }
      }
    }
  }

  /** A live room key that the loop does not overlook. */
  ghost predicate IsRoom(r: Store, key: string) { IsRoomKey(key) && Alive(r, key) && !IsCommandKey(key) }

  /** A room of the server. */
  ghost predicate RoomOf(docs: Docs, r: Store, ip: string, key: string) {
    IsRoom(r, key) && Get(r, key).Some? && docs.serverId(Get(r, key).value) == Some(ip)
  }

  /**
   SCAN with the room pattern, with every command answered and nobody else writing: it returns live room
   keys, and misses none that stays.
   */
  ghost predicate Promising(docs: Docs, r: Store, ip: string, items: seq<Item>) {
    && (forall item :: item in items ==>
          IsRoomKey(item.key) && Alive(r, item.key) && item.getAnswers && item.delAnswers)
    && (forall key :: IsRoomKey(key) && Alive(r, key) && Alive(Sweep(docs, r, ip, items).0, key) ==>
          Item(key, true, true) in items)
  }

  /** The entry that Redis shows under a key: one whose deadline has passed is not there any more. */
  function Shown(r: Store, key: string): Option<Entry> {
    if Alive(r, key) then Some(r.data[key]) else None
  }

  /** What the sweep is for: a room of the server goes together with its companion, and nothing else does. */
  ghost predicate ToGo(docs: Docs, r: Store, ip: string, key: string) {
    exists room :: RoomOf(docs, r, ip, room) && key in {room, Companion(room)}
  }

  ghost predicate Right(docs: Docs, r: Store, ip: string, items: seq<Item>) {
    var (after, any) := Sweep(docs, r, ip, items);
    && after.now == r.now
    && (forall key :: Shown(after, key) == if ToGo(docs, r, ip, key) then None else Shown(r, key))
    && (any <==> exists room :: RoomOf(docs, r, ip, room))
  }

  /** A live room whose key holds a NUL, so that the loop reads the document of the key cut there. */
  ghost predicate Misread(docs: Docs, r: Store, ip: string, key: string) {
    IsRoom(r, key) && !NulFree(key) && NamesServer(docs, r, ip, CString(key))
  }

  /**
   A room key with a NUL that leads the sweep astray: its own document names the server, but it cannot be
   deleted; or the document read instead does, and that deletes a companion of no room of the server, or
   deletes a room of the server before its live companion, which no further misreading then removes.
   */
  ghost predicate Stray(docs: Docs, r: Store, ip: string, key: string) {
    var name := CString(key);
    || (RoomOf(docs, r, ip, key) && !NulFree(key))
    || (Misread(docs, r, ip, key) && IsCommandKey(name)
        && !exists room :: RoomOf(docs, r, ip, room) && name == Companion(room))
    || (Misread(docs, r, ip, key) && !IsCommandKey(name) && Alive(r, Companion(name))
        && !exists other :: Misread(docs, r, ip, other) && CString(other) == Companion(name))
  }

  /** A key cut at a NUL is still a room key. */
  lemma CutIsRoomKey(key: string)
    requires IsRoomKey(key)
    ensures IsRoomKey(CString(key))
  {
    var id := key[|ROOM_PREFIX|..];
    assert key == RoomKey(id);
    CutRoomKey(id);
  }

  /** Everything a promising scan deletes is to go. */
  lemma SweptToGo(docs: Docs, r: Store, ip: string, items: seq<Item>, i: nat, key: string)
    requires Promising(docs, r, ip, items) && !exists stray :: Stray(docs, r, ip, stray)
    requires Opens(docs, r, ip, items, i) && key in Names(items[i].key)
    ensures ToGo(docs, r, ip, key)
  {
    var scanned := items[i].key;
    var name := CString(scanned);
    assert items[i] in items && !Stray(docs, r, ip, scanned);
    NamesAre(scanned);
    CStringFacts(scanned);
    CutIsRoomKey(scanned);
    if NulFree(scanned) {
      assert RoomOf(docs, r, ip, scanned);
    } else {
      assert Misread(docs, r, ip, scanned) && key == name;
      if !IsCommandKey(name) {
        assert RoomOf(docs, r, ip, name);
      }
    }
  }

  /** A name under which a live room key shows a document of the server does not survive a promising scan. */
  lemma ReadNameGoes(docs: Docs, r: Store, ip: string, items: seq<Item>, scanned: string)
    requires Promising(docs, r, ip, items) && Item(scanned, true, true) in items
    requires !IsCommandKey(scanned) && NamesServer(docs, r, ip, CString(scanned))
    ensures Swept(docs, r, ip, items, CString(scanned))
  {
    var n: nat :| n < |items| && items[n] == Item(scanned, true, true);
    var i := FirstOpens(docs, r, ip, items, n);
    assert CString(items[i].key) in Names(items[i].key);
  }

  /** A key that stays is scanned. */
  lemma StaysScanned(docs: Docs, r: Store, ip: string, items: seq<Item>, key: string)
    requires Promising(docs, r, ip, items) && IsRoomKey(key) && Alive(r, key)
    requires !Swept(docs, r, ip, items, key)
    ensures Item(key, true, true) in items
  {
    var after := Sweep(docs, r, ip, items).0;
    SweepIsExact(docs, r, ip, items);
    assert Lookup(after.data, key) == Lookup(r.data, key);
    assert key in after.data <==> Lookup(after.data, key).Some?;
  }

  /** Nothing that is deleted has a NUL in its name. */
  lemma SweptNulFree(docs: Docs, r: Store, ip: string, items: seq<Item>, key: string)
    requires Swept(docs, r, ip, items, key)
    ensures NulFree(key)
  {
    var i: nat :| Opens(docs, r, ip, items, i) && key in Names(items[i].key);
    CStringFacts(items[i].key);
    CStringFacts(Companion(items[i].key));
  }

  lemma MisreadGoes(docs: Docs, r: Store, ip: string, items: seq<Item>, key: string)
    requires Promising(docs, r, ip, items) && Misread(docs, r, ip, key)
    ensures Swept(docs, r, ip, items, CString(key))
  {
    if Swept(docs, r, ip, items, key) {
      SweptNulFree(docs, r, ip, items, key);
    }
    StaysScanned(docs, r, ip, items, key);
    ReadNameGoes(docs, r, ip, items, key);
  }

  /** A room of the server goes, and so does its companion if there is one. */
  lemma RoomGoes(docs: Docs, r: Store, ip: string, items: seq<Item>, room: string)
    requires Promising(docs, r, ip, items) && !exists stray :: Stray(docs, r, ip, stray)
    requires RoomOf(docs, r, ip, room)
    ensures Swept(docs, r, ip, items, room)
    ensures Alive(r, Companion(room)) ==> Swept(docs, r, ip, items, Companion(room))
  {
    assert !Stray(docs, r, ip, room);
    CStringFacts(room);
    if !Swept(docs, r, ip, items, room) {
      StaysScanned(docs, r, ip, items, room);
      ReadNameGoes(docs, r, ip, items, room);
    }
    var i: nat :| Opens(docs, r, ip, items, i) && room in Names(items[i].key);
    var scanned := items[i].key;
    assert items[i] in items;
    NamesAre(scanned);
    CompanionIsCommandKey(scanned);
    CStringFacts(scanned);
    if !NulFree(scanned) && Alive(r, Companion(room)) {
      assert Misread(docs, r, ip, scanned) && !Stray(docs, r, ip, scanned);
      var other :| Misread(docs, r, ip, other) && CString(other) == Companion(room);
      MisreadGoes(docs, r, ip, items, other);
    } else if Alive(r, Companion(room)) {
      assert scanned == room;
      assert Companion(room) in Names(scanned);
    }
  }

  /** What Redis shows after a sweep. */
  lemma SweptShown(docs: Docs, r: Store, ip: string, items: seq<Item>, key: string)
    ensures Shown(Sweep(docs, r, ip, items).0, key)
         == if Swept(docs, r, ip, items, key) then None else Shown(r, key)
  {
    var after := Sweep(docs, r, ip, items).0;
    SweepIsExact(docs, r, ip, items);
    assert Lookup(after.data, key) == if Swept(docs, r, ip, items, key) then None else Lookup(r.data, key);
    assert key in after.data <==> Lookup(after.data, key).Some?;
  }

  /** Without a stray key every promising scan does what the sweep is for. */
  lemma SweepRemovesTheServersRooms(docs: Docs, r: Store, ip: string, items: seq<Item>)
    requires Promising(docs, r, ip, items) && !exists stray :: Stray(docs, r, ip, stray)
    ensures Right(docs, r, ip, items)
  {
    var (after, any) := Sweep(docs, r, ip, items);
    SweepIsExact(docs, r, ip, items);
    forall key
      ensures Shown(after, key) == if ToGo(docs, r, ip, key) then None else Shown(r, key)
    {
      SweptShown(docs, r, ip, items, key);
      if Swept(docs, r, ip, items, key) {
        var i: nat :| Opens(docs, r, ip, items, i) && key in Names(items[i].key);
        SweptToGo(docs, r, ip, items, i, key);
      } else if ToGo(docs, r, ip, key) {
        var room :| RoomOf(docs, r, ip, room) && key in {room, Companion(room)};
        RoomGoes(docs, r, ip, items, room);
      }
    }
    if any {
      var item :| item in items && Reads(item) && NamesServer(docs, r, ip, CString(item.key));
      var n: nat :| n < |items| && items[n] == item;
      var i := FirstOpens(docs, r, ip, items, n);
      SweptToGo(docs, r, ip, items, i, CString(items[i].key));
    }
    if room :| RoomOf(docs, r, ip, room) {
      RoomGoes(docs, r, ip, items, room);
      var i: nat :| Opens(docs, r, ip, items, i) && room in Names(items[i].key);
      assert items[i] in items;
    }
  }

  lemma {:induction false} SomeItems(keys: set<string>) returns (items: seq<Item>)
    ensures forall item :: item in items <==> item.key in keys && item.getAnswers && item.delAnswers
    decreases keys
  {
    items := [];
    if keys != {} {
      var first :| first in keys;
      var rest := SomeItems(keys - {first});
      items := [Item(first, true, true)] + rest;
    }
  }

  /** The scan that returns `first` before every live room key is promising. */
  lemma ScanStartingWith(docs: Docs, r: Store, ip: string, first: string) returns (items: seq<Item>)
    requires IsRoomKey(first) && Alive(r, first)
    ensures Promising(docs, r, ip, items) && items != [] && items[0] == Item(first, true, true)
  {
    var keys := set key | key in r.data && IsRoomKey(key) && Alive(r, key);
    var all := SomeItems(keys);
    items := [Item(first, true, true)] + all;
    forall key | IsRoomKey(key) && Alive(r, key)
      ensures Item(key, true, true) in items
    {
      assert key in keys && Item(key, true, true) in all;
    }
  }

  /** With a stray key some promising scan goes wrong: the one that starts with it. */
  lemma StraySpoils(docs: Docs, r: Store, ip: string, stray: string) returns (items: seq<Item>)
    requires Stray(docs, r, ip, stray)
    ensures Promising(docs, r, ip, items) && !Right(docs, r, ip, items)
  {
    items := ScanStartingWith(docs, r, ip, stray);
    var after := Sweep(docs, r, ip, items).0;
    var name := CString(stray);
    SweepIsExact(docs, r, ip, items);
    if RoomOf(docs, r, ip, stray) && !NulFree(stray) {
      if Swept(docs, r, ip, items, stray) {
        SweptNulFree(docs, r, ip, items, stray);
      }
      SweptShown(docs, r, ip, items, stray);
      assert ToGo(docs, r, ip, stray) && Shown(after, stray).Some?;
    } else if IsCommandKey(name) {
      MisreadGoes(docs, r, ip, items, stray);
      SweptShown(docs, r, ip, items, name);
      assert Shown(after, name) == None && Shown(r, name).Some?;
      assert !ToGo(docs, r, ip, name);
    } else {
      CutIsRoomKey(stray);
      assert RoomOf(docs, r, ip, name) && ToGo(docs, r, ip, Companion(name));
      CompanionStays(docs, r, ip, items, stray);
      SweptShown(docs, r, ip, items, Companion(name));
      assert Shown(after, Companion(name)).Some?;
    }
  }

  /** Whose DEL can reach the companion of a room: the room's own, or that of a key cut to the companion. */
  lemma ReachesCompanion(scanned: string, room: string)
    requires Companion(room) in Names(scanned) && !IsCommandKey(scanned)
    ensures scanned == room || (!NulFree(scanned) && CString(scanned) == Companion(room))
  {
    NamesAre(scanned);
    CompanionIsCommandKey(room);
    CompanionIsCommandKey(scanned);
  }

  /** A misread key that comes first takes the room and leaves the companion to nobody. */
  lemma CompanionStays(docs: Docs, r: Store, ip: string, items: seq<Item>, stray: string)
    requires Promising(docs, r, ip, items) && items != [] && items[0] == Item(stray, true, true)
    requires Misread(docs, r, ip, stray) && !IsCommandKey(CString(stray))
    requires !exists other :: Misread(docs, r, ip, other) && CString(other) == Companion(CString(stray))
    ensures !Swept(docs, r, ip, items, Companion(CString(stray)))
  {
    var name := CString(stray);
    CStringFacts(stray);
    CStringFacts(name);
    if i: nat :| Opens(docs, r, ip, items, i) && Companion(name) in Names(items[i].key) {
      assert items[i] in items;
      ReachesCompanion(items[i].key, name);
      if items[i].key == name {
        assert i != 0 && Works(items[0]);
      } else {
        assert Misread(docs, r, ip, items[i].key);
      }
      assert false;
    }
  }

  /**
   Scan-and-delete is exact, whatever order SCAN returns the keys in and however often, if and only if no
   room key with a NUL leads it astray.
   */
  lemma SweepExactIff(docs: Docs, r: Store, ip: string)
    ensures (forall items :: Promising(docs, r, ip, items) ==> Right(docs, r, ip, items))
       <==> !exists stray :: Stray(docs, r, ip, stray)
  {
    if stray :| Stray(docs, r, ip, stray) {
      var items := StraySpoils(docs, r, ip, stray);
    } else {
      forall items | Promising(docs, r, ip, items)
        ensures Right(docs, r, ip, items)
      {
        SweepRemovesTheServersRooms(docs, r, ip, items);
      }
    }
  }

  /** A room of the server is a live room key, no companion, whose text has this very `server_id`. */
  lemma RoomOfMeans(docs: Docs, r: Store, ip: string, key: string)
    ensures RoomOf(docs, r, ip, key) <==>
      && key in r.data && IsRoomKey(key) && !IsCommandKey(key)
      && Get(r, key).Some? && docs.serverId(Get(r, key).value) == Some(ip)
  {
  }

  /**
   In particular it is exact when no room key holds a NUL: every room with this server's id goes with its
   companion, every other entry stays, and the result tells whether there was such a room.
   */
  lemma SweepExactWithoutNul(docs: Docs, r: Store, ip: string, items: seq<Item>, key: string)
    requires forall room :: IsRoomKey(room) && Alive(r, room) ==> NulFree(room)
    requires Promising(docs, r, ip, items)
    ensures Right(docs, r, ip, items)
    ensures var (after, any) := Sweep(docs, r, ip, items);
      var own := set room | room in r.data && IsRoomKey(room) && !IsCommandKey(room)
                            && Get(r, room).Some? && docs.serverId(Get(r, room).value) == Some(ip);
      && Shown(after, key)
         == (if key in own || exists room :: room in own && key == room + ":command" then None else Shown(r, key))
      && (any <==> own != {})
  {
    SweepRemovesTheServersRooms(docs, r, ip, items);
    var own := set room | room in r.data && IsRoomKey(room) && !IsCommandKey(room)
                          && Get(r, room).Some? && docs.serverId(Get(r, room).value) == Some(ip);
    forall room
      ensures room in own <==> RoomOf(docs, r, ip, room)
    {
      RoomOfMeans(docs, r, ip, room);
    }
    GoneInTermsOf(docs, r, ip, own, key);
    assert (exists room :: RoomOf(docs, r, ip, room)) <==> exists room :: room in own;
  }

  lemma GoneInTermsOf(docs: Docs, r: Store, ip: string, own: set<string>, key: string)
    requires forall room :: room in own <==> RoomOf(docs, r, ip, room)
    ensures ToGo(docs, r, ip, key) <==> key in own || exists room :: room in own && key == room + ":command"
  {
    if ToGo(docs, r, ip, key) {
      var room :| RoomOf(docs, r, ip, room) && key in {room, Companion(room)};
      assert room in own && Companion(room) == room + ":command";
    }
    if room :| room in own && key == room + ":command" {
      assert RoomOf(docs, r, ip, room) && key == Companion(room);
    }
  }

  /**
   Whatever is scanned and whatever fails: an entry whose own text does not carry this server's id, and that
   is not the companion of a scanned key whose text does, stays as it is.
   */
  lemma ForeignEntryStays(docs: Docs, r: Store, ip: string, items: seq<Item>, key: string)
    requires Get(r, key).Some? ==> docs.serverId(Get(r, key).value) != Some(ip)
    requires forall item :: item in items && item.key + ":command" == key ==>
      Get(r, item.key).Some? ==> docs.serverId(Get(r, item.key).value) != Some(ip)
    ensures Lookup(Sweep(docs, r, ip, items).0.data, key) == Lookup(r.data, key)
  {
    SweepIsExact(docs, r, ip, items);
    if i: nat :| Opens(docs, r, ip, items, i) && key in Names(items[i].key) {
      var scanned := items[i].key;
      assert items[i] in items;
      NamesAre(scanned);
      CStringFacts(scanned);
      assert false;
    }
  }

  /** Conversely, a room with the server's id that is read and answered is gone. */
  lemma OwnRoomGoes(docs: Docs, r: Store, ip: string, items: seq<Item>, key: string)
    requires !IsCommandKey(key) && NulFree(key) && Item(key, true, true) in items
    requires Get(r, key).Some? && docs.serverId(Get(r, key).value) == Some(ip)
    ensures var (after, any) := Sweep(docs, r, ip, items); key !in after.data && any
  {
    SweepIsExact(docs, r, ip, items);
    CStringFacts(key);
    var n: nat :| n < |items| && items[n] == Item(key, true, true);
    var i := FirstOpens(docs, r, ip, items, n);
    assert key in Names(items[i].key);
    assert Swept(docs, r, ip, items, key);
    assert Lookup(Sweep(docs, r, ip, items).0.data, key) == None;
  }

  lemma SweepSnoc(docs: Docs, r: Store, ip: string, items: seq<Item>, item: Item)
    ensures var before := Sweep(docs, r, ip, items);
      Sweep(docs, r, ip, items + [item])
      == (Visit(docs, before.0, ip, item).0, before.1 || Visit(docs, before.0, ip, item).1)
  {
  }

  /** The keys of one reply, after those in `seen`. */
  method SweepPage(client: RedisClient, docs: Docs, ip: string, items: seq<Item>, anyBefore: bool,
                   ghost start: Store, ghost seen: seq<Item>)
    returns (any: bool)
    requires (client.db, anyBefore) == Sweep(docs, start, ip, seen)
    modifies client`db
    ensures (client.db, any) == Sweep(docs, start, ip, seen + items)
  {
    any := anyBefore;
    assert seen + items[..0] == seen;
    for i := 0 to |items|
      invariant (client.db, any) == Sweep(docs, start, ip, seen + items[..i])
    {
      var key := items[i].key;
      SweepSnoc(docs, start, ip, seen + items[..i], items[i]);
      assert seen + items[..i + 1] == seen + items[..i] + [items[i]];
      if |key| >= 8 && key[|key| - 8..] == ":command" {
        continue;
      }
      if !items[i].getAnswers {
        continue;
      }
      var value := Get(client.db, CString(key));
      if value.Some? && docs.serverId(value.value) == Some(ip) {
        var commandKey := key + ":command";
        if items[i].delAnswers {
          client.db := Del(client.db, {CString(key), CString(commandKey)});
        }
        any := true;
      }
    }
    assert items[..|items|] == items;
  }

  method DeleteRoomsForServer(client: RedisClient, docs: Docs, ip: string, replies: seq<Page<Item>>)
    returns (anyDeleted: bool)
    modifies client`db
    ensures (client.db, anyDeleted)
         == if client.connected then Sweep(docs, old(client.db), ip, Scanned(replies)) else (old(client.db), false)
  {
    anyDeleted := false;
    if !client.connected {
      return;
    }
    var n, more := 0, true;
    ghost var seen: seq<Item> := [];
    while more && n < |replies| && replies[n].Page?
      invariant n <= |replies|
      invariant seen + (if more then ScannedFrom(replies, n) else []) == Scanned(replies)
      invariant (client.db, anyDeleted) == Sweep(docs, old(client.db), ip, seen)
      decreases |replies| - n
    {
      var page := replies[n];
      anyDeleted := SweepPage(client, docs, ip, page.items, anyDeleted, old(client.db), seen);
      Associative(seen, page.items, if page.cursor == 0 then [] else ScannedFrom(replies, n + 1));
      seen := seen + page.items;
      n, more := n + 1, page.cursor != 0;
    }
    assert seen + [] == seen;
  }
}
