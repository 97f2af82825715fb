/** The Redis key layout of room data, and what the `:command` convention makes of it. */
module Keys {
  import opened Prelude

  const ROOM_PREFIX: string := "pokemon:room:"
  const COMMAND_SUFFIX: string := ":command"

  function RoomKey(id: string): string { ROOM_PREFIX + id }

  predicate IsRoomKey(key: string) { ROOM_PREFIX <= key }

  /** Keys the scan loops leave out. */
  predicate IsCommandKey(key: string) { EndsWith(key, COMMAND_SUFFIX) }

  function Companion(key: string): string { key + COMMAND_SUFFIX }

  lemma RoomKeyInjective(one: string, other: string)
    ensures RoomKey(one) == RoomKey(other) <==> one == other
  {
    assert RoomKey(one)[|ROOM_PREFIX|..] == one;
    assert RoomKey(other)[|ROOM_PREFIX|..] == other;
  }

  /** The keys that the scan pattern matches are those of rooms, and companion keys are those with the suffix. */
  lemma KeysAre(key: string)
    ensures IsRoomKey(key) <==> exists id :: key == "pokemon:room:" + id
    ensures IsCommandKey(key) <==> exists room :: key == room + ":command"
    ensures Companion(key) == key + ":command" && RoomKey(key) == "pokemon:room:" + key
  {
    if IsRoomKey(key) {
      assert key == "pokemon:room:" + key[13..];
    }
    if IsCommandKey(key) {
      assert key == key[..|key| - 8] + ":command";
    }
    if room :| key == room + ":command" {
      assert key[|key| - 8..] == ":command";
    }
  }

  /** A companion key is never a data key the scans look at, and it determines its room. */
  lemma CompanionIsCommandKey(key: string)
    ensures IsCommandKey(Companion(key)) && Companion(key) != key
    ensures Companion(key)[..|Companion(key)| - |COMMAND_SUFFIX|] == key
  {
  }

  /** The companion of a room is the data key of the room whose id has the suffix. */
  lemma CompanionOfRoom(id: string)
    ensures Companion(RoomKey(id)) == RoomKey(id + COMMAND_SUFFIX)
  {
  }

  /**
   The scans overlook a room's own data exactly when its id is `command` or ends in `:command`: the
   colon that ends the prefix can complete the suffix.
   */
  lemma OverlookedRooms(id: string)
    ensures IsCommandKey(RoomKey(id)) <==> id == "command" || (|id| >= 8 && id[|id| - 8..] == ":command")
  {
    var key := RoomKey(id);
    var tail := key[|key| - 8..];
    if |id| >= 8 {
      assert tail == id[|id| - 8..];
    } else if |id| == 7 {
      assert tail == ":" + id;
      assert COMMAND_SUFFIX == ":" + "command";
      assert tail[1..] == id && COMMAND_SUFFIX[1..] == "command";
    } else {
      assert tail[7 - |id|] == ':' && COMMAND_SUFFIX[7 - |id|] != ':';
    }
  }

  /** SET on the data key of a room, without its expiry. */
  function Set(store: map<string, string>, id: string, value: string): map<string, string> {
    store[RoomKey(id) := value]
  }

  /** DEL of a room's data key and its companion; both names are cut at their first NUL on the way. */
  function Erase(store: map<string, string>, id: string): map<string, string> {
    store - {CString(RoomKey(id)), CString(Companion(RoomKey(id)))}
  }

  /** Erasing the data of room `r` reaches the data key of room `s`. */
  predicate Erases(r: string, s: string) {
    if NulFree(r) then s == r || s == r + COMMAND_SUFFIX else s == CString(r)
  }

  lemma CutRoomKey(id: string)
    ensures CString(RoomKey(id)) == RoomKey(CString(id))
  {
    assert forall i | 0 <= i < 13 :: ROOM_PREFIX[i] != '\0';
    CStringConcat(ROOM_PREFIX, id);
  }

  lemma CutCompanion(key: string)
    ensures CString(Companion(key)) == if NulFree(key) then Companion(key) else CString(key)
  {
    assert forall i | 0 <= i < 8 :: COMMAND_SUFFIX[i] != '\0';
    CStringFacts(COMMAND_SUFFIX);
    CStringConcat(key, COMMAND_SUFFIX);
  }

  /** The names that DEL receives. */
  lemma ErasedKeys(id: string)
    ensures CString(RoomKey(id)) == RoomKey(CString(id))
    ensures CString(Companion(RoomKey(id))) == RoomKey(if NulFree(id) then id + COMMAND_SUFFIX else CString(id))
    ensures NulFree(id) ==>
      CString(RoomKey(id)) == RoomKey(id) && CString(Companion(RoomKey(id))) == Companion(RoomKey(id))
  {
    CutRoomKey(id);
    CutCompanion(RoomKey(id));
    CompanionOfRoom(id);
    CStringFacts(id);
    CStringFacts(RoomKey(id));
    RoomKeyInjective(CString(id), id);
  }

  /** Writing the data of one room never touches another room. */
  lemma SetFrame(store: map<string, string>, r: string, s: string, value: string)
    ensures Lookup(Set(store, r, value), RoomKey(s)) == if r == s then Some(value) else Lookup(store, RoomKey(s))
  {
    RoomKeyInjective(r, s);
  }

  /**
   The reach of an erasure. For an id without NUL it is the room itself and the one whose id adds the suffix;
   for an id with a NUL it is only the room whose id ends before that NUL, and not the room itself.
   */
  lemma EraseFrame(store: map<string, string>, r: string, s: string)
    ensures Lookup(Erase(store, r), RoomKey(s)) == if Erases(r, s) then None else Lookup(store, RoomKey(s))
  {
    ErasedKeys(r);
    CStringFacts(r);
    RoomKeyInjective(CString(r), s);
    RoomKeyInjective(r + COMMAND_SUFFIX, s);
  }

  /** Hence a room's own data goes exactly when its id holds no NUL. */
  lemma OwnDataErased(store: map<string, string>, id: string)
    ensures RoomKey(id) in Erase(store, id) <==> RoomKey(id) in store && !NulFree(id)
  {
    EraseFrame(store, id, id);
    CStringFacts(id);
    assert RoomKey(id) in Erase(store, id) <==> Lookup(Erase(store, id), RoomKey(id)).Some?;
  }

  /** The two ids for which it shows: erasing the second takes the first one's data and leaves its own. */
  lemma NulMisdirectsErase(one: string, other: string)
    ensures Erase(map[RoomKey("a") := one, RoomKey("a\0b") := other], "a\0b") == map[RoomKey("a\0b") := other]
  {
    assert !NulFree("a\0b") by { assert "a\0b"[1] == '\0'; }
    assert CString("a\0b") == "a" by {
      assert "a\0b"[1..][0] == '\0';
      assert CString("a\0b") == ['a'] + CString("a\0b"[1..]);
    }
    ErasedKeys("a\0b");
    RoomKeyInjective("a", "a\0b");
  }
}
