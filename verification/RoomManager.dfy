/**
 The room manager object, method by method as the source runs them while it holds its lock, each
 proved against the atomic operation of module Rooms.
 */
module RoomManagers {
  import opened Prelude
  import opened Rooms
  import RoomIds

  class RoomManager {
    var rooms: map<string, Room>
    var roomCount: int
    var maintaining: bool
    const maxRooms: int

    function Contents(): Table
      reads this
    {
      Table(rooms, maintaining, maxRooms)
    }

    constructor (maxRooms: int)
      ensures Contents() == Table(map[], false, maxRooms) && roomCount == 0
    {
      this.maxRooms := maxRooms;
      rooms, roomCount, maintaining := map[], 0, false;
    }

    method CreateRoom(name: string, maxPlayers: int, draws: seq<RoomIds.Nibble>, now: int) returns (created: string)
      requires |draws| == 32
      modifies this
      ensures (Contents(), if created == "" then Refused else Created(created))
           == Apply(old(Contents()), Generate(RoomIds.Layout(draws), name, maxPlayers, now))
      ensures roomCount == if created == "" then old(roomCount) else old(roomCount) + 1
    {
      RoomIds.LayoutShape(draws, 0);
      if maintaining {
        return "";
      }
      if |rooms| >= Limit(maxRooms) {
        return "";
      }
      created := RoomIds.GenerateRoomId(draws);
      rooms := rooms[created := Room(created, name, 0, maxPlayers, true, now, 0)];
      roomCount := roomCount + 1;
    }

    /** A refusal is reported as the empty string, which the caller cannot tell from an empty id. */
    method CreateRoomWithId(id: string, name: string, maxPlayers: int, now: int) returns (created: string)
      modifies this
      ensures Contents() == Apply(old(Contents()), CreateWithId(id, name, maxPlayers, now)).0
      ensures var result := Apply(old(Contents()), CreateWithId(id, name, maxPlayers, now)).1;
        && created == (if result.Created? then id else "")
        && roomCount == CountAfter(old(roomCount), result)
    {
      if maintaining {
        return "";
      }
      if |rooms| >= Limit(maxRooms) {
        return "";
      }
      if id in rooms {
        return "";
      }
      rooms := rooms[id := Room(id, name, 0, maxPlayers, true, now, 0)];
      roomCount := roomCount + 1;
      return id;
    }

    method GetRoomStatus(id: string) returns (room: Option<Room>)
      ensures room == Lookup(rooms, id)
      ensures Apply(Contents(), GetStatus(id)).1 == if room.Some? then Found(room.value) else Missing
    {
      if id !in rooms {
        return None;
      }
      return Some(rooms[id]);
    }

    method CloseRoom(id: string) returns (closed: bool)
      modifies this
      ensures (Contents(), if closed then Closed else Missing) == Apply(old(Contents()), Close(id))
      ensures roomCount == if closed then old(roomCount) - 1 else old(roomCount)
    {
      if id !in rooms {
        return false;
      }
      rooms := rooms - {id};
      roomCount := roomCount - 1;
      return true;
    }

    method GetAllRooms() returns (all: map<string, Room>)
      ensures Listed(all) == Apply(Contents(), ListAll).1
    {
      return rooms;
    }

    method CanCreateRoom() returns (can: bool)
      ensures Answer(can) == Apply(Contents(), CanCreate).1
    {
      return !maintaining && |rooms| < Limit(maxRooms);
    }

    /** Shutdown is the only caller, and raises the flag. */
    method SetMaintenanceMode(isMaintaining: bool)
      modifies this`maintaining
      ensures maintaining == isMaintaining
      ensures isMaintaining ==> Contents() == Apply(old(Contents()), Maintain).0
    {
      maintaining := isMaintaining;
    }

    /** The loop updates one stored room at a time; together the updates are one pointwise tick. */
    method UpdateRoomActivity()
      modifies this
      ensures Contents() == Apply(old(Contents()), Tick).0 && roomCount == old(roomCount)
    {
      var todo := rooms.Keys;
      while todo != {}
        invariant maintaining == old(maintaining) && roomCount == old(roomCount)
        invariant todo <= rooms.Keys == old(rooms).Keys
        invariant forall id :: id in rooms ==>
          rooms[id] == if id in todo then old(rooms)[id] else Aged(old(rooms)[id])
        decreases todo
      {
        var id :| id in todo;
        var room := rooms[id];
        ghost var before := room;
        room := room.(counter := room.counter + 1);
        if room.counter % 3 == 0 && room.playerCount < room.maxPlayers {
          room := room.(playerCount := room.playerCount + 1);
        } else if room.counter % 5 == 0 && room.playerCount > 0 {
          room := room.(playerCount := room.playerCount - 1);
        }
        assert room == Aged(before);
        rooms := rooms[id := room];
        todo := todo - {id};
      }
      assert rooms == AgeAll(old(rooms));
    }
  }
}
