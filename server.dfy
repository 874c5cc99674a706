/**
 * The socket.io connection handler: the per-connection session and the
 * room directory, with one method per event the server listens to. Each
 * method returns what the handler emits, in emission order, and a result
 * saying whether the request succeeded.
 */
module Server {
  import opened Wrappers
  import opened Strings
  import opened Sequences
  import opened OrderedMaps
  import opened Rooms
  import opened Protocol
  import opened Transitions

  /** The state the server keeps on one connection's `socket` object. */
  class Session {
    /** `socket.roomId` and `socket.nickname`, assigned together by a successful join. */
    var binding: Option<Binding>
    /**
     * The study rooms whose socket.io channel the connection has entered with
     * `socket.join`; the channel socket.io names after the socket's own id is
     * not among them.
     */
    var channels: set<RoomId>

    /** A new connection: not bound to any room. */
    constructor ()
      ensures binding == None && channels == {}
    {
      binding := None;
      channels := {};
    }
  }

  /** The server's room directory, `rooms`, and the handlers that read and change it. */
  class Directory {
    var rooms: RoomTable

    ghost predicate Valid()
      reads this
    {
      rooms.Valid() && WellFormed(rooms)
    }

    /** `const rooms = new Map()`. */
    constructor ()
      ensures Valid() && rooms == OrderedMap<RoomId, Room>.Empty()
    {
      rooms := OrderedMap<RoomId, Room>.Empty();
    }

    /** `getRooms`: sends the requester the summary of every room. */
    method GetRooms() returns (out: seq<Event>)
      requires Valid()
      ensures out == [Emit(ToSender, RoomsList(Listing(rooms)))]
    {
      out := [Emit(ToSender, RoomsList(Listing(rooms)))];
    }

    /** `searchRooms`: sends the requester the summaries of the rooms matching `term`. */
    method SearchRooms(term: string) returns (out: seq<Event>)
      requires Valid()
      ensures out == [Emit(ToSender, RoomsList(Search(rooms, term)))]
    {
      var matching := Filter(rooms.Values(), term);
      out := [Emit(ToSender, RoomsList(Summaries(matching)))];
    }

    /**
     * `createRoom`: without a usable name, replies `createRoomError` and
     * changes nothing; otherwise stores the new room under `id`, broadcasts
     * the listing and replies `roomCreated`. `id` and `createdAt` stand for
     * the generated id and the current time.
     */
    method CreateRoom(name: Option<string>, description: Option<string>, id: RoomId, createdAt: string)
      returns (result: Result<Room, CreateError>, out: seq<Event>)
      requires Valid()
      modifies this
      ensures Valid()
      ensures CreateRejected(name) ==>
        && result == Failure(EmptyName)
        && rooms == old(rooms)
        && out == [Emit(ToSender, CreateRoomError(EmptyNameText))]
      ensures !CreateRejected(name) ==>
        && result == Success(NewRoom(id, name.value, description, createdAt))
        && rooms == old(rooms).Set(id, result.value)
        && (id !in old(rooms).table ==> rooms.keys == old(rooms).keys + [id])
        && out == [Emit(ToEveryone, RoomsList(Listing(rooms))), Emit(ToSender, RoomCreated(result.value))]
    {
      if Falsy(name) || Trim(name.value) == "" {
        result := Failure(EmptyName);
        out := [Emit(ToSender, CreateRoomError(EmptyNameText))];
        return;
      }
      var text := if Falsy(description) then "" else Trim(description.value);
      var room := Room(id, Trim(name.value), text, createdAt, []);
      CreateKeepsWellFormed(rooms, id, name.value, description, createdAt);
      rooms := rooms.Set(id, room);
      out := [Emit(ToEveryone, RoomsList(Listing(rooms))), Emit(ToSender, RoomCreated(room))];
      result := Success(room);
    }

    /**
     * `joinRoom`: checks, in this order, that both fields are given, that the
     * room exists and that the nickname is not taken in it, replying
     * `joinRoomError` and changing nothing on the first failure. Otherwise
     * subscribes the connection to the room, appends the nickname, binds the
     * session (whatever it was bound to before), and emits `roomJoined`,
     * `memberJoined`, `membersUpdate` and the listing.
     */
    method JoinRoom(s: Session, roomId: Option<string>, nickname: Option<string>)
      returns (result: Result<Room, JoinError>, out: seq<Event>)
      requires Valid()
      modifies this, s
      ensures Valid()
      ensures result.Failure? ==>
        && rooms == old(rooms)
        && s.binding == old(s.binding) && s.channels == old(s.channels)
        && out == [Emit(ToSender, JoinRoomError(JoinErrorText(result.error)))]
      ensures Falsy(roomId) || Falsy(nickname) ==> result == Failure(MissingFields)
      ensures !Falsy(roomId) && !Falsy(nickname) ==>
        var rid, nick := roomId.value, nickname.value;
        && (rid !in old(rooms).table ==> result == Failure(RoomNotFound))
        && (rid in old(rooms).table && nick in old(rooms).table[rid].members ==>
              result == Failure(NicknameTaken))
        && (rid in old(rooms).table && nick !in old(rooms).table[rid].members ==>
              && rooms == Joined(old(rooms), rid, nick)
              && result == Success(rooms.table[rid])
              && s.binding == Some(Binding(rid, nick))
              && s.channels == old(s.channels) + {rid}
              && out == [ Emit(ToSender, RoomJoined(Info(rooms.table[rid]), rooms.table[rid].members)),
                          Emit(ToRoom(rid), MemberJoined(nick)),
                          Emit(ToRoom(rid), MembersUpdate(rooms.table[rid].members)),
                          Emit(ToEveryone, RoomsList(Listing(rooms))) ])
    {
      if Falsy(roomId) || Falsy(nickname) {
        result := Failure(MissingFields);
        out := [Emit(ToSender, JoinRoomError(JoinErrorText(MissingFields)))];
        return;
      }
      var rid, nick := roomId.value, nickname.value;
      var found := rooms.Get(rid);
      if found.None? {
        result := Failure(RoomNotFound);
        out := [Emit(ToSender, JoinRoomError(JoinErrorText(RoomNotFound)))];
        return;
      }
      var room := found.value;
      if nick in room.members {
        result := Failure(NicknameTaken);
        out := [Emit(ToSender, JoinRoomError(JoinErrorText(NicknameTaken)))];
        return;
      }
      s.channels := s.channels + {rid};
      JoinKeepsWellFormed(rooms, rid, nick);
      room := room.(members := room.members + [nick]);
      rooms := rooms.Set(rid, room);
      s.binding := Some(Binding(rid, nick));
      out := [ Emit(ToSender, RoomJoined(Info(room), room.members)),
               Emit(ToRoom(rid), MemberJoined(nick)),
               Emit(ToRoom(rid), MembersUpdate(room.members)),
               Emit(ToEveryone, RoomsList(Listing(rooms))) ];
      result := Success(room);
    }

    /**
     * `leaveRoom`: removes the session's nickname from its room, deleting the
     * room once empty, and emits the departure events. The session keeps its
     * binding and its socket.io room.
     */
    method LeaveRoom(s: Session) returns (out: seq<Event>)
      requires Valid()
      modifies this
      ensures Valid()
      ensures unchanged(s)
      ensures rooms == Departed(old(rooms), s.binding)
      ensures out == DepartureEvents(old(rooms), s.binding)
    {
      out := [];
      DepartureKeepsWellFormed(rooms, s.binding);
      if s.binding.Some? && s.binding.value.roomId != "" && s.binding.value.nickname != "" {
        var rid, nick := s.binding.value.roomId, s.binding.value.nickname;
        var found := rooms.Get(rid);
        if found.Some? {
          var room := found.value;
          var index := IndexOf(room.members, nick);
          if index > -1 {
            var members := RemoveAt(room.members, index);
            ghost var before := rooms;
            rooms := rooms.Set(rid, room.(members := members));
            out := [ Emit(ToRoom(rid), MemberLeft(nick)),
                     Emit(ToRoom(rid), MembersUpdate(members)),
                     Emit(ToEveryone, RoomsList(Listing(rooms))) ];
            if |members| == 0 {
              SetThenDelete(before, rid, room.(members := members));
              rooms := rooms.Delete(rid);
              out := out + [Emit(ToEveryone, RoomsList(Listing(rooms)))];
            }
          }
        }
      }
    }

    /**
     * `disconnect`: the same cleanup as `leaveRoom`, written out again in
     * the handler; the session is left as it was.
     */
    method Disconnect(s: Session) returns (out: seq<Event>)
      requires Valid()
      modifies this
      ensures Valid()
      ensures unchanged(s)
      ensures rooms == Departed(old(rooms), s.binding)
      ensures out == DepartureEvents(old(rooms), s.binding)
    {
      out := [];
      DepartureKeepsWellFormed(rooms, s.binding);
      if s.binding.Some? && s.binding.value.roomId != "" && s.binding.value.nickname != "" {
        var rid, nick := s.binding.value.roomId, s.binding.value.nickname;
        var found := rooms.Get(rid);
        if found.Some? {
          var room := found.value;
          var index := IndexOf(room.members, nick);
          if index > -1 {
            var members := RemoveAt(room.members, index);
            ghost var before := rooms;
            rooms := rooms.Set(rid, room.(members := members));
            out := [ Emit(ToRoom(rid), MemberLeft(nick)),
                     Emit(ToRoom(rid), MembersUpdate(members)),
                     Emit(ToEveryone, RoomsList(Listing(rooms))) ];
            if |members| == 0 {
              SetThenDelete(before, rid, room.(members := members));
              rooms := rooms.Delete(rid);
              out := out + [Emit(ToEveryone, RoomsList(Listing(rooms)))];
            }
          }
        }
      }
    }
  }
}
