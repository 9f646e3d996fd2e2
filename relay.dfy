/**
 * The socket server of backend/index.js as an object: the `rooms` registry,
 * the `currentRoom`/`currentUser` pair each connection's closure holds, the
 * transport rooms of each socket, and the log of everything emitted. Each
 * socket handler is a method that changes these fields step by step, in the
 * order the handler does, and is proved to take the state the transition
 * function of the same name in Presence describes.
 */
module Relay {
  import opened Options
  import opened Registry
  import opened Presence

  class Server {
    var rooms: Rooms
    var sessions: map<ConnId, Session>
    var transport: Transport
    var outbox: seq<Emission>

    function Abs(): State
      reads this
    {
      State(rooms, sessions, transport, outbox)
    }

    predicate Valid()
      reads this
    {
      Presence.Valid(Abs())
    }

    /** A server with no rooms and no connections. */
    constructor ()
      ensures Valid() && Abs() == Initial
    {
      rooms, sessions, transport, outbox := map[], map[], map[], [];
    }

    /** `io.to(r).emit(...)` or `socket.to(r).emit(...)`: delivered to whoever is in the room now. */
    method Send(t: Target, e: Event)
      modifies this
      ensures rooms == old(rooms) && sessions == old(sessions) && transport == old(transport)
      ensures outbox == old(outbox) + [Presence.Emit(transport, t, e)]
    {
      outbox := outbox + [Emission(t, e, Audience(transport, t))];
    }

    /** `io.on("connection")`: a new socket whose session variables are both `null`. */
    method Connect(c: ConnId)
      requires Valid() && c !in sessions
      modifies this
      ensures Valid() && Abs() == ConnectStep(old(Abs()), c)
    {
      sessions := sessions[c := Session(None, None)];
      transport := transport[c := {}];
    }

    /** The registry update and roster emission shared by the three handlers that leave a room. */
    method RemoveFromRoom(r: RoomId, u: UserName)
      modifies this
      ensures Abs() == Vacate(old(Abs()), r, u)
    {
      if r in rooms {
        ghost var before := rooms;
        var roomUsers := Delete(rooms[r], u);
        rooms := rooms[r := roomUsers];
        if |roomUsers| > 0 {
          assert rooms == RemoveMember(before, r, u);
          Send(Room(r), UserJoined(roomUsers));
        } else {
          rooms := rooms - {r};
          assert rooms == before - {r};
        }
      }
    }

    /** The start of the "join" handler: leave the previous room when `currentRoom` is truthy. */
    method LeavePreviousRoom(c: ConnId)
      requires Valid() && c in sessions
      modifies this
      ensures Abs() == LeavePrevious(old(Abs()), c)
    {
      var currentRoom, currentUser := sessions[c].currentRoom, sessions[c].currentUser;
      if Truthy(currentRoom) {
        RemoveFromRoom(currentRoom.value, currentUser.value);
        transport := transport[c := transport[c] - {currentRoom.value}];
      }
    }

    /** The rest of the "join" handler: take the new room and name, and announce the roster. */
    method EnterRoom(c: ConnId, roomId: RoomId, userName: UserName)
      requires c in transport
      modifies this
      ensures Abs() == Enter(old(Abs()), c, roomId, userName)
    {
      var currentRoom, currentUser := Some(roomId), Some(userName);
      sessions := sessions[c := Session(currentRoom, currentUser)];
      transport := transport[c := transport[c] + {roomId}];
      ghost var before := rooms;
      if roomId !in rooms {
        rooms := rooms[roomId := []];
      }
      rooms := rooms[roomId := Add(rooms[roomId], userName)];
      assert rooms == AddMember(before, roomId, userName);
      Send(Room(roomId), UserJoined(rooms[roomId]));
    }

    /** The "join" handler. */
    method Join(c: ConnId, roomId: RoomId, userName: UserName)
      requires Valid() && c in sessions
      modifies this
      ensures Abs() == JoinStep(old(Abs()), c, roomId, userName)
      ensures Valid()
    {
      LeavePreviousRoom(c);
      EnterRoom(c, roomId, userName);
    }

    /** The "codeChange" handler. */
    method CodeChange(c: ConnId, roomId: RoomId, code: string)
      requires Valid()
      modifies this
      ensures Valid() && Abs() == CodeChangeStep(old(Abs()), c, roomId, code)
    {
      RostersAppend(outbox, Presence.Emit(transport, RoomExcept(roomId, c), CodeUpdate(code)));
      Send(RoomExcept(roomId, c), CodeUpdate(code));
    }

    /** The "leaveRoom" handler. */
    method LeaveRoom(c: ConnId)
      requires Valid() && c in sessions
      modifies this
      ensures Valid() && Abs() == LeaveStep(old(Abs()), c)
    {
      var currentRoom, currentUser := sessions[c].currentRoom, sessions[c].currentUser;
      if Truthy(currentRoom) && Truthy(currentUser) {
        RemoveFromRoom(currentRoom.value, currentUser.value);
        transport := transport[c := transport[c] - {currentRoom.value}];
        sessions := sessions[c := Idle];
      }
    }

    /** The "typing" handler. */
    method Typing(c: ConnId, roomId: RoomId, userName: UserName)
      requires Valid()
      modifies this
      ensures Valid() && Abs() == TypingStep(old(Abs()), c, roomId, userName)
    {
      RostersAppend(outbox, Presence.Emit(transport, RoomExcept(roomId, c), UserTyping(userName)));
      Send(RoomExcept(roomId, c), UserTyping(userName));
    }

    /** The "languageChange" handler. */
    method LanguageChange(roomId: RoomId, language: string)
      requires Valid()
      modifies this
      ensures Valid() && Abs() == LanguageChangeStep(old(Abs()), roomId, language)
    {
      RostersAppend(outbox, Presence.Emit(transport, Room(roomId), LanguageUpdate(language)));
      Send(Room(roomId), LanguageUpdate(language));
    }

    /** The "disconnect" handler; the socket has already left every transport room. */
    method Disconnect(c: ConnId)
      requires Valid() && c in sessions
      modifies this
      ensures Valid() && Abs() == DisconnectStep(old(Abs()), c)
    {
      var currentRoom, currentUser := sessions[c].currentRoom, sessions[c].currentUser;
      sessions, transport := sessions - {c}, transport - {c};
      if Truthy(currentRoom) && Truthy(currentUser) {
        RemoveFromRoom(currentRoom.value, currentUser.value);
      }
    }
  }
}
