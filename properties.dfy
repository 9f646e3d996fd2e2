/**
 * What the handlers of backend/index.js guarantee, stated about the
 * transition functions of Presence.
 */
module Properties {
  import opened Options
  import opened Registry
  import opened Presence

  /** The socket's current room when its id is truthy (a room named "" is never left), as a set of at most one room id. */
  function CurrentRoom(st: State, c: ConnId): set<RoomId> {
    if c in st.sessions && Truthy(st.sessions[c].currentRoom) then {st.sessions[c].currentRoom.value} else {}
  }

  /** The registry entries an event may touch: the old `currentRoom`, and the room a join names. */
  function Named(st: State, e: Input): set<RoomId> {
    match e
    case Join(c, r, _) => {r} + CurrentRoom(st, c)
    case LeaveRoom(c) => CurrentRoom(st, c)
    case Disconnect(c) => CurrentRoom(st, c)
    case _ => {}
  }

  predicate EntryUnchanged(m: Rooms, m': Rooms, k: RoomId) {
    (k in m <==> k in m') && (k in m ==> m[k] == m'[k])
  }

  // ---------------------------------------------------------------- join

  /**
   * After a join the room exists and holds the name, the session is the new
   * pair, and the last emission is the room's roster, sent to the whole room,
   * the joining socket included; everything before it is what the implicit
   * leave emitted.
   */
  lemma JoinAddsMember(st: State, c: ConnId, roomId: RoomId, userName: UserName)
    requires Valid(st) && c in st.sessions
    ensures
      var st' := JoinStep(st, c, roomId, userName);
      var left := LeavePrevious(st, c);
      && roomId in st'.rooms && userName in st'.rooms[roomId]
      && Elems(st'.rooms[roomId]) == (if roomId in left.rooms then Elems(left.rooms[roomId]) else {}) + {userName}
      && st'.sessions == st.sessions[c := Session(Some(roomId), Some(userName))]
      && |st'.outbox| == |left.outbox| + 1
      && st'.outbox[..|left.outbox|] == left.outbox
      && st'.outbox[|left.outbox|] == Emission(Room(roomId), UserJoined(st'.rooms[roomId]), InRoom(st'.transport, roomId))
      && Distinct(st'.outbox[|left.outbox|].event.roster)
      && c in st'.outbox[|left.outbox|].audience
  {
    var st' := JoinStep(st, c, roomId, userName);
    var left := LeavePrevious(st, c);
    assert st'.outbox == left.outbox + [Emit(st'.transport, Room(roomId), UserJoined(st'.rooms[roomId]))];
  }

  /**
   * A join from a session whose `currentRoom` is truthy first removes the old
   * name from the old room: the room is deleted if that empties it, and
   * otherwise its remaining roster goes to the whole old room, which still
   * includes the joining socket. The socket then leaves the old transport room.
   */
  lemma JoinLeavesPrevious(st: State, c: ConnId, roomId: RoomId, userName: UserName)
    requires Valid(st) && c in st.sessions
    requires Truthy(st.sessions[c].currentRoom)
    ensures
      var r := st.sessions[c].currentRoom.value;
      var u := st.sessions[c].currentUser.value;
      var left := LeavePrevious(st, c);
      var st' := JoinStep(st, c, roomId, userName);
      && left.rooms == RemoveMember(st.rooms, r, u)
      && (r in left.rooms <==> r in st.rooms && Elems(st.rooms[r]) - {u} != {})
      && (r in left.rooms ==> Elems(left.rooms[r]) == Elems(st.rooms[r]) - {u})
      && left.outbox == st.outbox + (if r in left.rooms then [Emission(Room(r), UserJoined(left.rooms[r]), InRoom(st.transport, r))] else [])
      && (r in left.rooms ==> c in InRoom(st.transport, r))
      && (r != roomId ==> EntryUnchanged(left.rooms, st'.rooms, r) && r !in st'.transport[c])
  {
    var r := st.sessions[c].currentRoom.value;
    assert r in st.transport[c];
  }

  /**
   * A join from a session whose `currentRoom` is null or "" leaves nothing:
   * a socket that joined a room named "" stays in it, and so does its name.
   */
  lemma JoinFromNoRoom(st: State, c: ConnId, roomId: RoomId, userName: UserName)
    requires Valid(st) && c in st.sessions
    requires !Truthy(st.sessions[c].currentRoom)
    ensures
      var st' := JoinStep(st, c, roomId, userName);
      && st'.rooms == AddMember(st.rooms, roomId, userName)
      && st'.transport == st.transport[c := st.transport[c] + {roomId}]
      && |st'.outbox| == |st.outbox| + 1 && st'.outbox[..|st.outbox|] == st.outbox
  {
    var st' := JoinStep(st, c, roomId, userName);
    assert st'.outbox[..|st.outbox|] == st.outbox;
  }

  // ---------------------------------------------------------------- leaveRoom

  /**
   * `leaveRoom` acts only when both session variables are truthy: it removes
   * the name (deleting the room if that empties it, or else sending the
   * remaining roster to the whole room, which still includes the leaving
   * socket), leaves the transport room and resets the session. Otherwise
   * nothing changes.
   */
  lemma LeaveGuarded(st: State, c: ConnId)
    requires Valid(st) && c in st.sessions
    ensures
      var s := st.sessions[c];
      var st' := LeaveStep(st, c);
      if Truthy(s.currentRoom) && Truthy(s.currentUser) then
        var r := s.currentRoom.value;
        var u := s.currentUser.value;
        && st'.rooms == RemoveMember(st.rooms, r, u)
        && (r in st'.rooms <==> r in st.rooms && Elems(st.rooms[r]) - {u} != {})
        && st'.sessions == st.sessions[c := Idle]
        && st'.transport == st.transport[c := st.transport[c] - {r}]
        && st'.outbox == st.outbox + (if r in st'.rooms then [Emission(Room(r), UserJoined(st'.rooms[r]), InRoom(st.transport, r))] else [])
        && (r in st'.rooms ==> c in InRoom(st.transport, r))
      else
        st' == st
  {
    var s := st.sessions[c];
    if s.currentRoom.Some? {
      assert s.currentRoom.value in st.transport[c];
    }
  }

  /** A second `leaveRoom` in a row changes nothing. */
  lemma LeaveIdempotent(st: State, c: ConnId)
    requires Valid(st) && c in st.sessions
    ensures LeaveStep(LeaveStep(st, c), c) == LeaveStep(st, c)
  {
    var s := st.sessions[c];
    if Truthy(s.currentRoom) && Truthy(s.currentUser) {
      assert LeaveStep(st, c).sessions[c] == Idle;
    }
  }

  /** After `join(R, "")` the guard of `leaveRoom` fails: "" stays in room R and the session stays in R. */
  lemma LeaveKeepsEmptyName(st: State, c: ConnId, roomId: RoomId)
    requires Valid(st) && c in st.sessions
    ensures
      var st1 := JoinStep(st, c, roomId, "");
      && "" in st1.rooms[roomId]
      && LeaveStep(st1, c) == st1
  {
    JoinAddsMember(st, c, roomId, "");
  }

  // ---------------------------------------------------------------- disconnect

  /**
   * `disconnect` makes the same registry update and emits the same roster to
   * the same room as `leaveRoom`, under the same guard; only the closed socket
   * is no longer there to receive it, and its session is gone.
   */
  lemma DisconnectLikeLeave(st: State, c: ConnId)
    requires Valid(st) && c in st.sessions
    ensures
      var d := DisconnectStep(st, c);
      var l := LeaveStep(st, c);
      && d.rooms == l.rooms
      && d.sessions == st.sessions - {c}
      && d.transport == st.transport - {c}
      && |st.outbox| <= |d.outbox| == |l.outbox| <= |st.outbox| + 1
      && d.outbox[..|st.outbox|] == st.outbox
      && forall i :: |st.outbox| <= i < |d.outbox| ==>
           d.outbox[i] == l.outbox[i].(audience := l.outbox[i].audience - {c})
  {
    var s := st.sessions[c];
    LeaveGuarded(st, c);
    if Truthy(s.currentRoom) && Truthy(s.currentUser) {
      var r := s.currentRoom.value;
      InRoomWithout(st.transport, c, r);
      InRoomWithout(st.transport[c := st.transport[c] - {r}], c, r);
      assert (st.transport[c := st.transport[c] - {r}]) - {c} == st.transport - {c};
    }
  }

  /** Closing a socket takes exactly that socket out of every audience. */
  lemma InRoomWithout(transport: Transport, c: ConnId, r: RoomId)
    ensures InRoom(transport - {c}, r) == InRoom(transport, r) - {c}
  {
  }

  /** A disconnect of the only member of R, named by truthy strings, deletes R. */
  lemma RoomTeardown(st: State, c: ConnId, roomId: RoomId, userName: UserName)
    requires Valid(st) && c in st.sessions && roomId !in st.rooms
    requires roomId != "" && userName != ""
    ensures
      var st1 := JoinStep(st, c, roomId, userName);
      && st1.rooms[roomId] == [userName]
      && roomId !in DisconnectStep(st1, c).rooms
      && roomId !in LeaveStep(st1, c).rooms
  {
    var st1 := JoinStep(st, c, roomId, userName);
    assert roomId !in LeavePrevious(st, c).rooms;
    assert Delete([userName], userName) == [];
  }

  /**
   * Names are keyed by string: when two sockets are in R under the same name,
   * a leave by one removes the name although the other's session still says
   * it is in R under that name.
   */
  lemma NameCollision(st: State, c1: ConnId, c2: ConnId, roomId: RoomId, userName: UserName)
    requires Valid(st) && c1 in st.sessions && c2 in st.sessions && c1 != c2
    requires roomId != "" && userName != ""
    requires st.sessions[c1] == Session(Some(roomId), Some(userName))
    requires st.sessions[c2] == Session(Some(roomId), Some(userName))
    ensures
      var st' := LeaveStep(st, c1);
      && (roomId in st'.rooms ==> userName !in st'.rooms[roomId])
      && st'.sessions[c2] == Session(Some(roomId), Some(userName))
  {
    LeaveGuarded(st, c1);
  }

  // ---------------------------------------------------------------- relays

  /**
   * `codeChange` sends the code to the sockets in the room it names, the
   * sender excepted, whether or not the sender is in that room; nothing else
   * changes.
   */
  lemma CodeChangeRelays(st: State, c: ConnId, roomId: RoomId, code: string)
    ensures
      var st' := CodeChangeStep(st, c, roomId, code);
      && st'.rooms == st.rooms && st'.sessions == st.sessions && st'.transport == st.transport
      && st'.outbox == st.outbox + [Emission(RoomExcept(roomId, c), CodeUpdate(code), InRoom(st.transport, roomId) - {c})]
      && c !in st'.outbox[|st.outbox|].audience
  {
  }

  /** `typing` sends the name to the sockets in the room it names, the sender excepted. */
  lemma TypingRelays(st: State, c: ConnId, roomId: RoomId, userName: UserName)
    ensures
      var st' := TypingStep(st, c, roomId, userName);
      && st'.rooms == st.rooms && st'.sessions == st.sessions && st'.transport == st.transport
      && st'.outbox == st.outbox + [Emission(RoomExcept(roomId, c), UserTyping(userName), InRoom(st.transport, roomId) - {c})]
      && c !in st'.outbox[|st.outbox|].audience
  {
  }

  /** `languageChange` sends the language to every socket in the room it names, the sender too if it is there. */
  lemma LanguageChangeRelays(st: State, c: ConnId, roomId: RoomId, language: string)
    requires c in st.transport
    ensures
      var st' := LanguageChangeStep(st, roomId, language);
      && st'.rooms == st.rooms && st'.sessions == st.sessions && st'.transport == st.transport
      && st'.outbox == st.outbox + [Emission(Room(roomId), LanguageUpdate(language), InRoom(st.transport, roomId))]
      && (c in st'.outbox[|st.outbox|].audience <==> roomId in st.transport[c])
  {
  }

  // ---------------------------------------------------------------- every handler

  /** No handler changes the registry entry of a room other than the old `currentRoom` and the room a join names. */
  lemma StepFrame(st: State, e: Input, k: RoomId)
    requires Valid(st) && k !in Named(st, e)
    ensures EntryUnchanged(st.rooms, Step(st, e).rooms, k)
  {
    if Accepts(st, e) {
      match e
      case Join(c, r, u) =>
        var left := LeavePrevious(st, c);
        assert EntryUnchanged(st.rooms, left.rooms, k);
        assert Step(st, e).rooms == AddMember(left.rooms, r, u);
      case LeaveRoom(c) =>
        assert EntryUnchanged(st.rooms, LeaveStep(st, c).rooms, k);
      case Disconnect(c) =>
        assert EntryUnchanged(st.rooms, DisconnectStep(st, c).rooms, k);
      case _ =>
    }
  }

  // ---------------------------------------------------------------- a session

  // Two sockets, 0 and 1: alice and bob join "r1", alice sends code, then
  // both disconnect. SceneN is the server after the first N events.

  const AliceJoined := Emission(Room("r1"), UserJoined(["alice"]), {0})
  const BobJoined := Emission(Room("r1"), UserJoined(["alice", "bob"]), {0, 1})
  const AliceCode := Emission(RoomExcept("r1", 0), CodeUpdate("print(1)"), {1})
  const AliceLeft := Emission(Room("r1"), UserJoined(["bob"]), {1})

  const Scene2 := State(map[], map[0 := Idle, 1 := Idle], map[0 := {}, 1 := {}], [])
  const Scene3 := State(
    map["r1" := ["alice"]],
    map[0 := Session(Some("r1"), Some("alice")), 1 := Idle],
    map[0 := {"r1"}, 1 := {}],
    [AliceJoined])
  const Scene4 := State(
    map["r1" := ["alice", "bob"]],
    map[0 := Session(Some("r1"), Some("alice")), 1 := Session(Some("r1"), Some("bob"))],
    map[0 := {"r1"}, 1 := {"r1"}],
    [AliceJoined, BobJoined])
  const Scene5 := Scene4.(outbox := [AliceJoined, BobJoined, AliceCode])
  const Scene6 := State(
    map["r1" := ["bob"]],
    map[1 := Session(Some("r1"), Some("bob"))],
    map[1 := {"r1"}],
    [AliceJoined, BobJoined, AliceCode, AliceLeft])
  const Scene7 := State(map[], map[], map[], [AliceJoined, BobJoined, AliceCode, AliceLeft])

  lemma Scene2Valid() ensures Valid(Scene2) { }

  lemma Scene3Valid()
    ensures Valid(Scene3)
  {
    assert Distinct(["alice"]);
    assert RostersWellFormed(Scene3.outbox);
  }

  lemma Scene5Valid()
    ensures Valid(Scene5)
  {
    assert Distinct(["alice", "bob"]);
    assert RostersWellFormed(Scene5.outbox);
  }

  lemma Scene6Valid()
    ensures Valid(Scene6)
  {
    assert Distinct(["bob"]);
    assert RostersWellFormed(Scene6.outbox);
  }

  lemma BothConnect()
    ensures ConnectStep(Initial, 0).sessions == map[0 := Idle]
    ensures ConnectStep(ConnectStep(Initial, 0), 1) == Scene2
  {
  }

  /** alice's roster reaches alice. */
  lemma AliceJoins()
    ensures Valid(Scene2) && JoinStep(Scene2, 0, "r1", "alice") == Scene3
  {
    Scene2Valid();
    assert LeavePrevious(Scene2, 0) == Scene2;
    AliceEnters();
  }

  lemma AliceEnters()
    ensures Enter(Scene2, 0, "r1", "alice") == Scene3
  {
    assert Scene2.transport[0] + {"r1"} == {"r1"};
    var transport := map[0 := {"r1"}, 1 := {}];
    assert Scene2.transport[0 := {"r1"}] == transport;
    assert InRoom(transport, "r1") == {0};
  }

  /** The roster ["alice", "bob"] reaches both sockets. */
  lemma BobJoins()
    ensures Valid(Scene3) && JoinStep(Scene3, 1, "r1", "bob") == Scene4
  {
    Scene3Valid();
    assert LeavePrevious(Scene3, 1) == Scene3;
    BobEnters();
  }

  lemma BobEnters()
    ensures Enter(Scene3, 1, "r1", "bob") == Scene4
  {
    assert Add(["alice"], "bob") == ["alice", "bob"];
    assert Scene3.transport[1] + {"r1"} == {"r1"};
    var transport := map[0 := {"r1"}, 1 := {"r1"}];
    assert Scene3.transport[1 := {"r1"}] == transport;
    assert InRoom(transport, "r1") == {0, 1};
  }

  /** alice's code reaches bob only. */
  lemma AliceSendsCode()
    ensures CodeChangeStep(Scene4, 0, "r1", "print(1)") == Scene5
  {
    assert InRoom(Scene4.transport, "r1") - {0} == {1};
  }

  /** alice's departure sends bob the roster ["bob"]. */
  lemma AliceDisconnects()
    ensures Valid(Scene5) && DisconnectStep(Scene5, 0) == Scene6
  {
    Scene5Valid();
    var closed := Scene5.(sessions := map[1 := Session(Some("r1"), Some("bob"))], transport := map[1 := {"r1"}]);
    assert Scene5.sessions - {0} == closed.sessions;
    assert Scene5.transport - {0} == closed.transport;
    assert Scene5.sessions[0] == Session(Some("r1"), Some("alice"));
    assert DisconnectStep(Scene5, 0) == Vacate(closed, "r1", "alice");
    AliceLeaves(closed);
  }

  lemma AliceLeaves(closed: State)
    requires closed == Scene5.(sessions := map[1 := Session(Some("r1"), Some("bob"))], transport := map[1 := {"r1"}])
    ensures Vacate(closed, "r1", "alice") == Scene6
  {
    assert Delete(["alice", "bob"], "alice") == ["bob"];
    assert RemoveMember(closed.rooms, "r1", "alice") == map["r1" := ["bob"]];
    assert InRoom(closed.transport, "r1") == {1};
  }

  /** bob's departure deletes the room and emits nothing. */
  lemma BobDisconnects()
    ensures Valid(Scene6) && DisconnectStep(Scene6, 1) == Scene7
  {
    Scene6Valid();
    var closed := Scene6.(sessions := Scene6.sessions - {1}, transport := Scene6.transport - {1});
    assert DisconnectStep(Scene6, 1) == Vacate(closed, "r1", "bob");
    assert Delete(["bob"], "bob") == [];
    assert closed.transport == map[];
    assert closed.sessions == map[];
  }
}
