/**
 * The per-connection sessions and the broadcast routing of backend/index.js,
 * as a state value and one transition function per socket handler.
 *
 * Node runs each handler to completion before the next event is taken, so a
 * run of the server is a sequence of these transitions (Run).
 */
module Presence {
  import opened Options
  import opened Registry

  /** The id the transport gives each socket. */
  type ConnId = nat

  /** The closure variables `currentRoom` and `currentUser` of one connection. */
  datatype Session = Session(currentRoom: Option<RoomId>, currentUser: Option<UserName>)

  const Idle: Session := Session(None, None)

  /** JavaScript truthiness of a string-or-null: both `null` and `""` are falsy. */
  predicate Truthy(x: Option<string>) {
    x.Some? && x.value != ""
  }

  /** `io.to(room)` reaches the whole room; `socket.to(room)` reaches it without the sender. */
  datatype Target = Room(room: RoomId) | RoomExcept(room: RoomId, sender: ConnId)

  datatype Event =
    | UserJoined(roster: seq<UserName>)
    | CodeUpdate(code: string)
    | UserTyping(userName: UserName)
    | LanguageUpdate(language: string)

  /** One `emit` call, with the connections the transport delivers it to at that moment. */
  datatype Emission = Emission(target: Target, event: Event, audience: set<ConnId>)

  /** The transport rooms each open socket is in (`socket.join` / `socket.leave`). */
  type Transport = map<ConnId, set<RoomId>>

  /** The sockets that have joined transport room `r`. */
  function InRoom(transport: Transport, r: RoomId): set<ConnId> {
    set c | c in transport && r in transport[c]
  }

  /** Who receives an emission: the sockets in the target room, without the sender for `socket.to`. */
  function Audience(transport: Transport, t: Target): (a: set<ConnId>)
    ensures forall d :: d in a <==>
      d in transport && t.room in transport[d] && !(t.RoomExcept? && d == t.sender)
  {
    match t
    case Room(r) => InRoom(transport, r)
    case RoomExcept(r, sender) => InRoom(transport, r) - {sender}
  }

  /** One `emit`: it keeps its target and payload and reaches only open sockets, never a `socket.to` sender. */
  function Emit(transport: Transport, t: Target, e: Event): (m: Emission)
    ensures m.target == t && m.event == e
    ensures m.audience <= transport.Keys
    ensures t.RoomExcept? ==> t.sender !in m.audience
  {
    Emission(t, e, Audience(transport, t))
  }

  /** The registry, the open connections' sessions and transport rooms, and every emission so far. */
  datatype State = State(
    rooms: Rooms,
    sessions: map<ConnId, Session>,
    transport: Transport,
    outbox: seq<Emission>)

  const Initial: State := State(map[], map[], map[], [])

  /** Both session variables are set, or both are null. */
  predicate Paired(s: Session) {
    s.currentRoom.Some? <==> s.currentUser.Some?
  }

  /**
   * The socket is in its current room, and in no other room whose id is
   * truthy (a room named "" is never left, because `if (currentRoom)` skips it).
   */
  predicate Placed(s: Session, joined: set<RoomId>) {
    && (s.currentRoom.Some? ==> s.currentRoom.value in joined)
    && forall r :: r in joined && r != "" ==> s.currentRoom == Some(r)
  }

  /** Every roster sent so far lists at least one name, none twice. */
  predicate RostersWellFormed(outbox: seq<Emission>) {
    forall i :: 0 <= i < |outbox| && outbox[i].event.UserJoined? ==>
      outbox[i].event.roster != [] && Distinct(outbox[i].event.roster)
  }

  /** Appending a roster that is non-empty and duplicate-free keeps RostersWellFormed. */
  lemma RostersAppend(outbox: seq<Emission>, e: Emission)
    ensures RostersWellFormed(outbox) && (e.event.UserJoined? ==> e.event.roster != [] && Distinct(e.event.roster))
      ==> RostersWellFormed(outbox + [e])
  {
    if RostersWellFormed(outbox) && (e.event.UserJoined? ==> e.event.roster != [] && Distinct(e.event.roster)) {
      AppendRoster(outbox, e);
    }
  }

  lemma AppendRoster(outbox: seq<Emission>, e: Emission)
    requires RostersWellFormed(outbox)
    requires e.event.UserJoined? ==> e.event.roster != [] && Distinct(e.event.roster)
    ensures RostersWellFormed(outbox + [e])
  {
    forall i | 0 <= i < |outbox + [e]|
      ensures (outbox + [e])[i].event.UserJoined? ==>
        (outbox + [e])[i].event.roster != [] && Distinct((outbox + [e])[i].event.roster)
    {
      if i < |outbox| { assert (outbox + [e])[i] == outbox[i]; }
    }
  }

  predicate Valid(st: State) {
    && WellFormed(st.rooms)
    && RostersWellFormed(st.outbox)
    && st.sessions.Keys == st.transport.Keys
    && forall c :: c in st.sessions && c in st.transport ==>
         Paired(st.sessions[c]) && Placed(st.sessions[c], st.transport[c])
  }

  /**
   * The removal of `u` from room `r` with its roster update: nothing if the
   * room is absent; otherwise delete the name, then delete the room if it is
   * empty, or else send the remaining roster to the whole room.
   */
  function Vacate(st: State, r: RoomId, u: UserName): (st': State)
    ensures st'.sessions == st.sessions && st'.transport == st.transport
    ensures st'.rooms == RemoveMember(st.rooms, r, u)
    ensures WellFormed(st.rooms) && RostersWellFormed(st.outbox) ==> RostersWellFormed(st'.outbox)
  {
    if r !in st.rooms then st
    else
      var rooms := RemoveMember(st.rooms, r, u);
      if r in rooms then
        var e := Emit(st.transport, Room(r), UserJoined(rooms[r]));
        RostersAppend(st.outbox, e);
        st.(rooms := rooms, outbox := st.outbox + [e])
      else
        st.(rooms := rooms)
  }

  /** A new socket: both session variables start as `null`. */
  function ConnectStep(st: State, c: ConnId): (st': State)
    requires Valid(st) && c !in st.sessions
    ensures Valid(st')
    ensures st'.sessions == st.sessions[c := Idle] && st'.transport == st.transport[c := {}]
    ensures st'.rooms == st.rooms && st'.outbox == st.outbox
  {
    State(st.rooms, st.sessions[c := Idle], st.transport[c := {}], st.outbox)
  }

  /**
   * The start of the "join" handler: when `currentRoom` is truthy, the name
   * leaves that room and the socket leaves its transport room. The session
   * variables are overwritten right after, so they are left as they are.
   */
  function LeavePrevious(st: State, c: ConnId): (st': State)
    requires Valid(st) && c in st.sessions
    ensures st'.sessions == st.sessions && st'.transport.Keys == st.transport.Keys
  {
    var s := st.sessions[c];
    if Truthy(s.currentRoom) then
      var v := Vacate(st, s.currentRoom.value, s.currentUser.value);
      v.(transport := v.transport[c := v.transport[c] - {s.currentRoom.value}])
    else st
  }

  /**
   * The rest of the "join" handler: set both session variables, join the
   * transport room, create the room if it is absent, add the name, and send
   * the roster to the whole room, the joining socket included.
   */
  function Enter(st: State, c: ConnId, roomId: RoomId, userName: UserName): (st': State)
    requires c in st.transport
    ensures st'.rooms == AddMember(st.rooms, roomId, userName)
    ensures st'.sessions == st.sessions[c := Session(Some(roomId), Some(userName))]
    ensures st'.transport == st.transport[c := st.transport[c] + {roomId}]
    ensures |st'.outbox| == |st.outbox| + 1 && st'.outbox[..|st.outbox|] == st.outbox
    ensures
      var m := st'.outbox[|st.outbox|];
      && m.target == Room(roomId) && m.event == UserJoined(st'.rooms[roomId])
      && userName in m.event.roster && c in m.audience
  {
    var rooms := AddMember(st.rooms, roomId, userName);
    var transport := st.transport[c := st.transport[c] + {roomId}];
    State(
      rooms,
      st.sessions[c := Session(Some(roomId), Some(userName))],
      transport,
      st.outbox + [Emit(transport, Room(roomId), UserJoined(rooms[roomId]))])
  }

  lemma JoinKeepsValid(st: State, c: ConnId, roomId: RoomId, userName: UserName)
    requires Valid(st) && c in st.sessions
    ensures Valid(Enter(LeavePrevious(st, c), c, roomId, userName))
  {
    var left := LeavePrevious(st, c);
    // after the implicit leave, the socket is in no room with a truthy id
    assert forall r :: r in left.transport[c] ==> r == "";
    assert WellFormed(left.rooms) && RostersWellFormed(left.outbox);
    var rooms := AddMember(left.rooms, roomId, userName);
    var transport := left.transport[c := left.transport[c] + {roomId}];
    var e := Emit(transport, Room(roomId), UserJoined(rooms[roomId]));
    RostersAppend(left.outbox, e);
    var st' := Enter(left, c, roomId, userName);
    assert st' == State(rooms, left.sessions[c := Session(Some(roomId), Some(userName))], transport, left.outbox + [e]);
    forall d | d in st'.sessions && d in st'.transport
      ensures Paired(st'.sessions[d]) && Placed(st'.sessions[d], st'.transport[d])
    {
      if d != c {
        assert st'.sessions[d] == st.sessions[d] && st'.transport[d] == st.transport[d];
      }
    }
    assert WellFormed(st'.rooms);
    assert st'.sessions.Keys == st'.transport.Keys;
  }

  /**
   * The "join" handler: if `currentRoom` is truthy, leave that room first;
   * then enter `roomId` as `userName`.
   */
  function JoinStep(st: State, c: ConnId, roomId: RoomId, userName: UserName): (st': State)
    requires Valid(st) && c in st.sessions
    ensures Valid(st')
  {
    JoinKeepsValid(st, c, roomId, userName);
    Enter(LeavePrevious(st, c), c, roomId, userName)
  }

  /** The "codeChange" handler: relay the code to the named room, without the sender. */
  function CodeChangeStep(st: State, c: ConnId, roomId: RoomId, code: string): (st': State)
    ensures st'.rooms == st.rooms && st'.sessions == st.sessions && st'.transport == st.transport
    ensures |st'.outbox| == |st.outbox| + 1 && st'.outbox[..|st.outbox|] == st.outbox
    ensures st'.outbox[|st.outbox|].target == RoomExcept(roomId, c) && st'.outbox[|st.outbox|].event == CodeUpdate(code)
    ensures c !in st'.outbox[|st.outbox|].audience
  {
    st.(outbox := st.outbox + [Emit(st.transport, RoomExcept(roomId, c), CodeUpdate(code))])
  }

  /**
   * The "leaveRoom" handler: only when both session variables are truthy,
   * leave the room and set both back to `null`.
   */
  function LeaveStep(st: State, c: ConnId): (st': State)
    requires Valid(st) && c in st.sessions
    ensures Valid(st')
  {
    var s := st.sessions[c];
    if Truthy(s.currentRoom) && Truthy(s.currentUser) then
      var v := Vacate(st, s.currentRoom.value, s.currentUser.value);
      v.(transport := v.transport[c := v.transport[c] - {s.currentRoom.value}],
         sessions := v.sessions[c := Idle])
    else st
  }

  /** The "typing" handler: relay the name to the named room, without the sender. */
  function TypingStep(st: State, c: ConnId, roomId: RoomId, userName: UserName): (st': State)
    ensures st'.rooms == st.rooms && st'.sessions == st.sessions && st'.transport == st.transport
    ensures |st'.outbox| == |st.outbox| + 1 && st'.outbox[..|st.outbox|] == st.outbox
    ensures st'.outbox[|st.outbox|].target == RoomExcept(roomId, c) && st'.outbox[|st.outbox|].event == UserTyping(userName)
    ensures c !in st'.outbox[|st.outbox|].audience
  {
    st.(outbox := st.outbox + [Emit(st.transport, RoomExcept(roomId, c), UserTyping(userName))])
  }

  /** The "languageChange" handler: relay the language to the whole named room. */
  function LanguageChangeStep(st: State, roomId: RoomId, language: string): (st': State)
    ensures st'.rooms == st.rooms && st'.sessions == st.sessions && st'.transport == st.transport
    ensures |st'.outbox| == |st.outbox| + 1 && st'.outbox[..|st.outbox|] == st.outbox
    ensures st'.outbox[|st.outbox|].target == Room(roomId) && st'.outbox[|st.outbox|].event == LanguageUpdate(language)
  {
    st.(outbox := st.outbox + [Emit(st.transport, Room(roomId), LanguageUpdate(language))])
  }

  /**
   * The "disconnect" handler. The transport has already taken the socket out
   * of every room and the connection is gone; under the same guard as
   * "leaveRoom", its name leaves its room.
   */
  function DisconnectStep(st: State, c: ConnId): (st': State)
    requires Valid(st) && c in st.sessions
    ensures Valid(st')
    ensures c !in st'.sessions && c !in st'.transport
  {
    var s := st.sessions[c];
    var closed := st.(sessions := st.sessions - {c}, transport := st.transport - {c});
    if Truthy(s.currentRoom) && Truthy(s.currentUser) then
      Vacate(closed, s.currentRoom.value, s.currentUser.value)
    else closed
  }

  /** One inbound event, with the connection it arrives on. */
  datatype Input =
    | Connect(conn: ConnId)
    | Join(conn: ConnId, roomId: RoomId, userName: UserName)
    | CodeChange(conn: ConnId, roomId: RoomId, code: string)
    | LeaveRoom(conn: ConnId)
    | Typing(conn: ConnId, roomId: RoomId, userName: UserName)
    | LanguageChange(conn: ConnId, roomId: RoomId, language: string)
    | Disconnect(conn: ConnId)

  /** The connection ids are the transport's: a socket id is fresh, and a closed socket sends nothing. */
  predicate Accepts(st: State, e: Input) {
    if e.Connect? then e.conn !in st.sessions else e.conn in st.sessions
  }

  function Step(st: State, e: Input): (st': State)
    requires Valid(st)
    ensures Valid(st')
  {
    if !Accepts(st, e) then st
    else
      match e
      case Connect(c) => ConnectStep(st, c)
      case Join(c, r, u) => JoinStep(st, c, r, u)
      case CodeChange(c, r, code) => CodeChangeStep(st, c, r, code)
      case LeaveRoom(c) => LeaveStep(st, c)
      case Typing(c, r, u) => TypingStep(st, c, r, u)
      case LanguageChange(_, r, lang) => LanguageChangeStep(st, r, lang)
      case Disconnect(c) => DisconnectStep(st, c)
  }

  /** The server after handling `es` in order: every reachable state is valid. */
  function Run(st: State, es: seq<Input>): (st': State)
    requires Valid(st)
    ensures Valid(st')
    decreases |es|
  {
    if es == [] then st else Run(Step(st, es[0]), es[1..])
  }
}
