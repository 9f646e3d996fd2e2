# Room and presence relay of the collaborative code editor

This project models the socket server in `backend/index.js` and proves properties about it. Clients join a named room under a display name. They broadcast code edits, typing notices and language changes to the room, and they receive the room's roster each time it changes. Three things make up the model:

- **Room registry** (`registry.dfy`, module `Registry`). The process-wide `rooms` Map goes from a room id to the Set of display names in that room. A JavaScript Set iterates in insertion order, and `Array.from(set)` lists it in that order. So a Set is modelled as a sequence with no duplicates, and the roster payload is that sequence. `Add`'s contract proves that a new name goes at the end. `Delete`'s contract speaks of membership only. `Delete` and `Add` are the Set's `delete` and `add`. `RemoveMember` removes a name and deletes a room once it is empty. `AddMember` creates the room if it is absent, then adds the name.
- **Sessions and routing** (`presence.dfy`, module `Presence`). Each connection's closure variables `currentRoom` and `currentUser` form a `Session` of two `Option<string>` values, with `None` playing `null`. Guards use JavaScript truthiness: `Truthy(x)` means `x.Some? && x.value != ""`. Every `emit` is an `Emission` with three parts:
  - a target: `Room(r)` for `io.to(r)`, or `RoomExcept(r, sender)` for `socket.to(r)`;
  - an event: `userJoined`, `codeUpdate`, `userTyping` or `languageUpdate`, with its payload;
  - its audience: the sockets that are in that transport room at the moment of the emit.

  The transport rooms (`socket.join` / `socket.leave`) are a separate map from each socket to its rooms. A `State` holds the registry, the sessions, the transport rooms and the log of emissions. Each handler is a function from one state to the next. `Step` dispatches one inbound event and `Run` handles a sequence of them. Node runs each handler to completion, so a run of the server is exactly such a sequence. `Valid` is the invariant that every reachable state keeps:
  - no room is empty, and no room lists a name twice;
  - every roster ever sent is non-empty and lists no name twice;
  - each session has both fields set or both null;
  - each socket is in its current room and in no other transport room with a truthy id.
- **The server object** (`relay.dfy`, class `Relay.Server`). It has the fields `rooms`, `sessions`, `transport` and `outbox`. There is one method per socket handler, and each method changes the fields step by step in the handler's order. Each method is proved to reach the state that the matching `Presence` function gives, and to keep `Valid()`.
- `properties.dfy` (module `Properties`) holds the lemmas that relate the handlers, plus a two-user session worked through event by event.

Notes on what the code does:

- **Relays.** `codeChange`, `typing` and `languageChange` go to whatever `roomId` the client sends. They never look at the session and never check membership. Nothing is dropped for a connection that is in no room.
- **Join.** `join` leaves the previous room only when `currentRoom` is truthy. A socket that joined a room named `""` therefore stays in it, both in the registry and in the transport.
- **Leave.** `leaveRoom` and `disconnect` act only when both fields are truthy. After `join(R, "")` the name `""` stays in room R.
- **Rosters.** Rosters come in insertion order, because a JavaScript Set iterates in insertion order.
- **Shared names.** The registry keys members by name. When two sockets share a name in a room, a leave by one removes the name for both (`NameCollision`).

## Model

| member | source | states |
|---|---|---|
| Registry.Delete | backend/index.js:28 | `Set.delete`: what is left is the old members minus the name, still without duplicates; nothing changes when the name is absent |
| Registry.Add | backend/index.js:46 | `Set.add`: the members become the old ones plus the name, without duplicates; the old members keep their order at the front |
| Registry.RemoveMember | backend/index.js:26-33 | the room survives exactly when it existed and still has a member other than the removed name, and then its Set is the old one minus that name; every other entry is unchanged; no room becomes empty |
| Registry.AddMember | backend/index.js:43-46 | afterwards the room exists and holds the name; its members are the old ones (none if the room was new) plus the name; every other entry is unchanged; no room becomes empty |
| Presence.Vacate | backend/index.js:26-33 | removing a name from a room changes only the registry and the outbox; the registry becomes `RemoveMember`'s; every roster sent is still non-empty and lists no name twice |
| Presence.ConnectStep | backend/index.js:17-21 | a new connection starts with both session variables null and in no transport room; the registry, the other sessions and the outbox are unchanged, and the invariant holds |
| Presence.Audience | backend/index.js:72-77 | an emission reaches exactly the open sockets that have joined the target room; for `socket.to` the sender is left out |
| Presence.Emit | backend/index.js:72-77 | an `emit` keeps its target and payload; it reaches only open sockets and never the sender of a `socket.to` |
| Presence.LeavePrevious | backend/index.js:25-36 | the implicit leave at the start of a join changes no session and no set of open sockets |
| Presence.Enter | backend/index.js:38-47 | the second half of "join": the name is added to the room, which is created if absent; the session becomes (roomId, userName); the socket joins the transport room; exactly one emission is appended, the room's roster, which holds the new name and reaches the joining socket |
| Presence.CodeChangeStep | backend/index.js:51-53 | "codeChange" changes only the outbox; it appends one `codeUpdate(code)` addressed to `RoomExcept(roomId, sender)`, which the sender does not receive |
| Presence.TypingStep | backend/index.js:72-74 | "typing" changes only the outbox; it appends one `userTyping(userName)` addressed to `RoomExcept(roomId, sender)`, which the sender does not receive |
| Presence.LanguageChangeStep | backend/index.js:76-78 | "languageChange" changes only the outbox; it appends one `languageUpdate(language)` addressed to the whole room `Room(roomId)` |
| Presence.JoinKeepsValid | backend/index.js:23-47 | a join keeps every part of the invariant: no empty room, paired session fields, a socket in at most one truthy room, well-formed rosters |
| Presence.JoinStep | backend/index.js:23-49 | the "join" handler keeps the invariant |
| Presence.LeaveStep | backend/index.js:55-70 | the "leaveRoom" handler keeps the invariant |
| Presence.DisconnectStep | backend/index.js:80-93 | the "disconnect" handler keeps the invariant, and the connection has no session and no transport rooms afterwards |
| Presence.Step | backend/index.js:17-93 | every inbound event keeps the invariant |
| Presence.Run | backend/index.js:15-94 | after any sequence of events, no room is empty, rosters are well formed and every session is paired and placed |
| Properties.JoinAddsMember | backend/index.js:38-47 | after `join(R, U)`: R exists and holds U; R's members are those left after the implicit leave, plus U; the session is (R, U); exactly one emission was added after the implicit leave's, and it is R's full roster sent to the whole room R, joining socket included; that roster has no duplicates |
| Properties.JoinLeavesPrevious | backend/index.js:25-36 | with a truthy `currentRoom`, the old name leaves the old room first; the old room is deleted exactly when that empties it; otherwise its remaining roster goes to the whole old room, which still holds the joining socket, and the socket then leaves the old transport room |
| Properties.JoinFromNoRoom | backend/index.js:25 | with `currentRoom` null or `""`, the registry change is only the addition of the name to the joined room; the socket only gains the joined transport room; exactly one emission is appended |
| Properties.LeaveGuarded | backend/index.js:55-70 | when both fields are truthy: the name is removed, and the room is deleted if that empties it; otherwise the roster goes to the whole room, leaving socket included; the socket leaves the transport room and the session becomes null/null. When either field is falsy, nothing changes |
| Properties.LeaveIdempotent | backend/index.js:56-68 | a second `leaveRoom` in a row changes nothing: not the registry, not a session, not the outbox |
| Properties.LeaveKeepsEmptyName | backend/index.js:56 | after `join(R, "")`, the name `""` is in room R and `leaveRoom` changes nothing |
| Properties.DisconnectLikeLeave | backend/index.js:80-93 | `disconnect` makes the same registry update as `leaveRoom` and emits the same roster to the same room; the only difference in the audience is the closed socket; the connection's session and transport rooms are gone |
| Properties.InRoomWithout | backend/index.js:89 | closing a socket removes exactly that socket from each room's audience |
| Properties.RoomTeardown | backend/index.js:43-47 | when a truthy name joins an absent truthy room, the room becomes `[name]`; a disconnect or a `leaveRoom` then deletes it |
| Properties.NameCollision | backend/index.js:57-59 | two sockets in R under the same name: when one leaves, the name leaves R while the other's session still says (R, name) |
| Properties.CodeChangeRelays | backend/index.js:51-53 | `codeChange` changes only the outbox; it adds one emission, `codeUpdate(code)` to `RoomExcept(roomId, sender)`, delivered to every socket in roomId except the sender |
| Properties.TypingRelays | backend/index.js:72-74 | `typing` changes only the outbox; it adds one emission, `userTyping(userName)` to `RoomExcept(roomId, sender)`, and the sender is not in its audience |
| Properties.LanguageChangeRelays | backend/index.js:76-78 | `languageChange` changes only the outbox; it adds one emission, `languageUpdate(language)` to `Room(roomId)`, and the sender receives it exactly when its socket is in roomId |
| Properties.StepFrame | backend/index.js:26-28 | no event changes the registry entry of a room other than a truthy old `currentRoom` and the room a join names |
| Properties.BothConnect | backend/index.js:17-21 | two fresh connections give two null/null sessions and no rooms |
| Properties.AliceJoins | backend/index.js:38-47 | alice joining "r1" creates `["alice"]` and sends that roster to alice's socket only |
| Properties.BobJoins | backend/index.js:38-47 | bob joining "r1" makes it `["alice", "bob"]`, and that roster reaches both sockets |
| Properties.AliceSendsCode | backend/index.js:51-53 | alice's `codeChange("print(1)")` reaches bob's socket only |
| Properties.AliceDisconnects | backend/index.js:80-93 | alice's disconnect leaves `["bob"]` and sends that roster to bob's socket only |
| Properties.BobDisconnects | backend/index.js:80-93 | bob's disconnect deletes "r1" and emits nothing; no session is left |
| Relay.Server.constructor | backend/index.js:15 | the server starts with no rooms, no connections and an empty outbox |
| Relay.Server.Send | backend/index.js:47 | an emit appends one emission, addressed to the target and delivered to the socket set the target names now; it changes nothing else |
| Relay.Server.Connect | backend/index.js:17-21 | a new connection: the state becomes `ConnectStep` of the old one, and the invariant holds |
| Relay.Server.RemoveFromRoom | backend/index.js:57-65 | the in-place delete/size-check/delete-or-emit sequence reaches the state `Vacate` describes |
| Relay.Server.LeavePreviousRoom | backend/index.js:25-36 | the start of "join" reaches the state `LeavePrevious` describes |
| Relay.Server.EnterRoom | backend/index.js:38-47 | lines 38-47 of "join" reach the state `Enter` describes |
| Relay.Server.Join | backend/index.js:23-49 | the "join" handler reaches the state `JoinStep` describes and keeps the invariant |
| Relay.Server.CodeChange | backend/index.js:51-53 | the "codeChange" handler reaches the state `CodeChangeStep` describes and keeps the invariant |
| Relay.Server.LeaveRoom | backend/index.js:55-70 | the "leaveRoom" handler reaches the state `LeaveStep` describes and keeps the invariant |
| Relay.Server.Typing | backend/index.js:72-74 | the "typing" handler reaches the state `TypingStep` describes and keeps the invariant |
| Relay.Server.LanguageChange | backend/index.js:76-78 | the "languageChange" handler reaches the state `LanguageChangeStep` describes and keeps the invariant |
| Relay.Server.Disconnect | backend/index.js:80-93 | the "disconnect" handler reaches the state `DisconnectStep` describes and keeps the invariant |

## Left out

- The Express app, the HTTP server, static-file serving and the fallback route (backend/index.js:1-7, 96-103): plumbing with no logic.
- The socket.io `Server` construction and its CORS options (backend/index.js:9-13): a foreign library. Emissions are records in an outbox, each with the audience it reaches when it is emitted. Delivery itself, delivery failure and reconnection are not modelled.
- socket.io puts every socket in a room named by the socket's own id. The model leaves that room out. So when a client sends another socket's id (or its own) as `roomId`, the model's audience is missing that socket; `languageChange` with the sender's own id, for example, reaches the sender in socket.io but nobody in the model. This is accepted because socket ids are random, they never appear in rosters or payloads, and the client is meant to send a room id.
- socket.io empties a socket's rooms before it fires "disconnect". The model takes this as given: `DisconnectStep` removes the socket from the transport before the handler runs.
- `console.log` (backend/index.js:18, 48, 81, 107) and the port taken from `process.env.PORT` (backend/index.js:96, 105): side effects only.
- Concurrency: Node runs one handler at a time, so the model is a sequence of transitions.
- Connection ids are natural numbers rather than socket.io's random strings. `Step` ignores an event on an id that is not open, and a connect on an id that is already open. Neither can happen, because handlers belong to one open socket and ids are fresh.
- Event fields that are missing (`undefined`): room ids and names are strings, and `null` is `None`.
