# Signaling server: room registry and message routing

A model of the WebRTC signaling server in `server.cjs`. Peers open a
WebSocket, join a named room, learn who is already there, and exchange
offers, answers and ICE candidates with one another through the server,
which forwards them without reading them.

The model has two layers.

- **Functions of the state** (modules `RoomMaps`, `Routing`, `Handlers`).
  A room is a JavaScript `Map` from user id to socket, kept with its
  insertion order (`RoomMaps.Room`), because that order is what
  `existing-users` lists and what `forEach` walks. The registry `rooms` maps
  room ids to rooms. For each handler a function gives the registry after
  it (`JoinRooms`, `CleanupRooms`) and the `send` calls it makes, in order
  (`JoinSends`, `RelaySends`, `CleanupSends`). `Handlers.HandleMessage` and
  `Handlers.HandleClose` give one connection's handlers as single steps.
  `Handlers.Run` is the event loop over many connections, one handler run
  to completion at a time.
- **Imperative code** (module `SignalingServer`). The module-level `rooms`
  map, the sockets' open states and the log of sends form the class
  `Registry`. The closure made per connection (its `userId`, `roomId`, its
  `message` and `close` handlers and `cleanup()`) is the class
  `Connection`. Its methods update the registry in place. Each `forEach`
  is the loop of `Registry.Broadcast`. Every method is proved to do what the
  functions above say, and to keep the registry free of empty rooms.

Ids are JavaScript values (`JsValues.Value`): a missing field is
`Undefined`, and the binding starts out as `Null`. Nothing checks the fields
of a join, so `undefined` can become a user id or a room id. The guard of
`cleanup()` uses JavaScript truthiness (`JsValues.Truthy`).

Sockets are natural numbers (`ConnId`). `Registry.open` stands for
`readyState === OPEN`, and only the transport changes it. `Registry.outbox`
records every `send` call in order. The model does not say whether a message
then reaches the peer.

Behaviour of the code that the model keeps:

- A relay does not look at the sender's binding. It looks up `to` only in
  the room named by the envelope (`Routing.RelayScoped`). A connection need
  not join before it relays.
- A connection may join again without leaving. Its key stays in the old
  room (`Routing.JoinRooms`: every other room is unchanged).
- Cleanup does not reset the binding, and the connection has no terminal
  state: messages after `leave-room` are handled like any others
  (server.cjs:14-64 checks nothing before the `switch`).
- A `leave-room` followed by `close` runs cleanup twice. The second run
  leaves the registry as the first left it, but sends the first run's
  user-left messages again, except those to the closing socket, which is no
  longer open (`Handlers.LeaveThenClose`).
- Cleanup broadcasts user-left whenever the binding is truthy and the room
  exists, even if the key was already gone (`Routing.CleanupNotifies`).
- A second socket that joins a room under a user id already present takes
  that key over. A later cleanup by the first socket then deletes the key,
  although the second socket now owns it (`Handlers.DuplicateUserId`).
- The joiner gets a user-joined about itself when its socket is already
  mapped in that room, for example after joining the same room twice
  (`Routing.JoinBroadcast`).

## Model

| member | source | states |
|---|---|---|
| `RoomMaps.Without` | server.cjs:74 | deleting a key from a room keeps every other key, and no key appears twice afterwards |
| `RoomMaps.Put` | server.cjs:40 | `room.set`: the key now maps to the socket; an overwritten key keeps its place in the iteration order, a new key goes last; the room stays well formed |
| `RoomMaps.Delete` | server.cjs:74 | `room.delete`: the key is gone, every other member is kept, deleting an absent key changes nothing |
| `RoomMaps.WithoutAt` | server.cjs:74 | removing a key found at position p of an iteration order without repeats gives the keys before p followed by the keys after p |
| `RoomMaps.DeleteKeepsOrder` | server.cjs:74 | `room.delete(k)` cuts exactly the position of `k` out of the iteration order; the other keys keep their order |
| `RoomMaps.Size` | server.cjs:83 | `room.size` is the number of members, and is 0 exactly when the room has none |
| `RoomMaps.DistinctCard` | server.cjs:83 | an iteration order without repeats is as long as the set of keys it lists |
| `JsValues.Truthy` | server.cjs:71 | a value is falsy exactly when it is `undefined`, `null`, `false`, `0` or the empty string |
| `Routing.RoomOrEmpty` | server.cjs:23-24 | the room read after the lazy create is well formed, holds exactly the members of that room id, and is empty with no order when the id was absent |
| `Routing.NotifyKeys` | server.cjs:33-37 | a `forEach` over some keys sends at most one message per key, each one the given message and each to an open socket |
| `Routing.Notify` | server.cjs:77-81 | a broadcast to a room sends at most one message per member, each one the given message and each to an open socket |
| `Routing.NotifyKeysMembers` | server.cjs:33-37 | a `forEach` send goes to a socket exactly when some visited key maps to that socket and it is open |
| `Routing.NotifyKeysCount` | server.cjs:77-81 | a `forEach` makes one send per visited key whose socket is open |
| `Routing.NotifySpec` | server.cjs:33-37 | a broadcast reaches every open socket of the room and no other, one send per member with an open socket |
| `Routing.JoinRooms` | server.cjs:23-40 | after a join, `rooms[roomId][from]` is the joiner's socket and the room's other members are unchanged; an existing room is reused, with its old order as a prefix; every other room is unchanged; no room becomes empty |
| `Routing.JoinSends` | server.cjs:26-37 | a join sends at least one message and at most one more than the room had members; the first goes to the joiner and is existing-users; every later one is user-joined naming `from`, to an open socket |
| `Routing.JoinSnapshot` | server.cjs:23-30 | the joiner gets exactly one existing-users message, sent first, listing each member of the room before the join exactly once; the list is empty when the room was just created; every later send is user-joined naming `from` |
| `Routing.JoinBroadcast` | server.cjs:32-37 | user-joined naming `from` goes to every open socket of the room before the join and to no other, one per open member; the joiner receives one only if its socket was already mapped in that room |
| `Routing.RelaySends` | server.cjs:47-52 | a relay sends at most one message, nothing when the named room is absent, and what it sends is the received envelope, to an open socket |
| `Routing.RelayTarget` | server.cjs:47-52 | a relay sends at most one message, the received envelope; it goes to a socket exactly when that socket is open and is `rooms[msg.roomId][msg.to]` |
| `Routing.RelayScoped` | server.cjs:47-49 | what a relay sends depends only on the room named in the envelope, so a member called `to` in any other room gets nothing |
| `Routing.CleanupApplies` | server.cjs:71-73 | cleanup acts exactly when the room exists and neither the room id nor the user id is one of JavaScript's falsy values (`undefined`, `null`, `false`, `0`, `""`); in particular never on the initial `null` binding |
| `Routing.CleanupRooms` | server.cjs:70-85 | with a falsy `roomId` or `userId`, or no such room, nothing changes; otherwise the key `userId` is gone from the room, the other members stay, the room is deleted exactly when no member is left, and other rooms are unchanged |
| `Routing.CleanupSends` | server.cjs:76-81 | a cleanup that does not apply sends nothing; otherwise it sends at most one message per member left in the room, each user-left naming `userId`, each to an open socket |
| `Routing.CleanupNotifies` | server.cjs:76-81 | a cleanup that does not apply sends nothing; otherwise user-left naming `userId` goes to every open socket left in the room and to no other, one per remaining open member |
| `Routing.CleanupWithout` | server.cjs:66-81 | the cleanup run after the socket `ws` closed sends exactly the messages the same cleanup would send with `ws` open, minus those to `ws` |
| `Routing.CleanupIdempotent` | server.cjs:70-85 | a second cleanup with the same binding leaves `rooms` as the first left it |
| `Routing.CleanupRepeatsUserLeft` | server.cjs:70-85 | a second cleanup with the same binding makes exactly the sends the first one made |
| `Routing.JoinVisibility` | server.cjs:19-41 | A joins an absent room, then B joins: B's snapshot is exactly [A], and A gets exactly one user-joined naming B if its socket is open |
| `Routing.RoomCollected` | server.cjs:83 | when the last member leaves, the room is deleted, and a later join into the same id gets an empty snapshot |
| `Handlers.CleanupWorld` | server.cjs:70-86 | `cleanup()` keeps the registry well formed and free of empty rooms, and only appends sends |
| `Handlers.HandleMessage` | server.cjs:14-64 | every message keeps the registry well formed and free of empty rooms and only appends sends; only a join changes the binding |
| `Handlers.HandleClose` | server.cjs:66-68 | the close handler keeps the registry well formed and free of empty rooms |
| `Handlers.IgnoredMessages` | server.cjs:14-64 | a malformed envelope, or one of an unknown type, changes nothing and sends nothing; a relay leaves the registry as it was |
| `Handlers.LeaveThenClose` | server.cjs:56-68 | leave-room then close, with the socket no longer open when the close handler runs: the close leaves the registry as the leave left it, but sends the leave's user-left messages again, every one except those addressed to the closing socket |
| `Handlers.DuplicateUserId` | server.cjs:40 | a later join under a present user id takes the key, and a cleanup by the earlier socket then removes that key |
| `Handlers.Step` | server.cjs:10-68 | one event (connection, message or close) keeps the registry well formed and free of empty rooms, and only appends sends |
| `Handlers.Run` | server.cjs:10-68 | after any sequence of events, no room of the registry is empty, provided none was before, and earlier sends are never taken back |
| `SignalingServer.Registry.constructor` | server.cjs:8 | the registry starts with no rooms |
| `SignalingServer.Registry.Broadcast` | server.cjs:33-37 | the `forEach` loop appends exactly the broadcast's sends, in the room's iteration order |
| `SignalingServer.Registry.Enter` | server.cjs:23-40 | the registry's part of a join updates `rooms` as `Routing.JoinRooms` and sends what `Routing.JoinSends` gives, keeping the registry free of empty rooms |
| `SignalingServer.Registry.Leave` | server.cjs:71-84 | the registry's part of `cleanup()` updates `rooms` as `Routing.CleanupRooms` and sends what `Routing.CleanupSends` gives, keeping the registry free of empty rooms |
| `SignalingServer.Connection.constructor` | server.cjs:10-12 | a new connection starts with `userId` and `roomId` null |
| `SignalingServer.Connection.OnMessage` | server.cjs:14-64 | the message handler does what `Handlers.HandleMessage` gives and keeps the registry free of empty rooms |
| `SignalingServer.Connection.Join` | server.cjs:19-42 | join binds the connection, updates `rooms` as `Routing.JoinRooms` and sends what `Routing.JoinSends` gives |
| `SignalingServer.Connection.Relay` | server.cjs:44-54 | a relay changes no registry state and sends what `Routing.RelaySends` gives |
| `SignalingServer.Connection.Cleanup` | server.cjs:70-86 | cleanup updates `rooms` as `Routing.CleanupRooms` and sends what `Routing.CleanupSends` gives; the binding is not cleared |
| `SignalingServer.Connection.OnClose` | server.cjs:66-68 | the close handler runs cleanup with the binding as it stands |

## Left out

- Creating the WebSocket server and choosing its port and host (server.cjs:2-5). This is transport set-up.
- The startup message and the error log (server.cjs:62, 89). These only log.
- `JSON.parse` and `JSON.stringify`. Inbound messages are the datatype `Envelope`. A parse failure, or a message that parses to `null`, is `Malformed`, and the catch then leaves everything as it was. A relayed message is recorded as the envelope it was parsed into.
- Ids that are JSON objects, arrays or non-integer numbers. `Map` compares objects by identity, and every parsed object is new. Ids here are `undefined`, `null`, booleans, integers and strings.
- The contents of offer, answer and ice-candidate messages. They are opaque and forwarded unchanged.
- The transport. `readyState` is the set `Registry.open`, and only the transport changes it. Sending is an entry in `Registry.outbox`, not a delivery. The send of existing-users to the joiner has no ready-state check in the source, so it is always recorded. The model does not cover a `send` that throws on a socket that is still connecting. In that case the catch would skip the rest of the join and could leave an empty room behind.
- Interleaving. Each handler runs to completion as one step. In `Handlers.Run` the transport's part of an event is explicit: a connection event adds the socket to `open`, and a close event takes it out of `open` before the close handler runs. `Handlers.Run` does not stop the transport from delivering events for a socket after its close event; the real transport never does that.
- Aliasing of the inner `Map`. The source changes a room through the reference that `rooms.get` returns. The model stores rooms as values and writes the changed room back into `rooms`. No other reference to a room survives a handler, so the two behave the same.
