/** The server as it runs: one registry shared by every connection, and one
    object per connection standing for the closure that the `connection`
    handler creates (its `userId`, `roomId` and handlers). */
module SignalingServer {
  import opened JsValues
  import opened RoomMaps
  import opened Envelopes
  import opened Routing
  import opened Handlers

  /** The module-level `rooms` map, the sockets' ready states and the sends
      made so far. */
  class Registry {
    var rooms: Rooms
    /** The sockets whose `readyState` is `OPEN`; only the transport changes
        this set. */
    var open: set<ConnId>
    /** Every `send` call, in order. */
    var outbox: seq<Delivery>

    ghost predicate Valid()
      reads this
    {
      RoomsWellFormed(rooms) && NoEmptyRoom(rooms)
    }

    constructor ()
      ensures Valid()
      ensures rooms == map[] && open == {} && outbox == []
    {
      rooms := map[];
      open := {};
      outbox := [];
    }

    /** `room.forEach(client => { if (client.readyState === OPEN) client.send(m) })` */
    method Broadcast(room: Room, m: OutMsg)
      requires WellFormed(room)
      modifies this`outbox
      ensures outbox == old(outbox) + Notify(room, open, m)
    {
      var i := 0;
      while i < |room.order|
        invariant 0 <= i <= |room.order|
        invariant outbox == old(outbox) + NotifyKeys(room.order[..i], room.conns, open, m)
      {
        var id := room.order[i];
        var client := room.conns[id];
        assert room.order[..i + 1] == room.order[..i] + [id];
        if client in open {
          outbox := outbox + [Delivery(client, m)];
        }
        i := i + 1;
      }
      assert room.order[..i] == room.order;
    }

    /** The registry's part of a join: the lazy `rooms.set(roomId, new Map())`,
        the snapshot to the joiner, the user-joined broadcast, and
        `room.set(userId, ws)`. */
    method Enter(ws: ConnId, from: Value, rid: Value)
      requires Valid()
      modifies this`rooms, this`outbox
      ensures Valid()
      ensures rooms == JoinRooms(old(rooms), ws, from, rid)
      ensures outbox == old(outbox) + JoinSends(old(rooms), open, ws, from, rid)
    {
      ghost var sent := outbox;
      // `rooms.set(roomId, new Map())` when absent: no one reads the new
      // room before it is written back, with the joiner in it, below.
      var room := RoomOrEmpty(rooms, rid);
      outbox := outbox + [Delivery(ws, ExistingUsers(room.order))];
      Broadcast(room, UserJoined(from));
      JoinSendsAppend(old(rooms), open, ws, from, rid, sent);
      rooms := rooms[rid := Put(room, from, ws)];
      assert rooms == JoinRooms(old(rooms), ws, from, rid);
    }

    /** The registry's part of `cleanup()` for the binding (uid, rid):
        `room.delete(userId)`, the user-left broadcast to the members left,
        and `rooms.delete(roomId)` once the room is empty. */
    method Leave(uid: Value, rid: Value)
      requires Valid()
      modifies this`rooms, this`outbox
      ensures Valid()
      ensures rooms == CleanupRooms(old(rooms), uid, rid)
      ensures outbox == old(outbox) + CleanupSends(old(rooms), open, uid, rid)
    {
      if Truthy(rid) && Truthy(uid) {
        if rid in rooms {
          ghost var before, sent := rooms, outbox;
          var room := Delete(rooms[rid], uid);
          rooms := rooms[rid := room];
          Broadcast(room, UserLeft(uid));
          CleanupSteps(before, open, uid, rid, sent);
          if Size(room) == 0 {
            UpdateThenRemove(before, rid, room);
            rooms := rooms - {rid};
          }
        }
      }
    }
  }

  /** The state captured by one connection's handlers. */
  class Connection {
    const ws: ConnId
    const server: Registry
    var userId: Value
    var roomId: Value

    /** `wss.on("connection", ws => { let userId = null; let roomId = null; ... })` */
    constructor (server: Registry, ws: ConnId)
      ensures this.server == server && this.ws == ws
      ensures userId == Null && roomId == Null
    {
      this.server := server;
      this.ws := ws;
      userId := Null;
      roomId := Null;
    }

    function State(): World
      reads server
    {
      World(server.rooms, server.outbox)
    }

    /** The `message` handler. */
    method OnMessage(env: Envelope)
      requires server.Valid()
      modifies this, server`rooms, server`outbox
      ensures server.Valid()
      ensures (State(), Binding(userId, roomId))
           == HandleMessage(old(State()), server.open, ws, old(Binding(userId, roomId)), env)
    {
      match env
      case JoinRoom(from, rid) =>
        Join(from, rid);
      case Relay(_, _, _, _, _) =>
        Relay(env);
      case LeaveRoom =>
        Cleanup();
      case Unrecognised =>
      case Malformed =>
    }

    /** The `join-room` case. */
    method Join(from: Value, rid: Value)
      requires server.Valid()
      modifies this`userId, this`roomId, server`rooms, server`outbox
      ensures server.Valid()
      ensures userId == from && roomId == rid
      ensures server.rooms == JoinRooms(old(server.rooms), ws, from, rid)
      ensures server.outbox == old(server.outbox) + JoinSends(old(server.rooms), server.open, ws, from, rid)
    {
      userId := from;
      roomId := rid;
      server.Enter(ws, from, rid);
    }

    /** The `offer` / `answer` / `ice-candidate` case. */
    method Relay(env: Envelope)
      requires env.Relay?
      modifies server`outbox
      ensures server.outbox == old(server.outbox) + RelaySends(server.rooms, server.open, env)
    {
      if env.roomId !in server.rooms {
        return;
      }
      var room := server.rooms[env.roomId];
      if env.to in room.conns && room.conns[env.to] in server.open {
        server.outbox := server.outbox + [Delivery(room.conns[env.to], Forwarded(env))];
      }
    }

    /** `cleanup()`, run by `leave-room` and by the `close` handler. */
    method Cleanup()
      requires server.Valid()
      modifies server`rooms, server`outbox
      ensures server.Valid()
      ensures server.rooms == CleanupRooms(old(server.rooms), userId, roomId)
      ensures server.outbox == old(server.outbox) + CleanupSends(old(server.rooms), server.open, userId, roomId)
    {
      server.Leave(userId, roomId);
    }

    /** The `close` handler. */
    method OnClose()
      requires server.Valid()
      modifies server`rooms, server`outbox
      ensures server.Valid()
      ensures State() == HandleClose(old(State()), server.open, Binding(userId, roomId))
    {
      Cleanup();
    }
  }
}
