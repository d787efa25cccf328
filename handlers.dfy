/** The `message` and `close` handlers of one connection as atomic steps of
    the event loop, and the event loop itself over many connections. */
module Handlers {
  import opened JsValues
  import opened RoomMaps
  import opened Envelopes
  import opened Routing

  /** The `userId` and `roomId` variables captured by one connection's
      handlers. */
  datatype Binding = Binding(userId: Value, roomId: Value)

  /** Both variables start as `null`. */
  const Unbound: Binding := Binding(Null, Null)

  /** The shared state: the registry and every send made so far. */
  datatype World = World(rooms: Rooms, outbox: seq<Delivery>)

  ghost predicate Inv(w: World)
  {
    RoomsWellFormed(w.rooms) && NoEmptyRoom(w.rooms)
  }

  /** `cleanup()` for binding `b`. */
  function CleanupWorld(w: World, open: set<ConnId>, b: Binding): (r: World)
    requires RoomsWellFormed(w.rooms)
    ensures RoomsWellFormed(r.rooms)
    ensures Inv(w) ==> Inv(r)
    ensures w.outbox <= r.outbox
  {
    World(CleanupRooms(w.rooms, b.userId, b.roomId),
          w.outbox + CleanupSends(w.rooms, open, b.userId, b.roomId))
  }

  /** The `message` handler of socket `ws`, whose binding is `b`, on `env`. */
  function HandleMessage(w: World, open: set<ConnId>, ws: ConnId, b: Binding, env: Envelope): (r: (World, Binding))
    requires RoomsWellFormed(w.rooms)
    ensures RoomsWellFormed(r.0.rooms)
    ensures Inv(w) ==> Inv(r.0)
    ensures w.outbox <= r.0.outbox
    ensures !env.JoinRoom? ==> r.1 == b
  {
    match env
    case JoinRoom(from, rid) =>
      (World(JoinRooms(w.rooms, ws, from, rid), w.outbox + JoinSends(w.rooms, open, ws, from, rid)),
       Binding(from, rid))
    case Relay(_, _, _, _, _) =>
      (World(w.rooms, w.outbox + RelaySends(w.rooms, open, env)), b)
    case LeaveRoom =>
      (CleanupWorld(w, open, b), b)
    case Unrecognised =>
      (w, b)
    case Malformed =>
      (w, b)
  }

  /** The `close` handler of a socket whose binding is `b`. */
  function HandleClose(w: World, open: set<ConnId>, b: Binding): (r: World)
    requires RoomsWellFormed(w.rooms)
    ensures RoomsWellFormed(r.rooms)
    ensures Inv(w) ==> Inv(r)
  {
    CleanupWorld(w, open, b)
  }

  /** A message that does not parse, or whose type matches no case, changes
      nothing and sends nothing; a relay changes neither the registry nor
      the binding. */
  lemma IgnoredMessages(w: World, open: set<ConnId>, ws: ConnId, b: Binding, env: Envelope)
    requires RoomsWellFormed(w.rooms)
    ensures env.Malformed? || env.Unrecognised? ==> HandleMessage(w, open, ws, b, env) == (w, b)
    ensures env.Relay? ==> HandleMessage(w, open, ws, b, env).0.rooms == w.rooms
  {
  }

  /** leave-room followed by close. By the time the close handler runs the
      socket is no longer open. The close leaves the registry as the leave
      left it, yet sends the leave's user-left messages a second time: every
      one of them except those addressed to the closing socket itself. */
  lemma LeaveThenClose(w: World, open: set<ConnId>, ws: ConnId, b: Binding)
    requires RoomsWellFormed(w.rooms)
    ensures var (w1, b1) := HandleMessage(w, open, ws, b, LeaveRoom);
      var w2 := HandleClose(w1, open - {ws}, b1);
      var left := CleanupSends(w.rooms, open, b.userId, b.roomId);
      var again := CleanupSends(w.rooms, open - {ws}, b.userId, b.roomId);
      && w2.rooms == w1.rooms
      && w1.outbox == w.outbox + left
      && w2.outbox == w.outbox + left + again
      && (forall d :: d in again <==> d in left && d.to != ws)
  {
    CleanupIdempotent(w.rooms, b.userId, b.roomId);
    CleanupRepeatsUserLeft(w.rooms, open - {ws}, b.userId, b.roomId);
    CleanupWithout(w.rooms, open, b.userId, b.roomId, ws);
  }

  /** Two sockets join one room under the same truthy user id: the later one
      takes the key over, and a cleanup by the earlier one then deletes the
      key although it now belongs to the later one. */
  lemma DuplicateUserId(w: World, open: set<ConnId>, wsLater: ConnId, bLater: Binding, uid: Value, rid: Value)
    requires RoomsWellFormed(w.rooms)
    requires Truthy(uid) && Truthy(rid)
    ensures var (w1, _) := HandleMessage(w, open, wsLater, bLater, JoinRoom(uid, rid));
      var w2 := HandleClose(w1, open, Binding(uid, rid));
      && MembersOf(w1.rooms, rid)[uid] == wsLater
      && uid !in MembersOf(w2.rooms, rid)
  {
  }

  // ---------------------------------------------------------------------
  // The event loop: one handler runs to completion at a time.

  datatype Event =
      /** `wss.on("connection")`: a new socket, open, with a fresh binding. */
    | Connect(conn: ConnId)
      /** A `message` event on socket `conn`. */
    | Message(conn: ConnId, env: Envelope)
      /** The socket `conn` is no longer open and its `close` event runs. */
    | Close(conn: ConnId)

  datatype System = System(world: World, open: set<ConnId>, bindings: map<ConnId, Binding>)

  function BindingOf(s: System, c: ConnId): Binding
  {
    if c in s.bindings then s.bindings[c] else Unbound
  }

  function Step(s: System, e: Event): (r: System)
    requires RoomsWellFormed(s.world.rooms)
    ensures RoomsWellFormed(r.world.rooms)
    ensures Inv(s.world) ==> Inv(r.world)
    ensures s.world.outbox <= r.world.outbox
  {
    match e
    case Connect(c) =>
      System(s.world, s.open + {c}, s.bindings[c := Unbound])
    case Message(c, env) =>
      var (w, b) := HandleMessage(s.world, s.open, c, BindingOf(s, c), env);
      System(w, s.open, s.bindings[c := b])
    case Close(c) =>
      var open := s.open - {c};
      System(HandleClose(s.world, open, BindingOf(s, c)), open, s.bindings)
  }

  /** Handle `events` in order. After every handler, as before the first,
      no room of the registry is empty. */
  function Run(s: System, events: seq<Event>): (r: System)
    requires RoomsWellFormed(s.world.rooms)
    ensures RoomsWellFormed(r.world.rooms)
    ensures NoEmptyRoom(s.world.rooms) ==> NoEmptyRoom(r.world.rooms)
    ensures s.world.outbox <= r.world.outbox
    decreases |events|
  {
    if events == [] then s
    else Run(Step(s, events[0]), events[1..])
  }
}
