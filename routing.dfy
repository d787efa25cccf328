/** The registry `rooms` (room id -> room) and what each handler of the
    server does to it and sends, as functions of the state before the
    handler runs. The classes in module SignalingServer are proved to
    follow these functions. */
module Routing {
  import opened JsValues
  import opened RoomMaps
  import opened Envelopes

  /** `rooms`: room id -> room. */
  type Rooms = map<Value, Room>

  ghost predicate RoomsWellFormed(rooms: Rooms)
  {
    forall rid :: rid in rooms ==> WellFormed(rooms[rid])
  }

  /** Every room in the registry has at least one member. */
  ghost predicate NoEmptyRoom(rooms: Rooms)
  {
    forall rid :: rid in rooms ==> rooms[rid].conns != map[]
  }

  /** The room `rooms.get(rid)` after the lazy `rooms.set(rid, new Map())`. */
  function RoomOrEmpty(rooms: Rooms, rid: Value): (r: Room)
    requires RoomsWellFormed(rooms)
    ensures WellFormed(r)
    ensures r.conns == MembersOf(rooms, rid)
    ensures rid !in rooms ==> r.order == []
  {
    if rid in rooms then rooms[rid] else Empty
  }

  /** The members of room `rid`, none if the room is absent. */
  function MembersOf(rooms: Rooms, rid: Value): map<Value, ConnId>
  {
    if rid in rooms then rooms[rid].conns else map[]
  }

  // ---------------------------------------------------------------------
  // Broadcast: `room.forEach(client => if (open) client.send(m))`

  /** The sends of a `forEach` over the keys `ks`, in that order, to every
      connection whose socket is open. */
  function NotifyKeys(ks: seq<Value>, conns: map<Value, ConnId>, open: set<ConnId>, m: OutMsg): (ds: seq<Delivery>)
    requires forall k :: k in ks ==> k in conns
    ensures |ds| <= |ks|
    ensures forall i :: 0 <= i < |ds| ==> ds[i].msg == m && ds[i].to in open
    decreases |ks|
  {
    if ks == [] then []
    else
      var last := ks[|ks| - 1];
      NotifyKeys(ks[..|ks| - 1], conns, open, m)
        + (if conns[last] in open then [Delivery(conns[last], m)] else [])
  }

  function Notify(r: Room, open: set<ConnId>, m: OutMsg): (ds: seq<Delivery>)
    requires WellFormed(r)
    ensures |ds| <= |r.conns|
    ensures forall i :: 0 <= i < |ds| ==> ds[i].msg == m && ds[i].to in open
  {
    assert Size(r) == |r.order|;
    NotifyKeys(r.order, r.conns, open, m)
  }

  /** The open connections that some member of `conns` maps to. */
  function Reached(conns: map<Value, ConnId>, open: set<ConnId>): set<ConnId>
  {
    set k | k in conns && conns[k] in open :: conns[k]
  }

  /** The members whose connection is open. */
  function OpenMembers(conns: map<Value, ConnId>, open: set<ConnId>): set<Value>
  {
    set k | k in conns && conns[k] in open
  }

  lemma {:induction false} NotifyKeysMembers(ks: seq<Value>, conns: map<Value, ConnId>, open: set<ConnId>, m: OutMsg, d: Delivery)
    requires forall k :: k in ks ==> k in conns
    ensures d in NotifyKeys(ks, conns, open, m)
        <==> d.msg == m && d.to in open && exists k :: k in ks && conns[k] == d.to
  {
    if ks != [] {
      var init, last := ks[..|ks| - 1], ks[|ks| - 1];
      assert ks == init + [last];
      NotifyKeysMembers(init, conns, open, m, d);
      if d in NotifyKeys(ks, conns, open, m) {
        if d in NotifyKeys(init, conns, open, m) {
          var k :| k in init && conns[k] == d.to;
          assert k in ks;
        } else {
          assert d == Delivery(conns[last], m);
          assert last in ks;
        }
      }
      if d.msg == m && d.to in open && exists k :: k in ks && conns[k] == d.to {
        var k :| k in ks && conns[k] == d.to;
        if k == last {
          assert d == Delivery(conns[last], m);
        } else {
          assert k in init;
        }
      }
    }
  }

  lemma {:induction false} NotifyKeysCount(ks: seq<Value>, conns: map<Value, ConnId>, open: set<ConnId>, m: OutMsg)
    requires forall k :: k in ks ==> k in conns
    requires Distinct(ks)
    ensures |NotifyKeys(ks, conns, open, m)| == |set k | k in ks && conns[k] in open|
  {
    if ks != [] {
      var init, last := ks[..|ks| - 1], ks[|ks| - 1];
      assert Distinct(init);
      NotifyKeysCount(init, conns, open, m);
      var tail := if conns[last] in open then [Delivery(conns[last], m)] else [];
      assert NotifyKeys(ks, conns, open, m) == NotifyKeys(init, conns, open, m) + tail;
      assert ks == init + [last];
      OpenKeysSnoc(init, last, conns, open);
    }
  }

  /** Counting the open keys of `init + [last]`, one key at a time. */
  lemma OpenKeysSnoc(init: seq<Value>, last: Value, conns: map<Value, ConnId>, open: set<ConnId>)
    requires forall k :: k in init ==> k in conns
    requires last in conns && Distinct(init + [last])
    ensures |set k | k in init + [last] && conns[k] in open|
         == |set k | k in init && conns[k] in open| + (if conns[last] in open then 1 else 0)
  {
    var ks := init + [last];
    assert last !in init by {
      forall i | 0 <= i < |init| ensures init[i] != last {
        assert init[i] == ks[i] && last == ks[|init|];
      }
    }
    var before := set k | k in init && conns[k] in open;
    var after := set k | k in ks && conns[k] in open;
    if conns[last] in open {
      assert after == before + {last};
    } else {
      assert after == before;
    }
  }

  /** A broadcast reaches every open connection of the room, and nothing
      else, with one send per member whose connection is open. */
  lemma NotifySpec(r: Room, open: set<ConnId>, m: OutMsg)
    requires WellFormed(r)
    ensures forall d :: d in Notify(r, open, m) <==> d.msg == m && d.to in Reached(r.conns, open)
    ensures |Notify(r, open, m)| == |OpenMembers(r.conns, open)|
  {
    forall d
      ensures d in Notify(r, open, m) <==> d.msg == m && d.to in Reached(r.conns, open)
    {
      NotifyKeysMembers(r.order, r.conns, open, m, d);
    }
    NotifyKeysCount(r.order, r.conns, open, m);
    assert (set k | k in r.order && r.conns[k] in open) == OpenMembers(r.conns, open);
  }

  // ---------------------------------------------------------------------
  // join-room

  /** The registry after a join of `from` into `rid` on socket `ws`. */
  function JoinRooms(rooms: Rooms, ws: ConnId, from: Value, rid: Value): (r: Rooms)
    requires RoomsWellFormed(rooms)
    ensures RoomsWellFormed(r)
    ensures NoEmptyRoom(rooms) ==> NoEmptyRoom(r)
    ensures rid in r && MembersOf(r, rid) == MembersOf(rooms, rid)[from := ws]
    ensures rid in rooms ==> rooms[rid].order <= r[rid].order
    ensures forall x :: x != rid ==> (x in r <==> x in rooms) && (x in rooms ==> r[x] == rooms[x])
  {
    rooms[rid := Put(RoomOrEmpty(rooms, rid), from, ws)]
  }

  /** The sends of a join: the snapshot to the joiner, then the broadcast
      to the room as it was before the join. */
  function JoinSends(rooms: Rooms, open: set<ConnId>, ws: ConnId, from: Value, rid: Value): (ds: seq<Delivery>)
    requires RoomsWellFormed(rooms)
    ensures 1 <= |ds| <= 1 + |MembersOf(rooms, rid)|
    ensures ds[0].to == ws && ds[0].msg.ExistingUsers?
    ensures forall i :: 1 <= i < |ds| ==> ds[i].msg == UserJoined(from) && ds[i].to in open
  {
    var room := RoomOrEmpty(rooms, rid);
    [Delivery(ws, ExistingUsers(room.order))] + Notify(room, open, UserJoined(from))
  }

  /** The sends of a join appended to a log, one message at a time: the
      snapshot, then the broadcast. */
  lemma JoinSendsAppend(rooms: Rooms, open: set<ConnId>, ws: ConnId, from: Value, rid: Value, log: seq<Delivery>)
    requires RoomsWellFormed(rooms)
    ensures var room := RoomOrEmpty(rooms, rid);
      log + JoinSends(rooms, open, ws, from, rid)
        == log + [Delivery(ws, ExistingUsers(room.order))] + Notify(room, open, UserJoined(from))
  {
  }

  /** The joiner gets exactly one existing-users message, first, listing each
      member of the room before the join exactly once. */
  lemma JoinSnapshot(rooms: Rooms, open: set<ConnId>, ws: ConnId, from: Value, rid: Value)
    requires RoomsWellFormed(rooms)
    ensures var ds := JoinSends(rooms, open, ws, from, rid);
      && |ds| >= 1
      && ds[0].to == ws && ds[0].msg.ExistingUsers?
      && Distinct(ds[0].msg.users)
      && (forall u :: u in ds[0].msg.users <==> u in MembersOf(rooms, rid))
      && |ds[0].msg.users| == |MembersOf(rooms, rid)|
      && (rid !in rooms ==> ds[0].msg.users == [])
      && (forall i :: 1 <= i < |ds| ==> ds[i].msg == UserJoined(from))
  {
    var room := RoomOrEmpty(rooms, rid);
    NotifySpec(room, open, UserJoined(from));
    var ds := JoinSends(rooms, open, ws, from, rid);
    forall i | 1 <= i < |ds|
      ensures ds[i].msg == UserJoined(from)
    {
      assert ds[i] in Notify(room, open, UserJoined(from));
    }
    assert Size(room) == |room.order|;
  }

  /** user-joined goes to every open connection of the room before the join
      and to no other; the joiner is a recipient only if it was already
      mapped in that room. */
  lemma JoinBroadcast(rooms: Rooms, open: set<ConnId>, ws: ConnId, from: Value, rid: Value)
    requires RoomsWellFormed(rooms)
    ensures var ds := JoinSends(rooms, open, ws, from, rid);
      && (forall d :: d in ds[1..] <==> d.msg == UserJoined(from) && d.to in Reached(MembersOf(rooms, rid), open))
      && |ds| == 1 + |OpenMembers(MembersOf(rooms, rid), open)|
      && (Delivery(ws, UserJoined(from)) in ds <==> ws in Reached(MembersOf(rooms, rid), open))
  {
    var room := RoomOrEmpty(rooms, rid);
    NotifySpec(room, open, UserJoined(from));
    var ds := JoinSends(rooms, open, ws, from, rid);
    assert ds[1..] == Notify(room, open, UserJoined(from));
    assert ds == [ds[0]] + ds[1..];
  }

  // ---------------------------------------------------------------------
  // offer / answer / ice-candidate

  /** The sends of a relay: the envelope itself to `msg.to` in `msg.roomId`. */
  function RelaySends(rooms: Rooms, open: set<ConnId>, env: Envelope): (ds: seq<Delivery>)
    requires env.Relay?
    ensures |ds| <= 1
    ensures env.roomId !in rooms ==> ds == []
    ensures forall i :: 0 <= i < |ds| ==> ds[i].msg == Forwarded(env) && ds[i].to in open
  {
    if env.roomId !in rooms then []
    else
      var room := rooms[env.roomId];
      if env.to in room.conns && room.conns[env.to] in open
      then [Delivery(room.conns[env.to], Forwarded(env))]
      else []
  }

  /** A relay sends at most one message, the received envelope, and sends it
      to a socket exactly when that socket is the open connection of `to` in
      the envelope's own room. */
  lemma RelayTarget(rooms: Rooms, open: set<ConnId>, env: Envelope, c: ConnId)
    requires env.Relay?
    ensures |RelaySends(rooms, open, env)| <= 1
    ensures forall d :: d in RelaySends(rooms, open, env) ==> d.msg == Forwarded(env)
    ensures Delivery(c, Forwarded(env)) in RelaySends(rooms, open, env)
        <==> env.to in MembersOf(rooms, env.roomId) && MembersOf(rooms, env.roomId)[env.to] == c && c in open
  {
  }

  /** What a relay sends depends on the envelope's room only: any two
      registries that agree on that room give the same sends. */
  lemma RelayScoped(rooms1: Rooms, rooms2: Rooms, open: set<ConnId>, env: Envelope)
    requires env.Relay?
    requires MembersOf(rooms1, env.roomId) == MembersOf(rooms2, env.roomId)
    ensures RelaySends(rooms1, open, env) == RelaySends(rooms2, open, env)
  {
  }

  // ---------------------------------------------------------------------
  // cleanup()

  /** `roomId && userId` holds and `rooms.get(roomId)` finds a room. */
  predicate CleanupApplies(rooms: Rooms, uid: Value, rid: Value): (a: bool)
    ensures a ==> rid in rooms
    ensures uid == Null || rid == Null || uid == Undefined || rid == Undefined ==> !a
    ensures a <==> rid in rooms && rid !in Falsy && uid !in Falsy
  {
    Truthy(rid) && Truthy(uid) && rid in rooms
  }

  /** The registry after `cleanup()` for the binding (uid, rid). */
  function CleanupRooms(rooms: Rooms, uid: Value, rid: Value): (r: Rooms)
    requires RoomsWellFormed(rooms)
    ensures RoomsWellFormed(r)
    ensures NoEmptyRoom(rooms) ==> NoEmptyRoom(r)
    ensures !CleanupApplies(rooms, uid, rid) ==> r == rooms
    ensures CleanupApplies(rooms, uid, rid) ==>
      && MembersOf(r, rid) == rooms[rid].conns - {uid}
      && (rid in r <==> MembersOf(r, rid) != map[])
    ensures forall x :: x != rid ==> (x in r <==> x in rooms) && (x in rooms ==> r[x] == rooms[x])
  {
    if !CleanupApplies(rooms, uid, rid) then rooms
    else
      var room := Delete(rooms[rid], uid);
      if Size(room) == 0 then rooms - {rid} else rooms[rid := room]
  }

  /** The sends of `cleanup()`: user-left to the room after the removal. */
  function CleanupSends(rooms: Rooms, open: set<ConnId>, uid: Value, rid: Value): (ds: seq<Delivery>)
    requires RoomsWellFormed(rooms)
    ensures !CleanupApplies(rooms, uid, rid) ==> ds == []
    ensures CleanupApplies(rooms, uid, rid) ==> |ds| <= |rooms[rid].conns - {uid}|
    ensures forall i :: 0 <= i < |ds| ==> ds[i].msg == UserLeft(uid) && ds[i].to in open
  {
    if !CleanupApplies(rooms, uid, rid) then []
    else Notify(Delete(rooms[rid], uid), open, UserLeft(uid))
  }

  /** A cleanup that applies, step by step: the room without `uid`, dropped
      from the registry once empty, and the broadcast to it appended to a
      log. */
  lemma CleanupSteps(rooms: Rooms, open: set<ConnId>, uid: Value, rid: Value, log: seq<Delivery>)
    requires RoomsWellFormed(rooms) && CleanupApplies(rooms, uid, rid)
    ensures var rest := Delete(rooms[rid], uid);
      && CleanupRooms(rooms, uid, rid) == (if Size(rest) == 0 then rooms - {rid} else rooms[rid := rest])
      && log + CleanupSends(rooms, open, uid, rid) == log + Notify(rest, open, UserLeft(uid))
  {
  }

  /** user-left naming `uid` goes to every open connection left in the room
      and to no other, one send per remaining open member; a cleanup that
      does not apply sends nothing. */
  lemma CleanupNotifies(rooms: Rooms, open: set<ConnId>, uid: Value, rid: Value)
    requires RoomsWellFormed(rooms)
    ensures !CleanupApplies(rooms, uid, rid) ==> CleanupSends(rooms, open, uid, rid) == []
    ensures CleanupApplies(rooms, uid, rid) ==>
      var rest := rooms[rid].conns - {uid};
      && (forall d :: d in CleanupSends(rooms, open, uid, rid) <==> d.msg == UserLeft(uid) && d.to in Reached(rest, open))
      && |CleanupSends(rooms, open, uid, rid)| == |OpenMembers(rest, open)|
  {
    if CleanupApplies(rooms, uid, rid) {
      NotifySpec(Delete(rooms[rid], uid), open, UserLeft(uid));
    }
  }

  /** A cleanup run once a socket is no longer open makes the sends it
      would have made before, except those to that socket. */
  lemma CleanupWithout(rooms: Rooms, open: set<ConnId>, uid: Value, rid: Value, ws: ConnId)
    requires RoomsWellFormed(rooms)
    ensures forall d :: d in CleanupSends(rooms, open - {ws}, uid, rid)
                    <==> d in CleanupSends(rooms, open, uid, rid) && d.to != ws
  {
    CleanupNotifies(rooms, open, uid, rid);
    CleanupNotifies(rooms, open - {ws}, uid, rid);
    if CleanupApplies(rooms, uid, rid) {
      var rest := rooms[rid].conns - {uid};
      ReachedWithout(rest, open, ws);
    }
  }

  /** Closing `ws` takes it, and only it, out of the sockets a broadcast
      reaches. */
  lemma ReachedWithout(conns: map<Value, ConnId>, open: set<ConnId>, ws: ConnId)
    ensures Reached(conns, open - {ws}) == Reached(conns, open) - {ws}
  {
  }

  /** A second cleanup with the same binding leaves the registry as the
      first left it. */
  lemma CleanupIdempotent(rooms: Rooms, uid: Value, rid: Value)
    requires RoomsWellFormed(rooms)
    ensures CleanupRooms(CleanupRooms(rooms, uid, rid), uid, rid) == CleanupRooms(rooms, uid, rid)
  {
    var once := CleanupRooms(rooms, uid, rid);
    if CleanupApplies(once, uid, rid) {
      var room := once[rid];
      CleanupLeftRoom(rooms, uid, rid);
      assert Delete(room, uid) == room;
      calc {
        CleanupRooms(once, uid, rid);
        once[rid := room];
        { UpdateSame(once, rid); }
        once;
      }
    }
  }

  /** A room the cleanup left in place no longer holds the key `uid`, and is
      not empty. */
  lemma CleanupLeftRoom(rooms: Rooms, uid: Value, rid: Value)
    requires RoomsWellFormed(rooms)
    requires rid in CleanupRooms(rooms, uid, rid)
    ensures var room := CleanupRooms(rooms, uid, rid)[rid];
      Truthy(uid) && Truthy(rid) ==> uid !in room.conns && Size(room) != 0
  {
    var once := CleanupRooms(rooms, uid, rid);
    if Truthy(uid) && Truthy(rid) {
      assert CleanupApplies(rooms, uid, rid);
      assert once[rid].conns == MembersOf(once, rid) == rooms[rid].conns - {uid};
    }
  }

  /** Deleting a room id undoes any earlier write to it. */
  lemma UpdateThenRemove(rooms: Rooms, rid: Value, r: Room)
    ensures rooms[rid := r] - {rid} == rooms - {rid}
  {
  }

  lemma UpdateSame(rooms: Rooms, rid: Value)
    requires rid in rooms
    ensures rooms[rid := rooms[rid]] == rooms
  {
  }

  /** ... but sends its user-left messages again: the binding is never
      cleared, so the second cleanup repeats the first one's sends. */
  lemma CleanupRepeatsUserLeft(rooms: Rooms, open: set<ConnId>, uid: Value, rid: Value)
    requires RoomsWellFormed(rooms)
    ensures CleanupSends(CleanupRooms(rooms, uid, rid), open, uid, rid) == CleanupSends(rooms, open, uid, rid)
  {
    var once := CleanupRooms(rooms, uid, rid);
    if CleanupApplies(rooms, uid, rid) {
      var rest := Delete(rooms[rid], uid);
      if rid in once {
        assert once[rid] == rest;
        assert Delete(once[rid], uid) == rest;
      } else {
        assert Size(rest) == |rest.order| == 0;
      }
    }
  }

  // ---------------------------------------------------------------------
  // Two runs through the registry

  /** A joins a room that does not exist, then B joins it: B's snapshot
      lists exactly A, and A (if open) gets exactly one user-joined naming
      B. */
  lemma JoinVisibility(rooms: Rooms, open: set<ConnId>, wsA: ConnId, a: Value, wsB: ConnId, b: Value, rid: Value)
    requires RoomsWellFormed(rooms)
    requires rid !in rooms
    ensures JoinSends(JoinRooms(rooms, wsA, a, rid), open, wsB, b, rid)
         == [Delivery(wsB, ExistingUsers([a]))]
            + (if wsA in open then [Delivery(wsA, UserJoined(b))] else [])
  {
    var after := JoinRooms(rooms, wsA, a, rid);
    var room := Room([a], map[a := wsA]);
    assert after[rid] == room;
    assert [a][..0] == [];
    assert Notify(room, open, UserJoined(b))
        == NotifyKeys([], room.conns, open, UserJoined(b))
           + (if wsA in open then [Delivery(wsA, UserJoined(b))] else []);
  }

  /** Once the last member has gone, the room is gone: a later join into
      the same id starts from an empty snapshot. */
  lemma RoomCollected(rooms: Rooms, open: set<ConnId>, uid: Value, rid: Value, ws: ConnId, from: Value)
    requires RoomsWellFormed(rooms)
    requires CleanupApplies(rooms, uid, rid) && rooms[rid].conns.Keys <= {uid}
    ensures rid !in CleanupRooms(rooms, uid, rid)
    ensures JoinSends(CleanupRooms(rooms, uid, rid), open, ws, from, rid)
         == [Delivery(ws, ExistingUsers([]))]
  {
    assert rooms[rid].conns - {uid} == map[];
    assert Notify(Empty, open, UserJoined(from)) == [];
  }
}
