/** The Next.js API route that starts socket.io and relays doorbell events
    (pages/api/socket.js): a once-only start-up guard, and the `connection`,
    `unirse-sala`, `timbre` and `disconnect` handlers. A socket is kept in at
    most one room besides its own. */
module PagesSocket {
  import opened Wrappers
  import opened Json
  import opened Relay

  /** The error text of a join without a room id. */
  const NoRoomError := "❌ Error: No se proporcionó un ID de sala"

  /** The acknowledgement of a rejected join. */
  function JoinFailure(): Payload
  {
    map["success" := Bool(false), "error" := Str(NoRoomError)]
  }

  /** The acknowledgement of a successful join, sent to the joiner only. */
  function JoinResponse(r: RoomId, s: SocketId, now: string): Payload
  {
    map[
      "success" := Bool(true),
      "message" := Str("Unido a la sala " + r),
      "room" := Str(r),
      "socketId" := Str(s),
      "timestamp" := Str(now)
    ]
  }

  /** The room map after a successful join: every room but the socket's own
      has been left, then r has been joined. */
  function JoinedAlone(rooms: Rooms, s: SocketId, r: RoomId): Rooms
  {
    Joined(LeftAll(rooms, s, RoomsOf(rooms, s) - {s}), s, r)
  }

  /** After a join to r the joiner is in r and, of its earlier rooms, only in its
      own-id room; nobody else's rooms change. */
  lemma JoinedAloneRooms(rooms: Rooms, s: SocketId, r: RoomId)
    ensures RoomsOf(JoinedAlone(rooms, s, r), s) == RoomsOf(rooms, s) * {s} + {r}
    ensures forall t :: t != s ==> RoomsOf(JoinedAlone(rooms, s, r), t) == RoomsOf(rooms, t)
  {
    var gone := RoomsOf(rooms, s) - {s};
    LeftAllRooms(rooms, s, gone);
    JoinedRooms(LeftAll(rooms, s, gone), s, r);
  }

  /** A join by a connected socket keeps the adapter's invariant, and in particular
      never takes the socket out of its own-id room. */
  lemma JoinedAloneWellFormed(rooms: Rooms, sockets: set<SocketId>, s: SocketId, r: RoomId)
    requires WellFormed(rooms, sockets) && s in sockets
    ensures WellFormed(JoinedAlone(rooms, s, r), sockets)
    ensures RoomsOf(JoinedAlone(rooms, s, r), s) == {s, r}
  {
    var gone := RoomsOf(rooms, s) - {s};
    var l := LeftAll(rooms, s, gone);
    LeftAllRooms(rooms, s, gone);
    assert s in Members(rooms, s);
    forall t | t in sockets ensures t in Members(l, t) {
      assert t in Members(rooms, t);
      assert t in RoomsOf(rooms, t);
      assert t in RoomsOf(l, t);
    }
    JoinedWellFormed(l, sockets, s, r);
    JoinedAloneRooms(rooms, s, r);
    assert s in RoomsOf(rooms, s);
  }

  /** Joining the room the socket is already in leaves the room map as it was. */
  lemma RejoinUnchanged(rooms: Rooms, sockets: set<SocketId>, s: SocketId, r: RoomId)
    requires WellFormed(rooms, sockets) && s in sockets
    requires RoomsOf(rooms, s) == {s, r}
    ensures JoinedAlone(rooms, s, r) == rooms
  {
    var j := JoinedAlone(rooms, s, r);
    if r == s {
      assert RoomsOf(rooms, s) - {s} == {};
      LeftAllNothing(rooms, s);
      assert s in rooms[s];
      assert j.Keys == rooms.Keys;
      assert j[s] == rooms[s];
    } else {
      assert RoomsOf(rooms, s) - {s} == {r};
      assert r in rooms && s in rooms[r];
      var l := LeftAll(rooms, s, {r});
      assert j.Keys == rooms.Keys;
      forall k | k in rooms ensures j[k] == rooms[k] {
        if k == r {
          assert j[k] == Members(l, r) + {s};
        } else {
          assert l[k] == rooms[k];
        }
      }
    }
  }

  /** Every connected socket is in at most one room besides its own. */
  ghost predicate SingleRoom(rooms: Rooms, sockets: set<SocketId>)
  {
    forall t, a, b :: t in sockets && a in RoomsOf(rooms, t) && b in RoomsOf(rooms, t) && a != t && b != t ==> a == b
  }

  /** The join handler keeps every socket in at most one room besides its own. */
  lemma JoinedAloneSingleRoom(rooms: Rooms, sockets: set<SocketId>, s: SocketId, r: RoomId)
    requires SingleRoom(rooms, sockets)
    ensures SingleRoom(JoinedAlone(rooms, s, r), sockets)
  {
    JoinedAloneRooms(rooms, s, r);
  }

  /** A new connection, in its own room only, keeps every socket in at most one room besides its own. */
  lemma AcceptedSingleRoom(rooms: Rooms, sockets: set<SocketId>, s: SocketId)
    requires WellFormed(rooms, sockets) && SingleRoom(rooms, sockets) && s !in sockets
    ensures SingleRoom(Joined(rooms, s, s), sockets + {s})
  {
    JoinedRooms(rooms, s, s);
    assert RoomsOf(rooms, s) == {};
  }

  /** Scenario: after joining r1 and then r2, the socket is in r2 and no longer in r1. */
  lemma SwitchRooms(rooms: Rooms, sockets: set<SocketId>, s: SocketId, r1: RoomId, r2: RoomId)
    requires WellFormed(rooms, sockets) && s in sockets
    requires r1 != r2 && r1 != s
    ensures s !in Members(JoinedAlone(JoinedAlone(rooms, s, r1), s, r2), r1)
    ensures s in Members(JoinedAlone(JoinedAlone(rooms, s, r1), s, r2), r2)
  {
    var first := JoinedAlone(rooms, s, r1);
    JoinedAloneWellFormed(rooms, sockets, s, r1);
    JoinedAloneWellFormed(first, sockets, s, r2);
    var second := JoinedAlone(first, s, r2);
    assert r1 !in RoomsOf(second, s);
    assert r2 in RoomsOf(second, s);
  }

  /** `res.socket.server.io` absent: create the server; present: change nothing. */
  method SocketHandler(server: HttpServer)
    modifies server
    ensures old(server.io) != null ==> server.io == old(server.io)
    ensures old(server.io) == null ==>
      && server.io != null && fresh(server.io) && server.io.Valid()
      && server.io.rooms == map[] && server.io.sockets == {}
  {
    if server.io != null {
      return;
    }
    var io := new Io();
    server.io := io;
  }

  /** `io.on('connection')`: the new socket is in its own room and is greeted. */
  method OnConnection(io: Io, s: SocketId, now: string) returns (ds: seq<Delivery>)
    requires io.Valid() && s !in io.sockets
    modifies io
    ensures io.Valid()
    ensures io.sockets == old(io.sockets) + {s} && io.rooms == Joined(old(io.rooms), s, s)
    ensures ds == [Delivery(s, "welcome", Welcome(s, now))]
  {
    io.Accept(s);
    ds := [Delivery(s, "welcome", Welcome(s, now))];
  }

  /** `unirse-sala`: reject a missing room id; otherwise leave every room but the
      socket's own, join the new one, and answer the requester alone, through
      its callback when it gave one and through an `unirse-sala-response` event. */
  method OnJoin(io: Io, s: SocketId, salaId: Value, hasCallback: bool, now: string)
    returns (ack: Option<Payload>, ds: seq<Delivery>)
    requires io.Valid() && s in io.sockets
    requires RoomArgument(salaId)
    modifies io
    ensures io.Valid() && io.sockets == old(io.sockets)
    ensures !Truthy(salaId) ==>
      && io.rooms == old(io.rooms) && ds == []
      && ack == (if hasCallback then Some(JoinFailure()) else None)
    ensures Truthy(salaId) ==>
      && io.rooms == JoinedAlone(old(io.rooms), s, salaId.s)
      && RoomsOf(io.rooms, s) == {s, salaId.s}
      && ack == (if hasCallback then Some(JoinResponse(salaId.s, s, now)) else None)
      && ds == [Delivery(s, "unirse-sala-response", JoinResponse(salaId.s, s, now))]
  {
    if !Truthy(salaId) {
      ack := if hasCallback then Some(JoinFailure()) else None;
      ds := [];
      return;
    }
    var r := salaId.s;
    ghost var start := io.rooms;
    assert s in Members(start, s) && s in RoomsOf(start, s);
    if |RoomsOf(io.rooms, s)| > 1 {
      var rest := RoomsOf(io.rooms, s) - {s};
      ghost var gone: set<RoomId> := {};
      LeftAllNothing(start, s);
      while rest != {}
        invariant io.Valid() && io.sockets == old(io.sockets)
        invariant rest !! gone && rest + gone == RoomsOf(start, s) - {s}
        invariant io.rooms == LeftAll(start, s, gone)
        decreases rest
      {
        var room :| room in rest;
        LeftAllStep(start, s, gone, room);
        io.Leave(s, room);
        gone := gone + {room};
        rest := rest - {room};
      }
    } else {
      assert |RoomsOf(start, s) - {s}| == |RoomsOf(start, s)| - 1;
      LeftAllNothing(start, s);
    }
    io.Join(s, r);
    JoinedAloneWellFormed(start, old(io.sockets), s, r);
    var response := JoinResponse(r, s, now);
    ack := if hasCallback then Some(response) else None;
    ds := [Delivery(s, "unirse-sala-response", response)];
  }

  /** The relayed doorbell event: the client's fields, with `timestamp` and
      `from` overwritten (object spread, then the two properties). */
  function EventData(data: Payload, s: SocketId, now: string): (ev: Payload)
    ensures ev.Keys == data.Keys + {"timestamp", "from"}
    ensures forall k :: k in data && k != "timestamp" && k != "from" ==> ev[k] == data[k]
    ensures ev["from"] == Str(s) && ev["timestamp"] == Str(now)
  {
    data["timestamp" := Str(now)]["from" := Str(s)]
  }

  /** The copy echoed to the sender: the relayed event marked `isSender: true`. */
  function SenderCopy(data: Payload, s: SocketId, now: string): (ev: Payload)
    ensures ev.Keys == EventData(data, s, now).Keys + {"isSender"}
    ensures ev["isSender"] == Bool(true)
    ensures forall k :: k in EventData(data, s, now) && k != "isSender" ==> ev[k] == EventData(data, s, now)[k]
  {
    EventData(data, s, now)["isSender" := Bool(true)]
  }

  /** `timbre`: drop an event without a room, or one whose room id cannot be
      written into the log line; otherwise relay it to every other
      member of that room, once each, then echo one marked copy to the sender.
      Room membership is only read. */
  method OnTimbre(io: Io, s: SocketId, data: Payload, now: string) returns (ds: seq<Delivery>)
    ensures !Truthy(Get(data, "room")) ==> ds == []
    // Logging the room id (line 114) throws before either emit when it cannot be converted to text.
    ensures Truthy(Get(data, "room")) && !Interpolable(Get(data, "room")) ==> ds == []
    ensures Truthy(Get(data, "room")) && Interpolable(Get(data, "room")) ==>
      && |ds| >= 1
      && ds[|ds| - 1] == Delivery(s, "timbre", SenderCopy(data, s, now))
      && ExactlyOnce(ds[..|ds| - 1], Addressed(io.rooms, Get(data, "room")) - {s}, "timbre", EventData(data, s, now))
    ensures forall i :: 0 <= i < |ds| ==> (ds[i].to == s <==> i == |ds| - 1)
  {
    var room := Get(data, "room");
    if !Truthy(room) || !Interpolable(room) {
      return [];
    }
    var ev := EventData(data, s, now);
    var others := Broadcast(Addressed(io.rooms, room) - {s}, "timbre", ev);
    ds := others + [Delivery(s, "timbre", SenderCopy(data, s, now))];
    assert ds[..|ds| - 1] == others;
    forall i | 0 <= i < |others| ensures others[i].to != s {
      assert others[i].to in Recipients(others);
    }
  }

  /** The `usuario-desconectado` notice about s leaving room r. */
  function Departure(s: SocketId, r: RoomId, now: string): Payload
  {
    map["socketId" := Str(s), "room" := Str(r), "timestamp" := Str(now)]
  }

  /** The notices owed when s leaves the rooms in `gone`: one per room and
      remaining member of that room. */
  function Departures(rooms: Rooms, s: SocketId, gone: set<RoomId>, now: string): set<Delivery>
  {
    set r, t | r in gone && t in Members(rooms, r) && t != s :: Delivery(t, "usuario-desconectado", Departure(s, r, now))
  }

  /** The elements of a sequence of deliveries. */
  function Elements(ds: seq<Delivery>): set<Delivery>
  {
    set i | 0 <= i < |ds| :: ds[i]
  }

  /** No delivery appears twice. */
  predicate Distinct(ds: seq<Delivery>)
  {
    forall i, j :: 0 <= i < j < |ds| ==> ds[i] != ds[j]
  }

  /** The deliveries of a concatenation are those of its two parts. */
  lemma ElementsConcat(a: seq<Delivery>, b: seq<Delivery>)
    ensures Elements(a + b) == Elements(a) + Elements(b)
  {
    var ab := a + b;
    forall d | d in Elements(ab) ensures d in Elements(a) + Elements(b) {
      var i :| 0 <= i < |ab| && ab[i] == d;
      if i < |a| { assert a[i] == d; } else { assert b[i - |a|] == d; }
    }
    forall d | d in Elements(a) + Elements(b) ensures d in Elements(ab) {
      if d in Elements(a) {
        var i :| 0 <= i < |a| && a[i] == d;
        assert ab[i] == d;
      } else {
        var i :| 0 <= i < |b| && b[i] == d;
        assert ab[|a| + i] == d;
      }
    }
  }

  /** A broadcast of one notice to the members of r other than s yields exactly
      the notices owed for r. */
  lemma BroadcastDepartures(batch: seq<Delivery>, rooms: Rooms, s: SocketId, r: RoomId, now: string)
    requires ExactlyOnce(batch, Members(rooms, r) - {s}, "usuario-desconectado", Departure(s, r, now))
    ensures Elements(batch) == Departures(rooms, s, {r}, now)
    ensures Distinct(batch)
  {
    forall d | d in Elements(batch) ensures d in Departures(rooms, s, {r}, now) {
      var i :| 0 <= i < |batch| && batch[i] == d;
      assert d.to in Recipients(batch);
      assert d == Delivery(d.to, "usuario-desconectado", Departure(s, r, now));
    }
    forall d | d in Departures(rooms, s, {r}, now) ensures d in Elements(batch) {
      assert d.to in Members(rooms, r) - {s};
      assert d.to in Recipients(batch);
      var i :| 0 <= i < |batch| && batch[i].to == d.to;
      assert batch[i] == d;
    }
  }

  /** The notices owed for two sets of rooms are those owed for each. */
  lemma DeparturesUnion(rooms: Rooms, s: SocketId, a: set<RoomId>, b: set<RoomId>, now: string)
    ensures Departures(rooms, s, a + b, now) == Departures(rooms, s, a, now) + Departures(rooms, s, b, now)
  {
  }

  /** The `forEach` over rooms: each room's remaining members are told that s left it. */
  method NotifyRooms(rooms: Rooms, s: SocketId, gone: set<RoomId>, now: string) returns (ds: seq<Delivery>)
    ensures Elements(ds) == Departures(rooms, s, gone, now)
    ensures Distinct(ds)
    ensures gone == {} ==> ds == []
  {
    ds := [];
    var rest := gone;
    while rest != {}
      invariant rest <= gone
      invariant rest == gone ==> ds == []
      invariant Elements(ds) == Departures(rooms, s, gone - rest, now)
      invariant Distinct(ds)
      decreases rest
    {
      var r :| r in rest;
      var batch := Broadcast(Members(rooms, r) - {s}, "usuario-desconectado", Departure(s, r, now));
      BroadcastDepartures(batch, rooms, s, r, now);
      ElementsConcat(ds, batch);
      DeparturesUnion(rooms, s, gone - rest, {r}, now);
      assert Distinct(ds + batch) by {
        forall i, j | 0 <= i < |ds| <= j < |ds| + |batch| ensures (ds + batch)[i] != (ds + batch)[j] {
          assert ds[i] in Departures(rooms, s, gone - rest, now);
          assert batch[j - |ds|] in Departures(rooms, s, {r}, now);
          assert Departure(s, r, now)["room"] == Str(r);
        }
      }
      assert gone - (rest - {r}) == (gone - rest) + {r};
      ds := ds + batch;
      rest := rest - {r};
    }
  }

  /** `disconnect`, as written: by the time the listener runs, the adapter has
      already removed the socket from every room, so the list of rooms to
      notify is empty and nobody is told. */
  method OnDisconnectAsWritten(io: Io, s: SocketId, now: string) returns (ds: seq<Delivery>)
    requires io.Valid() && s in io.sockets
    modifies io
    ensures io.Valid()
    ensures io.sockets == old(io.sockets) - {s} && io.rooms == Purged(old(io.rooms), s)
    ensures ds == []
  {
    ghost var before := io.rooms;
    PurgedWellFormed(io.rooms, io.sockets, s);
    io.Close(s);
    var rooms := RoomsOf(io.rooms, s) - {s};
    ds := NotifyRooms(io.rooms, s, rooms, now);
  }

  /** Whatever the rooms, the as-written listener sends no departure notice. */
  lemma DisconnectNoticeNeverSent(rooms: Rooms, s: SocketId, now: string)
    ensures Departures(Purged(rooms, s), s, RoomsOf(Purged(rooms, s), s) - {s}, now) == {}
  {
    LeftAllRooms(rooms, s, rooms.Keys);
  }

  /** A concrete case: a and b share room r1; when a disconnects, b is owed a
      notice about r1, and the as-written listener sends none. */
  lemma DisconnectNoticeLost(now: string)
    ensures
      var rooms := map["a" := {"a"}, "b" := {"b"}, "r1" := {"a", "b"}];
      && Delivery("b", "usuario-desconectado", Departure("a", "r1", now)) in Departures(rooms, "a", RoomsOf(rooms, "a") - {"a"}, now)
      && Departures(Purged(rooms, "a"), "a", RoomsOf(Purged(rooms, "a"), "a") - {"a"}, now) == {}
  {
    var rooms := map["a" := {"a"}, "b" := {"b"}, "r1" := {"a", "b"}];
    assert "r1" in RoomsOf(rooms, "a");
    assert "b" in Members(rooms, "r1");
    DisconnectNoticeNeverSent(rooms, "a", now);
  }

  /** `disconnect`, as intended: each room the socket was in, other than its
      own, is told about the departure (read while the socket is still a
      member, as a `disconnecting` listener would); then the adapter drops it
      from every room. */
  method OnDisconnect(io: Io, s: SocketId, now: string) returns (ds: seq<Delivery>)
    requires io.Valid() && s in io.sockets
    modifies io
    ensures io.Valid()
    ensures io.sockets == old(io.sockets) - {s} && io.rooms == Purged(old(io.rooms), s)
    ensures Elements(ds) == Departures(old(io.rooms), s, RoomsOf(old(io.rooms), s) - {s}, now)
    ensures Distinct(ds)
  {
    var rooms := RoomsOf(io.rooms, s) - {s};
    ds := NotifyRooms(io.rooms, s, rooms, now);
    io.Close(s);
  }

  /** Leaving on disconnect keeps every remaining socket in at most one room besides its own. */
  lemma PurgedSingleRoom(rooms: Rooms, sockets: set<SocketId>, s: SocketId)
    requires WellFormed(rooms, sockets) && SingleRoom(rooms, sockets)
    ensures SingleRoom(Purged(rooms, s), sockets - {s})
  {
    PurgedWellFormed(rooms, sockets, s);
  }
}
