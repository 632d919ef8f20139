/** The socket.io server and its in-memory room adapter, as the handlers see
    them. The library itself is not part of this model; what the handlers rely
    on is stated here as definitions:
      - the adapter keeps a map from room key to the set of member socket ids;
      - every connected socket is a member of the room named after its own id;
      - a room with no members is not in the map;
      - `socket.to(r)` reaches the members of r other than the calling socket
        (socket.io excludes every member of the room named after the caller;
        the two differ only when another socket has joined that room),
        `io.to(r)` reaches every member of r;
      - when a socket closes, the adapter removes it from all of its rooms
        before the `disconnect` listeners run. */
module Relay {
  import opened Json

  type SocketId = string
  type RoomId = string

  /** The adapter's `rooms` map. */
  type Rooms = map<RoomId, set<SocketId>>

  /** One event sent to one socket: `emit(event, payload)` as that socket sees it. */
  datatype Delivery = Delivery(to: SocketId, event: string, payload: Payload)

  /** Every room in the map has members, and only connected ones. */
  predicate OccupiedRooms(rooms: Rooms, sockets: set<SocketId>)
  {
    forall r :: r in rooms ==> rooms[r] != {} && rooms[r] <= sockets
  }

  /** Every connected socket is in the room named after its own id. */
  predicate OwnRooms(rooms: Rooms, sockets: set<SocketId>)
  {
    forall s {:trigger Members(rooms, s)} :: s in sockets ==> s in Members(rooms, s)
  }

  /** The adapter's invariant over the connected sockets. */
  predicate WellFormed(rooms: Rooms, sockets: set<SocketId>)
  {
    OccupiedRooms(rooms, sockets) && OwnRooms(rooms, sockets)
  }

  /** `rooms.get(r)`, with an absent room read as having no members. */
  function Members(rooms: Rooms, r: RoomId): set<SocketId>
  {
    if r in rooms then rooms[r] else {}
  }

  /** `socket.rooms`: the rooms s is a member of. */
  function RoomsOf(rooms: Rooms, s: SocketId): set<RoomId>
  {
    set r | r in rooms && s in rooms[r]
  }

  /** The sockets an event addressed to the value `v` reaches: a string names
      one room, any other value names no room. */
  function Addressed(rooms: Rooms, v: Value): set<SocketId>
  {
    if v.Str? then Members(rooms, v.s) else {}
  }

  /** What a client may pass as the room id of `unirse-sala`: a string, or a
      falsy value, which both join handlers reject. */
  predicate RoomArgument(v: Value)
  {
    !Truthy(v) || v.Str?
  }

  /** `socket.join(r)`: the room is created on first join. */
  function Joined(rooms: Rooms, s: SocketId, r: RoomId): Rooms
  {
    rooms[r := Members(rooms, r) + {s}]
  }

  /** `socket.leave(r)`: a room left empty is deleted. */
  function Left(rooms: Rooms, s: SocketId, r: RoomId): Rooms
  {
    if r !in rooms then rooms
    else if rooms[r] - {s} == {} then rooms - {r}
    else rooms[r := rooms[r] - {s}]
  }

  /** The map after s has left every room in `gone`, one `Left` at a time. */
  function LeftAll(rooms: Rooms, s: SocketId, gone: set<RoomId>): Rooms
  {
    map r | r in rooms && (r !in gone || rooms[r] - {s} != {}) ::
      if r in gone then rooms[r] - {s} else rooms[r]
  }

  /** The map after the adapter has removed a closed socket from all its rooms. */
  function Purged(rooms: Rooms, s: SocketId): Rooms
  {
    LeftAll(rooms, s, rooms.Keys)
  }

  /** Joining adds r to the joiner's rooms and to nobody else's. */
  lemma JoinedRooms(rooms: Rooms, s: SocketId, r: RoomId)
    ensures RoomsOf(Joined(rooms, s, r), s) == RoomsOf(rooms, s) + {r}
    ensures forall t :: t != s ==> RoomsOf(Joined(rooms, s, r), t) == RoomsOf(rooms, t)
  {
    var j := Joined(rooms, s, r);
    forall t ensures RoomsOf(j, t) == RoomsOf(rooms, t) + (if t == s then {r} else {}) {
      forall k ensures k in RoomsOf(j, t) <==> k in RoomsOf(rooms, t) + (if t == s then {r} else {}) {
        if k == r {
          assert j[k] == Members(rooms, r) + {s};
        }
      }
    }
  }

  /** Leaving takes r out of the leaver's rooms and out of nobody else's. */
  lemma LeftRooms(rooms: Rooms, s: SocketId, r: RoomId)
    ensures RoomsOf(Left(rooms, s, r), s) == RoomsOf(rooms, s) - {r}
    ensures forall t :: t != s ==> RoomsOf(Left(rooms, s, r), t) == RoomsOf(rooms, t)
  {
    var l := Left(rooms, s, r);
    forall t ensures RoomsOf(l, t) == RoomsOf(rooms, t) - (if t == s then {r} else {}) {
      forall k ensures k in RoomsOf(l, t) <==> k in RoomsOf(rooms, t) - (if t == s then {r} else {}) {
        if k == r && r in rooms && t != s && t in rooms[r] {
          assert t in rooms[r] - {s};
        }
      }
    }
  }

  /** Leaving a set of rooms takes exactly those rooms out of the leaver's rooms
      and touches no other socket's rooms. */
  lemma LeftAllRooms(rooms: Rooms, s: SocketId, gone: set<RoomId>)
    ensures RoomsOf(LeftAll(rooms, s, gone), s) == RoomsOf(rooms, s) - gone
    ensures forall t :: t != s ==> RoomsOf(LeftAll(rooms, s, gone), t) == RoomsOf(rooms, t)
  {
    var l := LeftAll(rooms, s, gone);
    forall t ensures RoomsOf(l, t) == RoomsOf(rooms, t) - (if t == s then gone else {}) {
      forall k ensures k in RoomsOf(l, t) <==> k in RoomsOf(rooms, t) - (if t == s then gone else {}) {
        if k in rooms && k in gone && t != s && t in rooms[k] {
          assert t in rooms[k] - {s};
        }
      }
    }
  }

  /** Leaving the rooms one at a time ends where leaving them all at once does. */
  lemma LeftAllStep(rooms: Rooms, s: SocketId, gone: set<RoomId>, r: RoomId)
    requires r !in gone
    ensures Left(LeftAll(rooms, s, gone), s, r) == LeftAll(rooms, s, gone + {r})
  {
    var before := LeftAll(rooms, s, gone);
    var after := LeftAll(rooms, s, gone + {r});
    var stepped := Left(before, s, r);
    assert stepped.Keys == after.Keys by {
      if r in rooms && rooms[r] - {s} != {} {
        assert r in before;
      }
    }
    forall k | k in after
      ensures stepped[k] == after[k]
    {
    }
  }

  /** Leaving no rooms changes nothing. */
  lemma LeftAllNothing(rooms: Rooms, s: SocketId)
    ensures LeftAll(rooms, s, {}) == rooms
  {
    var l := LeftAll(rooms, s, {});
    assert l.Keys == rooms.Keys;
  }

  /** A connected socket joining any room keeps the adapter's invariant. */
  lemma JoinedWellFormed(rooms: Rooms, sockets: set<SocketId>, s: SocketId, r: RoomId)
    requires WellFormed(rooms, sockets) && s in sockets
    ensures WellFormed(Joined(rooms, s, r), sockets)
  {
    var j := Joined(rooms, s, r);
    forall t | t in sockets ensures t in Members(j, t) {
      assert t in Members(rooms, t);
    }
  }

  /** A newly accepted socket placed in its own room keeps the adapter's invariant. */
  lemma AcceptedWellFormed(rooms: Rooms, sockets: set<SocketId>, s: SocketId)
    requires WellFormed(rooms, sockets) && s !in sockets
    ensures WellFormed(Joined(rooms, s, s), sockets + {s})
  {
    var j := Joined(rooms, s, s);
    forall t | t in sockets + {s} ensures t in Members(j, t) {
      if t != s {
        assert t in Members(rooms, t);
      }
    }
  }

  /** Leaving any room but one's own keeps the adapter's invariant. */
  lemma LeftWellFormed(rooms: Rooms, sockets: set<SocketId>, s: SocketId, r: RoomId)
    requires WellFormed(rooms, sockets) && r != s
    ensures WellFormed(Left(rooms, s, r), sockets)
  {
    var l := Left(rooms, s, r);
    LeftRooms(rooms, s, r);
    forall t | t in sockets ensures t in l && t in l[t] {
      assert t in Members(rooms, t);
      assert t in RoomsOf(rooms, t);
      assert t in RoomsOf(l, t);
    }
  }

  /** Removing a closed socket from every room keeps the invariant over the remaining sockets. */
  lemma PurgedWellFormed(rooms: Rooms, sockets: set<SocketId>, s: SocketId)
    requires WellFormed(rooms, sockets)
    ensures WellFormed(Purged(rooms, s), sockets - {s})
    ensures RoomsOf(Purged(rooms, s), s) == {}
    ensures forall t :: t != s ==> RoomsOf(Purged(rooms, s), t) == RoomsOf(rooms, t)
  {
    var p := Purged(rooms, s);
    LeftAllRooms(rooms, s, rooms.Keys);
    forall t | t in sockets - {s} ensures t in p && t in p[t] {
      assert t in Members(rooms, t);
      assert t in RoomsOf(rooms, t);
      assert t in RoomsOf(p, t);
    }
  }

  /** The recipients of a sequence of deliveries. */
  function Recipients(ds: seq<Delivery>): set<SocketId>
  {
    set i | 0 <= i < |ds| :: ds[i].to
  }

  /** Appending one delivery adds exactly its recipient. */
  lemma RecipientsSnoc(ds: seq<Delivery>, d: Delivery)
    ensures Recipients(ds + [d]) == Recipients(ds) + {d.to}
  {
    var ds' := ds + [d];
    assert ds'[|ds|].to == d.to;
    forall u | u in Recipients(ds') ensures u in Recipients(ds) + {d.to} {
      var i :| 0 <= i < |ds'| && ds'[i].to == u;
      if i < |ds| { assert ds[i].to == u; }
    }
    forall u | u in Recipients(ds) ensures u in Recipients(ds') {
      var i :| 0 <= i < |ds| && ds[i].to == u;
      assert ds'[i].to == u;
    }
  }

  /** `ds` carries the event to every socket in `to`, exactly once each, and to no one else. */
  predicate ExactlyOnce(ds: seq<Delivery>, to: set<SocketId>, event: string, payload: Payload)
  {
    && Recipients(ds) == to
    && (forall i :: 0 <= i < |ds| ==> ds[i].event == event && ds[i].payload == payload)
    && (forall i, j :: 0 <= i < j < |ds| ==> ds[i].to != ds[j].to)
  }

  /** The adapter's broadcast: one emit per target socket, in no particular order. */
  method Broadcast(to: set<SocketId>, event: string, payload: Payload) returns (ds: seq<Delivery>)
    ensures ExactlyOnce(ds, to, event, payload)
  {
    ds := [];
    var rest := to;
    while rest != {}
      invariant rest <= to
      invariant Recipients(ds) == to - rest
      invariant forall i :: 0 <= i < |ds| ==> ds[i].event == event && ds[i].payload == payload
      invariant forall i, j :: 0 <= i < j < |ds| ==> ds[i].to != ds[j].to
      decreases rest
    {
      var t :| t in rest;
      RecipientsSnoc(ds, Delivery(t, event, payload));
      ds := ds + [Delivery(t, event, payload)];
      rest := rest - {t};
    }
  }

  /** The payload of the `welcome` event sent to every new connection. */
  function Welcome(s: SocketId, now: string): Payload
  {
    map["message" := Str("Conectado al servidor WebSocket"), "socketId" := Str(s), "timestamp" := Str(now)]
  }

  /** A socket.io `Server` instance: the namespace's connected sockets and its adapter's rooms. */
  class Io {
    var rooms: Rooms
    var sockets: set<SocketId>

    ghost predicate Valid()
      reads this
    {
      WellFormed(rooms, sockets)
    }

    constructor ()
      ensures Valid() && rooms == map[] && sockets == {}
    {
      rooms := map[];
      sockets := {};
    }

    /** A new connection: the socket is placed in the room named after its id. */
    method Accept(s: SocketId)
      requires Valid() && s !in sockets
      modifies this
      ensures Valid()
      ensures sockets == old(sockets) + {s} && rooms == Joined(old(rooms), s, s)
    {
      AcceptedWellFormed(rooms, sockets, s);
      rooms := Joined(rooms, s, s);
      sockets := sockets + {s};
    }

    /** `socket.join(r)`. */
    method Join(s: SocketId, r: RoomId)
      requires Valid() && s in sockets
      modifies this
      ensures Valid()
      ensures sockets == old(sockets) && rooms == Joined(old(rooms), s, r)
    {
      JoinedWellFormed(rooms, sockets, s, r);
      rooms := Joined(rooms, s, r);
    }

    /** `socket.leave(r)` for a room other than the socket's own. */
    method Leave(s: SocketId, r: RoomId)
      requires Valid() && r != s
      modifies this
      ensures Valid()
      ensures sockets == old(sockets) && rooms == Left(old(rooms), s, r)
    {
      LeftWellFormed(rooms, sockets, s, r);
      rooms := Left(rooms, s, r);
    }

    /** Connection closed: the adapter drops the socket from every room. */
    method Close(s: SocketId)
      requires Valid() && s in sockets
      modifies this
      ensures Valid()
      ensures sockets == old(sockets) - {s} && rooms == Purged(old(rooms), s)
    {
      PurgedWellFormed(rooms, sockets, s);
      rooms := Purged(rooms, s);
      sockets := sockets - {s};
    }
  }

  /** The Node HTTP server object; socket.io is attached to it as `server.io`. */
  class HttpServer {
    var io: Io?

    constructor ()
      ensures io == null
    {
      io := null;
    }
  }
}
