/** The alternative socket.io set-up of lib/socket.js: a module-level `io`
    created once, a getter that fails before it exists, and `unirse-sala` and
    `timbre` handlers. Unlike pages/api/socket.js, a join here keeps the socket
    in its earlier rooms, and `timbre` is forwarded as it came. */
module LibSocket {
  import opened Wrappers
  import opened Json
  import opened Relay

  const NotInitialised := "Socket.IO no ha sido inicializado. Llama a initSocket primero."
  const RoomRequired := "Se requiere un ID de sala"

  /** The module instance: its `io` variable, null until `initSocket` runs. */
  class SocketModule {
    var io: Io?

    constructor ()
      ensures io == null
    {
      io := null;
    }

    /** `initSocket(server)`: the first call creates the server and records it in
        the module and on `server.io`; later calls return that same instance and
        touch nothing. */
    method InitSocket(server: HttpServer) returns (r: Io)
      modifies this, server
      ensures old(io) != null ==> r == old(io) && io == old(io) && server.io == old(server.io)
      ensures old(io) == null ==>
        && fresh(r) && io == r && server.io == r
        && r.Valid() && r.rooms == map[] && r.sockets == {}
    {
      if io != null {
        return io;
      }
      var created := new Io();
      io := created;
      server.io := created;
      r := created;
    }

    /** `getIO()`: the stored instance, or the error thrown before `initSocket`. */
    function GetIO(): (r: Result<Io, string>)
      reads this
      ensures r.Success? <==> io != null
      ensures r.Success? ==> r.value == io
      ensures r.Failure? ==> r.error == NotInitialised
    {
      if io == null then Failure(NotInitialised) else Success(io)
    }

    /** The API route: initialise only when `server.io` is absent. If the module
        already holds an instance (set up for another server object),
        `initSocket` returns it and `server.io` stays absent. */
    method SocketHandler(server: HttpServer)
      modifies this, server
      ensures old(server.io) != null ==> io == old(io) && server.io == old(server.io)
      ensures old(server.io) == null && old(io) == null ==>
        && io != null && fresh(io) && server.io == io && io.Valid() && io.rooms == map[]
      ensures old(server.io) == null && old(io) != null ==> io == old(io) && server.io == null
    {
      if server.io == null {
        var _ := InitSocket(server);
      }
    }
  }

  /** Calling `initSocket` twice yields one instance. */
  method InitTwice(m: SocketModule, server: HttpServer) returns (first: Io, second: Io)
    modifies m, server
    ensures first == second && m.io == first
    ensures m.GetIO() == Success(first)
  {
    first := m.InitSocket(server);
    second := m.InitSocket(server);
  }

  /** The acknowledgement of a successful join. */
  function JoinAck(r: RoomId): Payload
  {
    map[
      "success" := Bool(true),
      "salaId" := Str(r),
      "message" := Str("Unido a la sala " + r + " correctamente")
    ]
  }

  /** `unirse-sala`: reject a missing room id; otherwise join it without leaving
      any earlier room and acknowledge through the callback. Without a callback
      the call to it throws after the join, so nothing is acknowledged. */
  method OnJoin(io: Io, s: SocketId, salaId: Value, hasCallback: bool) returns (ack: Option<Payload>)
    requires io.Valid() && s in io.sockets
    requires RoomArgument(salaId)
    modifies io
    ensures io.Valid() && io.sockets == old(io.sockets)
    ensures !Truthy(salaId) ==>
      && io.rooms == old(io.rooms)
      && ack == (if hasCallback then Some(map["success" := Bool(false), "error" := Str(RoomRequired)]) else None)
    ensures Truthy(salaId) ==>
      && io.rooms == Relay.Joined(old(io.rooms), s, salaId.s)
      && RoomsOf(io.rooms, s) == RoomsOf(old(io.rooms), s) + {salaId.s}
      && ack == (if hasCallback then Some(JoinAck(salaId.s)) else None)
  {
    if !Truthy(salaId) {
      ack := if hasCallback then Some(map["success" := Bool(false), "error" := Str(RoomRequired)]) else None;
      return;
    }
    JoinedRooms(io.rooms, s, salaId.s);
    io.Join(s, salaId.s);
    ack := if hasCallback then Some(JoinAck(salaId.s)) else None;
  }

  /** Two joins leave the socket in both rooms. */
  lemma JoinsAccumulate(rooms: Rooms, s: SocketId, r1: RoomId, r2: RoomId)
    ensures {r1, r2} <= RoomsOf(Relay.Joined(Relay.Joined(rooms, s, r1), s, r2), s)
  {
    JoinedRooms(rooms, s, r1);
    JoinedRooms(Relay.Joined(rooms, s, r1), s, r2);
  }

  /** `timbre`: forward the payload unchanged to every member of `data.destino`
      other than the sender, once each. `destino` is not checked. */
  method OnTimbre(io: Io, s: SocketId, data: Payload) returns (ds: seq<Delivery>)
    ensures ExactlyOnce(ds, Addressed(io.rooms, Get(data, "destino")) - {s}, "timbre", data)
    ensures forall i :: 0 <= i < |ds| ==> ds[i].to != s
  {
    ds := Broadcast(Addressed(io.rooms, Get(data, "destino")) - {s}, "timbre", data);
    forall i | 0 <= i < |ds| ensures ds[i].to != s {
      assert ds[i].to in Recipients(ds);
    }
  }
}
