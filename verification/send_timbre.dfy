/** The HTTP trigger (pages/api/sendTimbre.js): a POST naming a room rings
    every socket in that room. The answer is decided by a fixed chain of checks;
    the room map is only read. */
module SendTimbre {
  import opened Wrappers
  import opened Json
  import opened Relay

  /** The parts of the request the handler looks at: `req.method` and `req.body`. */
  datatype Request = Request(verb: string, body: Value)

  /** The JSON bodies the handler answers with. */
  datatype Body =
    | Failed(error: string)
    | RoomNotFound(error: string, salasDisponibles: set<RoomId>)
    | Rung(message: string, salaId: Value, timestamp: string)

  /** `io.to(room).emit(event, payload)`: every socket in `to` receives the event. */
  datatype Emission = Emission(to: set<SocketId>, event: string, payload: Payload)

  /** The status code, the body, and the emission made before answering, if any. */
  datatype Reply = Reply(status: int, body: Body, emit: Option<Emission>)

  const NotAllowed := "Método no permitido"
  const RoomRequired := "Se requiere el ID de la sala"
  const NotStarted := "Servidor de WebSocket no inicializado"
  const InternalError := "Error interno del servidor"
  const Rang := "Timbre activado correctamente"

  /** `const { salaId } = req.body` throws exactly when the body is undefined or null. */
  predicate Destructurable(body: Value)
  {
    !body.Undefined? && !body.Null?
  }

  /** `req.body.salaId`; a primitive body has no such property. */
  function SalaId(body: Value): Value
  {
    if body.Obj? then Get(body.fields, "salaId") else Undefined
  }

  /** The room key a request names, when the adapter could have it. */
  predicate Names(salaId: Value, rooms: Rooms)
  {
    salaId.Str? && salaId.s in rooms
  }

  /** The doorbell event the trigger emits. */
  function Ring(salaId: Value, now: string): Payload
  {
    map[
      "timestamp" := Str(now),
      "message" := Str("¡Alguien está en la puerta!"),
      "salaId" := salaId,
      "origen" := Str("sendTimbre-API")
    ]
  }

  /** The handler's decision. `engine` is `res.socket.server.io`: None before the
      socket server was started, otherwise its adapter's rooms. */
  function Handle(req: Request, engine: Option<Rooms>, now: string): (reply: Reply)
    // 405 comes first, whatever the body and the engine.
    ensures reply.status == 405 <==> req.verb != "POST"
    // Destructuring an undefined or null body throws, and so does logging a room
    // id that cannot be converted to text; the catch answers 500 for both.
    ensures reply.body == Failed(InternalError) <==>
      req.verb == "POST" &&
      (!Destructurable(req.body) || (Truthy(SalaId(req.body)) && engine.Some? && !Interpolable(SalaId(req.body))))
    // A missing room id is reported even when the engine is not started.
    ensures reply.status == 400 <==>
      req.verb == "POST" && Destructurable(req.body) && !Truthy(SalaId(req.body))
    ensures reply.body == Failed(NotStarted) <==>
      req.verb == "POST" && Destructurable(req.body) && Truthy(SalaId(req.body)) && engine.None?
    ensures reply.status == 404 <==>
      req.verb == "POST" && Destructurable(req.body) && Truthy(SalaId(req.body))
      && engine.Some? && Interpolable(SalaId(req.body)) && !Names(SalaId(req.body), engine.value)
    // The 404 lists exactly the rooms that exist, so never the one asked for.
    ensures reply.status == 404 ==>
      && reply.body.RoomNotFound?
      && reply.body.salasDisponibles == engine.value.Keys
      && !(SalaId(req.body).Str? && SalaId(req.body).s in reply.body.salasDisponibles)
    ensures reply.status == 200 <==>
      req.verb == "POST" && Truthy(SalaId(req.body)) && engine.Some? && Names(SalaId(req.body), engine.value)
    // Only a success rings, and it rings every member: nobody is excluded.
    ensures reply.emit.Some? <==> reply.status == 200
    ensures reply.status == 200 ==>
      && reply.emit.value.to == engine.value[SalaId(req.body).s]
      && reply.emit.value.event == "timbre"
      && Get(reply.emit.value.payload, "salaId") == SalaId(req.body)
      && Get(reply.emit.value.payload, "origen") == Str("sendTimbre-API")
      && Get(reply.emit.value.payload, "timestamp") == Str(now)
      && reply.body == Rung(Rang, SalaId(req.body), now)
    // The bodies of the refusals, as the source writes them.
    ensures reply.status == 405 ==> reply.body == Failed(NotAllowed)
    ensures reply.status == 400 ==> reply.body == Failed(RoomRequired)
    ensures reply.status == 404 ==>
      && Interpolable(SalaId(req.body))
      && reply.body.error == "La sala " + Display(SalaId(req.body)) + " no existe o no tiene clientes conectados"
    ensures reply.status in {200, 400, 404, 405, 500}
  {
    if req.verb != "POST" then
      Reply(405, Failed(NotAllowed), None)
    else if !Destructurable(req.body) then
      Reply(500, Failed(InternalError), None)
    else
      var salaId := SalaId(req.body);
      if !Truthy(salaId) then
        Reply(400, Failed(RoomRequired), None)
      else if engine.None? then
        Reply(500, Failed(NotStarted), None)
      else if !Interpolable(salaId) then
        Reply(500, Failed(InternalError), None)
      else if !Names(salaId, engine.value) then
        Reply(404, RoomNotFound("La sala " + Display(salaId) + " no existe o no tiene clientes conectados",
                                engine.value.Keys), None)
      else
        Reply(200, Rung(Rang, salaId, now), Some(Emission(engine.value[salaId.s], "timbre", Ring(salaId, now))))
  }

  /** What the handler finds at `res.socket.server.io`. */
  function Engine(server: HttpServer): Option<Rooms>
    reads server, server.io
  {
    if server.io == null then None else Some(server.io.rooms)
  }

  /** The route: decide, then deliver the emission, if any, to each addressed
      socket once. It modifies nothing, so no request changes room membership. */
  method Handler(server: HttpServer, req: Request, now: string) returns (status: int, body: Body, ds: seq<Delivery>)
    ensures var reply := Handle(req, Engine(server), now);
      && status == reply.status && body == reply.body
      && (reply.emit.None? ==> ds == [])
      && (reply.emit.Some? ==> ExactlyOnce(ds, reply.emit.value.to, reply.emit.value.event, reply.emit.value.payload))
  {
    var reply := Handle(req, Engine(server), now);
    status, body := reply.status, reply.body;
    if reply.emit.Some? {
      ds := Broadcast(reply.emit.value.to, reply.emit.value.event, reply.emit.value.payload);
    } else {
      ds := [];
    }
  }

  /** Scenario: the only member of r disconnects; a trigger for r is then refused with 404. */
  lemma LastMemberGone(rooms: Rooms, sockets: set<SocketId>, a: SocketId, r: RoomId, now: string)
    requires WellFormed(rooms, sockets) && a in sockets && r != ""
    requires Members(rooms, r) == {a}
    ensures Handle(Request("POST", Obj(map["salaId" := Str(r)])), Some(Purged(rooms, a)), now).status == 404
  {
    assert rooms[r] - {a} == {};
    assert r !in Purged(rooms, a);
  }
}
