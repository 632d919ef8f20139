# Doorbell relay: a Dafny model of the server side

The system is a web doorbell. Visitors and door panels connect to a socket.io
server inside a Next.js application. Each device joins a *room* (a "sala")
named after a door. A `timbre` (doorbell ring) sent to a room reaches the
devices in that room. An HTTP endpoint can also ring a room.

This project models the three server-side files that implement that relay:

- `pages/api/socket.js` (module `PagesSocket`). This is the API route that:
  - starts the socket.io server once;
  - greets each new connection;
  - handles `unirse-sala` (join a room, leaving the previous one);
  - handles `timbre` (relay a ring to the other members and echo a marked copy to the sender);
  - handles `disconnect` (tell the remaining room members).
- `pages/api/sendTimbre.js` (module `SendTimbre`). This is the HTTP trigger. It runs a fixed chain of checks (405, then 400, then 500 when the socket server is not started, then 404) and then rings every member of the room. An exception on the way answers 500.
- `lib/socket.js` (module `LibSocket`). This is an alternative set-up with:
  - a module-level singleton `initSocket`;
  - `getIO`;
  - its own `socketHandler`;
  - a join that keeps earlier rooms;
  - a `timbre` forwarded unchanged to `data.destino`.

The supporting modules are:

- `Json` models the JavaScript values the handlers see: `undefined`, `null`, booleans, integers, strings and objects. It also models truthiness (`!x`), the text a value gives inside a template literal, and which values make that conversion throw (`Interpolable`).
- `Relay` is an abstract model of socket.io's room adapter. The adapter's state is a map from room id to the set of member socket ids, plus the set of connected sockets. The model assumes, and its class `Io` maintains, the following (`WellFormed`):
  - every connected socket is a member of the room named after its own id;
  - a room with no members is absent from the map;
  - every member of a room is connected.

  The two ways of emitting an event are modelled this way:
  - `socket.to(r).emit` delivers to the members of `r` other than the sender (a simplification noted under "Left out");
  - `io.to(r).emit` delivers to all members.

  Deliveries are a returned sequence of `(recipient, event, payload)` triples. `Broadcast` builds that sequence with one delivery per recipient.

  When a socket closes, the adapter removes it from all its rooms before any `disconnect` listener runs. socket.io's close path leaves all rooms before it emits `disconnect`.

Timestamps (`new Date().toISOString()`) are an opaque `now` parameter, with one value per handler call.

## Model

| member | source | states |
|---|---|---|
| Relay.Io.Accept | pages/api/socket.js:43 | a new connection joins the room named after its own id; the adapter invariant is kept |
| Relay.Io.Join | pages/api/socket.js:79 | `socket.join(r)` adds the socket to `r` (creating the room if needed); the adapter invariant is kept |
| Relay.Io.Leave | pages/api/socket.js:73 | `socket.leave(r)` removes the socket from `r` and deletes `r` when it becomes empty; the invariant is kept |
| Relay.Io.Close | pages/api/socket.js:122 | a closing socket leaves every room and is no longer connected; the invariant holds over the remaining sockets |
| Relay.JoinedRooms | lib/socket.js:47 | after a join, the joiner's rooms are its earlier rooms plus `r`; every other socket's rooms are unchanged |
| Relay.LeftRooms | pages/api/socket.js:73 | after a leave, the leaver's rooms lose exactly `r`; every other socket's rooms are unchanged |
| Relay.LeftAllRooms | pages/api/socket.js:71-75 | leaving a set of rooms removes exactly that set from the leaver's rooms and touches nobody else; `LeftAllStep` shows that leaving them one at a time, as the `forEach` does, ends in the same map |
| Relay.JoinedWellFormed | pages/api/socket.js:79 | joining any room keeps every connected socket in its own room, every room non-empty, and every member connected |
| Relay.AcceptedWellFormed | pages/api/socket.js:43 | admitting a new socket into its own room keeps the adapter invariant over the enlarged socket set |
| Relay.LeftWellFormed | pages/api/socket.js:73 | leaving a room other than one's own keeps the adapter invariant |
| Relay.PurgedWellFormed | pages/api/socket.js:122 | after a socket closes, the invariant holds without it, it is in no room, and other sockets' rooms are unchanged |
| Relay.Broadcast | pages/api/socket.js:115 | every addressed socket receives the event exactly once, and nobody else receives it |
| PagesSocket.SocketHandler | pages/api/socket.js:4-40 | if `server.io` exists, it is kept and nothing is created; otherwise a fresh, empty, well-formed server is stored in it |
| PagesSocket.OnConnection | pages/api/socket.js:43-51 | the new socket is connected in its own room and receives exactly one `welcome` |
| PagesSocket.OnJoin | pages/api/socket.js:54-97 | a falsy room id changes nothing, sends nothing, and acks `{success:false, error}` when a callback exists; otherwise the joiner ends in exactly its own room and the new one, and only the joiner gets the response, by callback and by `unirse-sala-response` |
| PagesSocket.JoinedAloneRooms | pages/api/socket.js:69-79 | a join leaves every earlier room except the own-id room and adds the new one; other sockets' rooms do not change |
| PagesSocket.JoinedAloneWellFormed | pages/api/socket.js:69-79 | a join keeps the adapter invariant (so the own-id room is never left), and the joiner's rooms become exactly `{own id, room}` |
| PagesSocket.RejoinUnchanged | pages/api/socket.js:69-79 | joining the room the socket is already in leaves the room map exactly as it was |
| PagesSocket.JoinedAloneSingleRoom | pages/api/socket.js:69-79 | every socket is in at most one room besides its own before a join, and still is after it |
| PagesSocket.AcceptedSingleRoom | pages/api/socket.js:43 | a new connection keeps every socket in at most one room besides its own |
| PagesSocket.PurgedSingleRoom | pages/api/socket.js:122 | a disconnection keeps every remaining socket in at most one room besides its own |
| PagesSocket.SwitchRooms | pages/api/socket.js:69-79 | joining r1 and then r2 leaves the socket in r2 and no longer in r1 |
| PagesSocket.EventData | pages/api/socket.js:108-112 | the relayed event has the client's fields plus `timestamp` and `from`; every other field is kept, `from` is the sender and `timestamp` is the current time |
| PagesSocket.SenderCopy | pages/api/socket.js:118 | the sender's copy is the relayed event with `isSender: true` added and nothing else changed |
| PagesSocket.OnTimbre | pages/api/socket.js:100-119 | without a truthy `data.room`, nothing is delivered; nor when `data.room` is an object whose own `toString` makes the log line at 114 throw before either emit; otherwise every other member of the room gets the event exactly once and the sender gets exactly one marked copy, last; membership is not modified |
| PagesSocket.NotifyRooms | pages/api/socket.js:126-133 | the notices sent are exactly one `usuario-desconectado` per listed room and remaining member, with no duplicates and none when no room is listed |
| PagesSocket.OnDisconnectAsWritten | pages/api/socket.js:122-134 | as written: the socket is removed from every room and no notice is ever sent |
| PagesSocket.DisconnectNoticeNeverSent | pages/api/socket.js:126 | for any room map, the rooms read inside the `disconnect` listener yield no notices |
| PagesSocket.DisconnectNoticeLost | pages/api/socket.js:126-133 | with `a` and `b` sharing room `r1`, `b` is owed a notice when `a` leaves, but the as-written listener owes none |
| PagesSocket.OnDisconnect | pages/api/socket.js:122-134 | corrected: each remaining member of each non-own room of the departing socket is told once, then the socket leaves every room |
| SendTimbre.Handle | pages/api/sendTimbre.js:2-66 | these hold whatever the body or engine: non-POST gets 405; then an undefined or null body gets 500 "Error interno del servidor"; then a missing `salaId` gets 400; then an unstarted engine gets 500; then a `salaId` that cannot be written into the log line (an object with its own `toString`) gets 500 "Error interno del servidor"; then an unknown room gets 404, listing exactly the existing rooms (so never `salaId`); the 405, 400 and 404 bodies carry the source's error texts, the 404 naming the requested room; otherwise 200 with `Rung`, and one emission to every member, sender included, carrying `salaId`, `origen: sendTimbre-API` and the timestamp; only a 200 emits |
| SendTimbre.Handler | pages/api/sendTimbre.js:28-58 | the route answers as `Handle` decides and delivers the emission exactly once to each member; it modifies no state, so membership never changes |
| SendTimbre.LastMemberGone | pages/api/sendTimbre.js:32-39 | once the only member of a room disconnects, a trigger for that room gets 404 |
| LibSocket.SocketModule.InitSocket | lib/socket.js:5-27 | a second call returns the stored instance and changes nothing; the first call creates one empty server and stores it in the module and on `server.io` |
| LibSocket.InitTwice | lib/socket.js:5-9 | two calls to `initSocket` return the same instance, which `getIO` then returns |
| LibSocket.SocketModule.GetIO | lib/socket.js:85-90 | fails with the "no ha sido inicializado" error exactly when no instance is stored; otherwise returns that instance |
| LibSocket.SocketModule.SocketHandler | lib/socket.js:92-100 | initialises only when `server.io` is absent; a present `server.io` is left as is |
| LibSocket.OnJoin | lib/socket.js:41-56 | a falsy room id acks `{success:false}` and joins nothing; otherwise the socket is added to the room, keeps all its earlier rooms, and the ack is `{success:true, salaId, message}` |
| LibSocket.JoinsAccumulate | lib/socket.js:47 | after joining r1 and then r2, the socket is in both |
| LibSocket.OnTimbre | lib/socket.js:59-63 | the payload is delivered unchanged, exactly once, to every member of `data.destino` except the sender; `destino` is not validated |

## Left out

- socket.io itself is not part of this model. Engine.IO transports, CORS, ping, upgrade and connect timeouts, buffer sizes and compression are configuration only. The room adapter is modelled abstractly through the assumptions stated above.
- Server shutdown is not modelled: the HTTP server's `close` listener calls `io.close()`, which disconnects every socket (pages/api/socket.js:34-37).
- lib/socket.js's `disconnect`, `error` and `connection_error` listeners only log. They are not modelled.
- Console logging is not modelled, and neither is the error detail (`details: error.message`) of the generic 500 in sendTimbre. `SendTimbre.Handle` covers the two exceptions its body can throw on the values modelled here: destructuring an `undefined` or `null` body, and writing a `salaId` that is an object with its own `toString` into the log line. Both give 500 "Error interno del servidor".
- `salasDisponibles` is a set of room ids. The order of `[...rooms.keys()]` is not modelled.
- Room ids are strings. A truthy non-string `salaId` in a join, such as a number, an object or an array, is excluded by `RoomArgument`. socket.io would key such a room by the value itself, or treat an array as a list of rooms. Because every room key is then a string, a room id in `timbre` or in the HTTP trigger that is not a string matches no room, and the model addresses nobody with it.
- JSON arrays are not modelled: `Json.Value` has no array case. socket.io's `to()` accepts an array and addresses every room it lists, so a non-empty array `data.room` (pages/api/socket.js:115) or `data.destino` (lib/socket.js:62) would reach the members of every room it lists. An empty array is truthy and prints as the empty string, so `{room: []}` passes pages/api/socket.js:102 and :114. `socket.to([])` then hands the adapter an empty set of rooms, which it reads as every connected socket. The ring would reach every device but the sender, and `{destino: []}` at lib/socket.js:62 does the same.
- SendTimbre.Handle: the 404 text is exact for a numeric `salaId` only when its magnitude is at most 2^53. `Json.Display` writes every integer out in full. JavaScript numbers are doubles: above 2^53 JavaScript prints the shortest digits that read back as the same double, padded with zeros (`${2**64}` is "18446744073709552000"), and from 10^21 on it uses exponent form (`${1e21}` is "1e+21"). The status, the room list and the deliveries do not depend on this text.
- Numbers are integers. Floating-point values, `NaN` and `-0` are not modelled, so their truthiness is not either.
- The `timbre` payload is an object. A string, number or boolean `data` has no `room` or `destino` property and reads it as `undefined`, so it behaves like an empty payload. pages/api/socket.js:102-104 then returns without sending, and `socket.to(undefined)` at lib/socket.js:62 reaches nobody. Only a `null` or `undefined` `data` makes the property read throw inside the listener; that case is not modelled.
- PagesSocket.OnJoin and LibSocket.OnJoin: when no callback is given, the model returns no acknowledgement. For lib/socket.js it does not model the `TypeError` thrown by calling the missing callback. With a truthy `salaId` the throw comes after the join (lib/socket.js:51). With a falsy one it comes from `return callback(...)` at lib/socket.js:44, before anything is joined. In both cases nothing is sent.
- The `connection` handler of lib/socket.js sends the same `welcome` as pages/api/socket.js. It is covered by PagesSocket.OnConnection and is not modelled twice.
- Each handler call uses one timestamp. The source calls `new Date()` separately for each payload.
- PagesSocket.OnTimbre and LibSocket.OnTimbre: `socket.to(r)` is modelled as reaching every member of `r` but the sender. socket.io in fact passes the sender's id as a room to exclude, so it skips every member of the room named after the sender. A socket that joined a room named after another socket's id through `unirse-sala` would not get that socket's `timbre`, but the model delivers to it.
- Concurrency, reconnection, and the order in which deliveries leave the server are not modelled. Each handler runs atomically on the room map.

## Findings

| source | as written | input that shows it | evidently intended | confidence | as-written member | corrected member |
|---|---|---|---|---|---|---|
| pages/api/socket.js:122-133 | the `disconnect` listener reads `socket.rooms`, but socket.io has already removed the socket from every room when that event fires | sockets `a` and `b` both in room `r1`; `a` disconnects; `b` is never told `usuario-desconectado` | read the rooms while the socket is still a member, as a `disconnecting` listener does, and notify each remaining member of each of those rooms | not executed; rests on socket.io leaving all rooms before it emits `disconnect` | PagesSocket.OnDisconnectAsWritten | PagesSocket.OnDisconnect |
