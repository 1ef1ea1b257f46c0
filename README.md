# Signalling relay model

A Dafny model of the signalling server of a small browser video-call app
(`server.js`). The server keeps one module-level list of connected sockets.
Each socket is tagged with a generated id. The server reacts to three events:

- **connection**: the socket gets an id and is appended to the list.
- **message**: the frame is parsed as JSON. A `join` is announced as
  `new-peer` to every other socket, and then answered with `existing-peers`.
  An `offer`, `answer` or `ice` is forwarded unchanged to the first socket
  whose id equals its `to` field.
- **close**: the socket is removed from the list, and every remaining socket
  is sent `peer-left`.

Node runs each handler to completion, so each event is one atomic method of
the class `Signaling.Relay`. The class has three fields:

- `clients`: the list of sockets.
- `ids`: the `id` property each socket carries. It is set on connection and
  still readable after close.
- `log`: every `send`, in order.

Files:

- `protocol.dfy` (module `Protocol`): connection handles, messages, parse
  results and sends.
- `registry.dfy` (module `Registry`): the pure lookups of the handlers.
  These are `filter` (`Others`), `map` (`IdsOf`) and `find` (`FirstWithId`),
  plus the fan-out of one message (`Broadcast`) and what one connection
  receives from a run of sends (`Received`).
- `signaling.dfy` (module `Signaling`): the class `Relay` and its handlers.
  The handlers' loops mirror the `forEach` sends. Their contracts equate the
  new log with the old log followed by `Reaction` (message handler) or
  `CloseSends` (close handler). Each `forEach` is its own method
  (`AnnounceJoin`, with its callback `AnnounceTo`, and `SendToAll`).
- `properties.dfy` (module `SignalingProperties`):
  - what `Reaction` and `CloseSends` deliver to whom, how often and in which
    order;
  - a two-browser session run through the class.
- `null_input.dfy` (module `NullInput`): the handler as written for the frame
  `null` (see Findings).

The protocol the code implements is smaller than a full signalling protocol
would be, and the model keeps it as the code has it:

- No `your-id` message is sent.
- `join` stores no display name.
- `existing-peers` carries ids only. It lists every connected socket except
  the joiner, including sockets that have not sent `join` yet.
- Forwarded messages are sent exactly as received. The relay does not set
  `from`.
- Ids are not guaranteed unique, so no freshness of ids is assumed.
  Forwarding goes to the first matching socket.

## Model

| member | source | states |
|---|---|---|
| Registry.Others | server.js:36 | the filtered list holds a connection exactly when the input list holds it and it is not the excluded socket; it is never longer than the input |
| Registry.IdsOf | server.js:23 | the mapped list has one entry per listed connection, and entry k is the id of connection k |
| Registry.FirstWithId | server.js:29 | when it finds something, the position holds a connection whose id equals `to`, and no earlier position does; it finds nothing exactly when no listed connection has that id |
| Registry.Broadcast | server.js:38 | one send per target, in target order, each carrying the same message |
| Registry.OthersAppend | server.js:36 | filtering distributes over concatenation, so the kept entries stay in their relative order |
| Registry.OthersAbsent | server.js:36 | filtering out a socket that is not listed leaves the list unchanged |
| Registry.OthersRemovesAt | server.js:36 | in a list without repeats, filtering removes exactly the socket's one entry, keeps the rest in order, and shortens the list by one |
| Registry.OthersNoDup | server.js:36 | filtering keeps a list free of repeated connections |
| Registry.ReceivedBroadcast | server.js:19-21 | a fan-out over a list without repeats gives each listed connection the message exactly once and gives unlisted connections nothing |
| Signaling.JoinSends | server.js:19-24 | the `join` sends are one per other listed connection plus one; every send but the last is `new-peer` with the joiner's id and name to a listed connection other than the joiner; the last is `existing-peers` to the joiner, listing the ids of the other connections |
| Signaling.ForwardSends | server.js:28-31 | at most one send, and any send is the message unchanged to a listed connection whose id is its `to`; nothing is sent exactly when no listed connection has that id |
| Signaling.Reaction | server.js:13-32 | every send of the message handler goes to a listed connection or back to the sender; a frame that does not parse, or parses to `null`, sends nothing |
| Signaling.CloseSends | server.js:36-38 | one send per connection left after removing the closing socket, each `peer-left` with the closed socket's id to a listed connection other than the closing one |
| Signaling.Relay.constructor | server.js:6 | the server starts with an empty client list and no sends |
| Signaling.Relay.Deliver | server.js:30 | one `send` appends exactly that recipient and message to the log and changes nothing else |
| Signaling.Relay.OnConnect | server.js:8-10 | exactly one new socket is appended at the end of the list and given its id; earlier entries are unchanged, nothing is sent, and the list stays free of repeats |
| Signaling.Relay.OnMessage | server.js:13-32 | the list and the ids are unchanged; the log grows by exactly the sends of `Reaction` for that frame, in order |
| Signaling.Relay.AnnounceJoin | server.js:19-21 | the list and the ids are unchanged; the log grows by the announcement to every listed socket except the joiner, in list order |
| Signaling.Relay.AnnounceTo | server.js:20 | the announcement is sent to the socket exactly when it is not the joiner; nothing else changes |
| Signaling.Relay.OnClose | server.js:34-39 | the list becomes the old list without the closing socket (matched by socket); the log grows by one `peer-left` with the closed socket's id per remaining socket, in list order |
| Signaling.Relay.SendToAll | server.js:38 | the list and the ids are unchanged; the log grows by the message to every listed socket, in list order |
| Registry.FanoutStep | server.js:19-21 | one more entry in the list adds one more send to the fan-out over the filtered list exactly when that entry is not the excluded socket |
| SignalingProperties.JoinNotifiesEachOther | server.js:19-21 | on `join`, every other listed connection receives exactly one message, `new-peer` with the joiner's id and the `name` as sent |
| SignalingProperties.JoinRepliesToJoiner | server.js:23-24 | on `join`, the joiner receives no `new-peer` and exactly one `existing-peers` carrying the ids of the other listed connections |
| SignalingProperties.JoinReplyComesLast | server.js:19-24 | the `join` sends are one `new-peer` per other connection in list order, none to the joiner, followed by the `existing-peers` reply as the last send |
| SignalingProperties.ExistingPeersInListOrder | server.js:23 | the peer list is the ids of the entries before the joiner's, then of those after it, in list order; only the joiner's own entry is left out |
| SignalingProperties.ExistingPeersWhenUnlisted | server.js:23 | a `join` from a socket that is no longer listed is answered with the ids of the whole list |
| SignalingProperties.ForwardReachesFirstMatch | server.js:28-31 | an `offer`/`answer`/`ice` whose `to` first matches the connection at position k is sent exactly once, unchanged, to that connection, and nothing else is sent |
| SignalingProperties.ForwardWithoutTargetIsDropped | server.js:29-30 | when no listed connection has the `to` id, nothing is sent, and in particular no error goes back to the sender |
| SignalingProperties.SilentExactlyWhenUnusable | server.js:15-31 | a frame sends nothing exactly when it does not parse, is `null`, has a type other than the four handled ones, or is a signal with no listed target |
| SignalingProperties.ClosedConnectionHearsNothing | server.js:19-30 | a connection no longer in the list receives nothing from any frame another connection sends |
| SignalingProperties.CloseNotifiesEachRemaining | server.js:36-38 | on close, each remaining connection receives exactly one `peer-left` with the closed id; the closed connection and unlisted ones receive nothing |
| SignalingProperties.TwoPeerSession | server.js:8-39 | X connects and joins, Y connects and joins, Y offers to X, X closes, then Y's offer to X and a garbled frame are dropped; the log is exactly `existing-peers []` to X, `new-peer` Y to X, `existing-peers [X]` to Y, the offer to X, then `peer-left` X to Y |
| NullInput.ReactionAsWritten | server.js:15-17 | as written, the handler throws exactly on the frame `null`; when it completes, every send goes to a listed connection or back to the sender |
| NullInput.NullThrowsAsWritten | server.js:15-17 | as written, the frame `null` parses and then makes the handler throw |
| NullInput.CorrectedDropsNull | server.js:15-17 | the corrected handler drops `null` like an unparseable frame, and agrees with the code as written on every other frame |

## Findings

| source | as written | input that shows it | evidently intended | confidence | as-written member | corrected member |
|---|---|---|---|---|---|---|
| server.js:15-17 | `JSON.parse` returns `null` for the frame `null`, and reading `data.type` on it throws a TypeError that nothing catches, so the server process stops | the raw frame `null` | drop the frame silently, as the `try`/`catch` does for unparseable input | not executed; medium: the TypeError is certain; that it stops the process assumes no process-wide exception handler, and none is installed | NullInput.NullThrowsAsWritten | NullInput.CorrectedDropsNull |

## Left out

- The browser side (`room.js`) is not part of this model. It holds DOM video elements, media capture, peer-connection negotiation, the speaking detector and its button handlers, all of which depend on browser APIs.
- The WebSocket server library, the port binding and the start-up log line (server.js:3-4, 42) are not modelled. `send` appends to the log, and whether the message reaches the socket is not modelled.
- `JSON.parse` and `JSON.stringify` are not modelled. Parsing is the input type `Parsed`, and serialisation is the identity on `Msg`. The `name` field and all forwarded fields except `to` are kept as opaque JSON text. A `to` field that is absent or not a string is `None`, and no id can equal it.
- Id generation with `Math.random().toString(36)` (server.js:9) is not modelled. The id is a parameter of `OnConnect`, and nothing is assumed about it, not even that it differs from other ids.
- Concurrency, socket errors and delivery failure are not modelled. Node runs each handler to completion, so each event is one atomic method.
- Signaling.Relay.OnConnect: it requires that the socket is not already listed. The server library creates a new socket object for every connection, so the code never sees a listed socket here. Under this requirement the list never holds a socket twice.
- Signaling.Relay.OnMessage: it models the corrected handler, which drops the frame `null`. The code as written throws on that frame; `NullInput.ReactionAsWritten` models that behaviour (see Findings).
- NullInput.ReactionAsWritten: the uncaught TypeError is shown as the outcome `Threw`. What the process does afterwards (stop, drop every connection) is not modelled.
