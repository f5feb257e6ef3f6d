# konke-ha-proxy: frame codec, message router and command gateway

This project models the core of a bridge between a vendor home-automation
gateway and a Home Assistant instance. The gateway speaks a delimiter-framed
TCP protocol. Each message is `!`, then a JSON object, then `$`. The bridge:

- logs in and then asks every configured device for its state;
- splits what it reads into frames and dispatches each message by opcode;
- for SWITCH reports, records the raw token for the node, normalises it to
  `on`/`off`, finds the entity the node belongs to in the device registry,
  and posts the state to Home Assistant only when it differs from what was
  last posted;
- accepts REST commands (`POST /switch/{id}`, `POST /curtain/{id}`). Each one
  sends a SWITCH message and optimistically records the token. The matching
  GETs answer from that cache.

The modules follow the components of `proxy.go`:

- `wrappers.dfy`: `Option`.
- `protocol.dfy`: the `Message` record with its tagged `Arg`
  (`StringArg | ObjectArg | NullArg`) and the QUERY and SWITCH messages the
  bridge builds.
- `framing.dfy`: the frame codec. Outbound framing (`Frame`, `Wire`),
  Go's `strings.Split` on `$` (`Split`, with its inverse `Join`), fragment
  decoding, the imperative `ParseMessages` loop, and the lemmas connecting
  them.
- `decimal.dfy`: `strconv.Itoa` on device indices, with its inverse `Value`.
- `routing.dfy`: the handler table, normalisation, registry lookup and
  reconciler, as functions on a `Snapshot` of the mutable state (device map,
  entity map, notifications posted). Also the case-by-case lemmas about
  `handleSwitch`, and the invariant `Mirrors`: every recorded entity state is
  the last one posted for that entity, and nothing was posted for an entity
  that is not recorded.
- `gateway.dfy`: class `Proxy`. It holds the `devices` and `entity` maps,
  which its methods update in place, and the read-only registry and device
  count. Three ghost fields stand in for the outside world:
  - `sent`: the messages written to the gateway;
  - `written`: the bytes written to the socket;
  - `outbox`: the `(entity name, state)` pairs posted to Home Assistant.

  Its object invariant `Valid()` says that `written` is exactly the frames
  of `sent`, and that `Mirrors` holds. Each method's `ensures` ties the new
  state to a function or an expression of the old state: `SwitchEffect`,
  `Route` and `RouteAll` for the handlers, `Queries` for the initial poll,
  and the built message and the map update for the sends and the REST
  handlers.

The JSON body encoding is not modelled. A `Codec` holds two functions:
`marshal` from messages to strings, and `unmarshal` from strings to
`Option<Message>`. Round trips are proved for every message that satisfies
`RoundTrips`: its body parses back to it and holds no `$`.

Behaviour worth knowing:

- A SWITCH report with a string argument always overwrites `devices[node]`,
  even when the token is not one of ON/OPEN/OFF/CLOSE: an unrecognised token
  is not inert, because the write at `proxy.go:198` comes before the
  normalisation.
- Each read of the read loop returns one `$`-terminated piece of the stream
  (`proxy.go:141`); the unread bytes stay in the reader, so clearing the
  buffer after each read (`proxy.go:148-150`) loses nothing. `PieceByPiece`
  states that parsing piece by piece equals parsing the whole stream.
  `ReceiveChunk` accepts an arbitrary chunk, which is more general than one
  read.
- The home-automation entity name is always `switch.` + entity id, curtains
  included (`proxy.go:228`).
- A registry entry that maps a node to the empty string maps the node to no
  entity (`proxy.go:218`). The registry lookup tests whether the key is
  present (`proxy.go:212-216`), so a curtain entry of `""` still hides a
  light entry for the same node.

## Model

| member | source | states |
|---|---|---|
| Framing.Frame | proxy.go:131 | a frame is the body with exactly one `!` before it and one `$` after it, two characters longer |
| Framing.WireAppend | proxy.go:131-132 | sending one more message appends exactly its frame to the bytes on the wire |
| Framing.Split | proxy.go:160 | strings.Split on `$` always yields at least one fragment (`[""]` for the empty buffer) |
| Framing.JoinSplit | proxy.go:160 | the fragments joined with `$` give back the buffer, so splitting loses nothing |
| Framing.SplitFragmentsClean | proxy.go:160 | no fragment contains `$` |
| Framing.SplitJoin | proxy.go:160 | joining `$`-free fragments and splitting again gives those fragments |
| Framing.SplitAt | proxy.go:160 | a `$`-free prefix is split off whole at the first `$` |
| Framing.DecodeFragment | proxy.go:163-166 | only a fragment starting with `!` can yield a message, and it yields what the parser makes of the rest after stripping that one `!` |
| Framing.ParseMessages | proxy.go:158-173 | the loop returns exactly `Parse(buffer)`: the decodable fragments' messages, in fragment order |
| Framing.ParseCons | proxy.go:158-173 | the first fragment is decoded on its own and its message, if any, comes before all others |
| Framing.ParseEmpty | proxy.go:160-163 | an empty buffer, or the empty fragment after a final `$`, gives no message |
| Framing.UnopenedFragmentDropped | proxy.go:163 | a fragment not starting with `!` contributes nothing, and the rest still parses |
| Framing.MalformedFrameDropped | proxy.go:166-168 | a frame whose body does not parse is dropped silently, and the rest still parses |
| Framing.FrameThenRest | proxy.go:158-173 | a frame at the front of a buffer contributes exactly its parsed body, ahead of the rest |
| Framing.PieceByPiece | proxy.go:141-150 | parsing a `$`-terminated piece and then the rest equals parsing both together, and one piece yields at most one message |
| Framing.ParseFramedBodies | proxy.go:158-173 | parsing `!b1$!b2$...` for `$`-free bodies gives exactly the bodies that parse, in order |
| Framing.WireRoundTrip | proxy.go:122-134 | the frames of a message sequence parse back to that sequence when each message survives encoding |
| Framing.SentinelInBodySplitsFrame | proxy.go:131 | a body containing `$` is never parsed whole: the reader sees two fragments |
| Decimal.Itoa | proxy.go:319 | the rendering is a non-empty string of digits with no leading zero |
| Decimal.ValueOfItoa | proxy.go:319 | reading a rendered index back gives the index |
| Decimal.ItoaInjective | proxy.go:319 | distinct indices give distinct node ids |
| Routing.HandlerFor | proxy.go:82-87 | exactly the opcodes CCU_HB, SYNC_INFO, SWITCH and LOGIN have handlers, each a different one |
| Routing.Lookup | proxy.go:222 | a Go map read: the stored value, or `""` for a missing key |
| Routing.Normalize | proxy.go:201-208 | ON/OPEN give `on`, OFF/CLOSE give `off`, and nothing else is accepted (both directions) |
| Routing.EntityFor | proxy.go:211-216 | the curtain mapping wins whenever the node is a curtain; lights are read only otherwise; `""` when neither map holds the node |
| Routing.Reconcile | proxy.go:222-228 | afterwards the record holds the state; an unchanged state changes nothing; a changed one updates the bare-id record and appends one notification under `switch.` + id |
| Routing.RouteAllAppend | proxy.go:152-154 | handling two batches of messages one after the other leaves the same state as handling them together |
| Routing.SwitchIgnoresNonString | proxy.go:193-196 | a non-string argument leaves devices, entity map and outbox unchanged |
| Routing.SwitchRecordsRaw | proxy.go:198 | any string argument is written raw into `devices[node]` |
| Routing.SwitchUnknownTokenInert | proxy.go:198-208 | an unrecognised token changes only `devices[node]` |
| Routing.SwitchUnmappedInert | proxy.go:211-220 | a node mapped nowhere, or mapped to `""`, changes only `devices[node]` |
| Routing.SwitchCurtainFirst | proxy.go:212-216 | for a curtain node, the light mapping has no influence on the outcome |
| Routing.EmptyCurtainEntryBlocksLights | proxy.go:211-220 | a node whose curtain entry is `""` changes only `devices[node]`, even when a light entry maps it |
| Routing.SwitchDeduplicates | proxy.go:222-225 | a state equal to the recorded one changes only `devices[node]` |
| Routing.SwitchNotifies | proxy.go:227-228 | a changed state updates `entity[id]` and appends exactly one notification `("switch." + id, state)` |
| Routing.SwitchIdempotent | proxy.go:191-229 | handling the same SWITCH report twice in a row equals handling it once, so at most one notification is posted |
| Routing.RouteOnlySwitchActs | proxy.go:175-189 | CCU_HB, SYNC_INFO, LOGIN and unknown opcodes leave all state unchanged |
| Routing.PrefixedNamesDiffer | proxy.go:228 | distinct entity ids get distinct sink names |
| Routing.ReconcileMirrors | proxy.go:222-228 | reconciling keeps every record equal to the last state posted for it, and posts only recorded entities |
| Routing.SwitchMirrors | proxy.go:191-229 | handleSwitch preserves that invariant |
| Routing.RouteMirrors | proxy.go:175-181 | dispatching any message preserves that invariant |
| Routing.RouteAllMirrors | proxy.go:148-154 | handling any sequence of messages preserves that invariant |
| Routing.RouteAllAppendsOnly | proxy.go:148-154 | handling messages only appends to the outbox, and only `on`/`off` are recorded or posted |
| Gateway.ReadLoopPieceByPiece | proxy.go:139-154 | handling one `$`-terminated piece and then the rest of the stream leaves the same state as handling the whole stream |
| Gateway.QueriesAt | proxy.go:317-332 | the k-th initial query is the QUERY for node `Itoa(k+1)` |
| Gateway.QueriesAscending | proxy.go:317-332 | the initial queries are `n` QUERY `*` messages from `HJ_Server` to ids `"1".."n"`, ascending and pairwise distinct |
| Gateway.Proxy.constructor | proxy.go:74-90 | a new proxy has empty maps and has sent and posted nothing |
| Gateway.Proxy.SendMessage | proxy.go:122-134 | the message is appended to `sent` and its frame to `written` |
| Gateway.Proxy.UpdateHomeAssistant | proxy.go:231-257 | one notification is appended to the outbox |
| Gateway.Proxy.HandleSwitch | proxy.go:191-229 | the new state is `SwitchEffect` of the old one, and the invariant holds |
| Gateway.Proxy.HandleMessage | proxy.go:175-189 | the new state is `Route` of the old one: only SWITCH acts |
| Gateway.Proxy.ReceiveChunk | proxy.go:148-154 | every message parsed from one read is handled, in order |
| Gateway.Proxy.HandleMessages | proxy.go:152-154 | the loop over one read's messages leaves the state `RouteAll` of the old one: each message handled once, in order |
| Gateway.Proxy.QueryNodeID | proxy.go:323-332 | exactly one QUERY message is sent |
| Gateway.Proxy.InitState | proxy.go:317-321 | exactly `max(0, DeviceCount)` queries are sent, as described by `Queries` |
| Gateway.Proxy.SendCommand | proxy.go:378-386 | one SWITCH command is sent and `devices[id] := arg` |
| Gateway.Proxy.PostSwitch | proxy.go:368-388 | it sends and records like SendCommand and returns `arg == "ON"` |
| Gateway.Proxy.GetSwitch | proxy.go:390-394 | true iff the cached token is `"ON"`; false for a never-seen id |
| Gateway.Proxy.PostCurtain | proxy.go:397-417 | it sends and records like SendCommand and returns `arg == "OPEN"` |
| Gateway.Proxy.GetCurtain | proxy.go:419-423 | true iff the cached token is `"OPEN"`; false for a never-seen id |
| Gateway.Proxy.WrittenDecodesToSent | proxy.go:122-134 | the bytes written parse back to the messages sent, when each survives encoding |
| Gateway.CommandIsReadBack | proxy.go:385-393 | for any token, a GET right after the POST returns the POST's own answer (`arg == "ON"` on /switch, `arg == "OPEN"` on /curtain) before any gateway report |

## Left out

- `connect`, `login`, `receive`'s socket reads (`bufio.ReadString`), and socket `Write`/`Close`: network I/O. The socket is modelled only as the `written` byte log, and reads only as the buffers handed to `ReceiveChunk`.
- Write and `json.Marshal` failures: `SendMessage` always succeeds. The source ignores the error in `queryNodeID` and in the REST handlers anyway. Not modelled either: when the first connect fails, `main` still serves REST (`proxy.go:360-362`) with no connection, so `p.conn.Write` (`proxy.go:132`) panics and the optimistic write at `proxy.go:386`/`415` never happens.
- `sendHeartbeat`, `handleDisconnect`, `reconnect`, `Start`, the goroutines, `time.Sleep` back-off and `sync.Mutex`: concurrency and timing. Only `sendMessage` and `handleDisconnect` take the lock: the REST handlers write `devices` (`proxy.go:386`, `415`) and `handleSwitch` writes `devices` and `entity` (`proxy.go:198`, `227`) on the receive goroutine without it; those data races are not modelled.
- `updateHomeAssistant`'s HTTP request, bearer token and status-code handling: a foreign HTTP client. It is replaced by one append to the ghost `outbox`. Failed posts are not modelled, so `Mirrors` describes the posts attempted.
- `encoding/json`: the `Codec` functions are parameters, and round trips assume `RoundTrips` for each message.
- The `fmt` log lines of the heartbeat, sync, login and unhandled-opcode paths: these handlers have no state effect, and only that is modelled.
- YAML loading, gin routing, JSON binding of the REST body (the 400 path), and the HTTP server: plumbing. The REST methods take the bound `arg` directly.
- `time.Now().Unix()` request ids: nondeterminism. Request ids are parameters (`reqId`, or `reqIdOf(i)` for the i-th initial query).
- `ReqID` is an `int64` in the source. It is modelled as an unbounded `int`, since the bridge never does arithmetic on it.
