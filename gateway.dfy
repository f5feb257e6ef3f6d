/** The bridge object: the device and entity maps it updates in place,
    the read-only registry and device count from the configuration, and
    three records of what it does to the outside world in place of the
    socket and the HTTP client: the messages sent, the bytes written to the
    gateway socket, and the notifications posted to the home-automation
    sink. */
module Gateway {
  import opened Wrappers
  import opened Protocol
  import opened Framing
  import opened Decimal
  import opened Routing

  /** The QUERY messages initState sends for device indices 1..n, in that
      order; `reqIdOf(i)` is the request id the clock gives the i-th one. */
  function Queries(n: nat, reqIdOf: nat -> int): seq<Message>
  {
    if n == 0 then [] else Queries(n - 1, reqIdOf) + [QueryMessage(Itoa(n), reqIdOf(n))]
  }

  /** The k-th query addresses the device whose index is k + 1. */
  lemma {:induction false} QueriesAt(n: nat, reqIdOf: nat -> int, k: nat)
    requires k < n
    ensures |Queries(n, reqIdOf)| == n
    ensures Queries(n, reqIdOf)[k] == QueryMessage(Itoa(k + 1), reqIdOf(k + 1))
  {
    if k < n - 1 {
      QueriesAt(n - 1, reqIdOf, k);
    } else if n > 1 {
      QueriesAt(n - 1, reqIdOf, 0);
    }
  }

  /** The queries of initState are QUERY "*" messages from the bridge to
      node ids "1".."n", ascending, each device asked once. */
  lemma QueriesAscending(n: nat, reqIdOf: nat -> int)
    ensures |Queries(n, reqIdOf)| == n
    ensures forall k :: 0 <= k < n ==>
              var m := Queries(n, reqIdOf)[k];
              m.opcode == "QUERY" && m.arg == StringArg("*") && m.requester == Requester &&
              m.nodeId == Itoa(k + 1) && Value(m.nodeId) == k + 1
    ensures forall j, k :: 0 <= j < k < n ==>
              Queries(n, reqIdOf)[j].nodeId != Queries(n, reqIdOf)[k].nodeId
  {
    if n > 0 {
      QueriesAt(n, reqIdOf, 0);
    }
    forall k | 0 <= k < n
      ensures var m := Queries(n, reqIdOf)[k];
              m.opcode == "QUERY" && m.arg == StringArg("*") && m.requester == Requester &&
              m.nodeId == Itoa(k + 1) && Value(m.nodeId) == k + 1
    {
      QueriesAt(n, reqIdOf, k);
      ValueOfItoa(k + 1);
    }
    forall j, k | 0 <= j < k < n
      ensures Queries(n, reqIdOf)[j].nodeId != Queries(n, reqIdOf)[k].nodeId
    {
      QueriesAt(n, reqIdOf, j);
      QueriesAt(n, reqIdOf, k);
      ValueOfItoa(j + 1);
      ValueOfItoa(k + 1);
    }
  }

  /** The read loop hands over one `$`-terminated piece at a time; handling
      the pieces one after the other leaves the same state as handling the
      whole stream at once. */
  lemma ReadLoopPieceByPiece(s: Snapshot, reg: Registry, x: string, rest: string,
                             unmarshal: string -> Option<Message>)
    requires Closing !in x
    ensures RouteAll(RouteAll(s, reg, Parse(x + [Closing], unmarshal)), reg, Parse(rest, unmarshal))
         == RouteAll(s, reg, Parse(x + [Closing] + rest, unmarshal))
  {
    PieceByPiece(x, rest, unmarshal);
    RouteAllAppend(s, reg, Parse(x + [Closing], unmarshal), Parse(rest, unmarshal));
  }

  class Proxy {
    const registry: Registry
    const deviceCount: int
    const codec: Codec

    /** Node id to last raw token, reported or commanded. */
    var devices: map<string, string>
    /** Entity id to last normalised state pushed to the sink. */
    var entity: map<string, string>

    /** The notifications posted to the sink, oldest first. */
    ghost var outbox: seq<Notification>
    /** The messages sent to the gateway, oldest first. */
    ghost var sent: seq<Message>
    /** The bytes written to the gateway socket. */
    ghost var written: string

    ghost function Snap(): Snapshot
      reads this
    {
      Snapshot(devices, entity, outbox)
    }

    /** The socket carries exactly the frames of the sent messages. */
    ghost predicate Wired()
      reads this
    {
      written == Wire(codec.marshal, sent)
    }

    /** The object invariant: the socket carries exactly the frames of the
      sent messages, and the entity map mirrors what was pushed to the sink. */
    ghost predicate Valid()
      reads this
    {
      Wired() && Mirrors(Snap())
    }

    /** NewProxy: empty maps, nothing sent, nothing pushed. */
    constructor (registry: Registry, deviceCount: int, codec: Codec)
      ensures Valid()
      ensures this.registry == registry && this.deviceCount == deviceCount && this.codec == codec
      ensures devices == map[] && entity == map[]
      ensures outbox == [] && sent == [] && written == ""
    {
      this.registry := registry;
      this.deviceCount := deviceCount;
      this.codec := codec;
      devices := map[];
      entity := map[];
      outbox := [];
      sent := [];
      written := "";
    }

    /** sendMessage: serialise, wrap in the envelope, write. */
    method SendMessage(msg: Message)
      requires Wired()
      modifies this`sent, this`written
      ensures Wired()
      ensures sent == old(sent) + [msg]
      ensures written == old(written) + Frame(codec.marshal(msg))
    {
      var data := codec.marshal(msg);
      WireAppend(codec.marshal, sent, msg);
      written := written + Frame(data);
      sent := sent + [msg];
    }

    /** updateHomeAssistant: one POST of `state` for `entityName`. Called
      only from handleSwitch, in the middle of an update, after `entity` has
      been written: the object invariant does not hold on entry, so this
      method neither requires nor ensures `Valid()`. */
    method UpdateHomeAssistant(entityName: string, state: string)
      modifies this`outbox
      ensures outbox == old(outbox) + [Notification(entityName, state)]
    {
      outbox := outbox + [Notification(entityName, state)];
    }

    /** handleSwitch, step by step as the bridge does it. */
    method HandleSwitch(msg: Message)
      requires Valid()
      modifies this`devices, this`entity, this`outbox
      ensures Valid()
      ensures Snap() == SwitchEffect(old(Snap()), registry, msg)
    {
      SwitchMirrors(Snap(), registry, msg);
      var nodeId := msg.nodeId;
      if !msg.arg.StringArg? {
        return;
      }
      var arg := msg.arg.text;

      devices := devices[nodeId := arg];
      var state: string;
      match Normalize(arg) {
        case None =>
          return;
        case Some(normalised) =>
          state := normalised;
      }

      var entityId := EntityFor(registry, nodeId);
      if entityId == "" {
        return;
      }

      var lastState := Lookup(entity, entityId);
      if lastState == state {
        return;
      }

      entity := entity[entityId := state];
      UpdateHomeAssistant(EntityPrefix + entityId, state);
    }

    /** handleMessage: dispatch through the handler table. The heartbeat,
      sync and login handlers, and the unhandled case, only log. */
    method HandleMessage(msg: Message)
      requires Valid()
      modifies this`devices, this`entity, this`outbox
      ensures Valid()
      ensures Snap() == Route(old(Snap()), registry, msg)
    {
      match HandlerFor(msg.opcode) {
        case Some(SwitchReport) =>
          HandleSwitch(msg);
        case Some(HeartbeatAck) =>
        case Some(SyncInfo) =>
        case Some(LoginReply) =>
        case None =>
      }
    }

    /** One pass of the read loop: parse what was read and handle every
      message it holds, in order. */
    method ReceiveChunk(data: string)
      requires Valid()
      modifies this`devices, this`entity, this`outbox
      ensures Valid()
      ensures Snap() == RouteAll(old(Snap()), registry, Parse(data, codec.unmarshal))
    {
      var messages := ParseMessages(data, codec.unmarshal);
      HandleMessages(messages);
    }

    /** The dispatch loop of one read pass: every message, in order. */
    method HandleMessages(messages: seq<Message>)
      requires Valid()
      modifies this`devices, this`entity, this`outbox
      ensures Valid()
      ensures Snap() == RouteAll(old(Snap()), registry, messages)
    {
      ghost var start := Snap();
      for i := 0 to |messages|
        invariant Valid()
        invariant Snap() == RouteAll(start, registry, messages[..i])
      {
        ghost var handled := messages[..i];
        HandleMessage(messages[i]);
        RouteAllSnoc(start, registry, handled, messages[i]);
        assert messages[..i + 1] == handled + [messages[i]];
      }
      assert messages[..|messages|] == messages;
    }

    /** queryNodeID: ask one device for its state. */
    method QueryNodeID(nodeId: string, reqId: int)
      requires Wired()
      modifies this`sent, this`written
      ensures Wired()
      ensures sent == old(sent) + [QueryMessage(nodeId, reqId)]
    {
      SendMessage(QueryMessage(nodeId, reqId));
    }

    /** initState: one QUERY per device index 1..deviceCount, none when the
      count is not positive. */
    method InitState(reqIdOf: nat -> int)
      requires Wired()
      modifies this`sent, this`written
      ensures Wired()
      ensures sent == old(sent) + Queries(if deviceCount < 0 then 0 else deviceCount, reqIdOf)
    {
      ghost var before := sent;
      var i := 1;
      while i <= deviceCount
        invariant 1 <= i <= if deviceCount < 0 then 1 else deviceCount + 1
        invariant Wired()
        invariant sent == before + Queries(i - 1, reqIdOf)
      {
        QueryNodeID(Itoa(i), reqIdOf(i));
        i := i + 1;
      }
    }

    /** The command gateway's send: a SWITCH command for the node, then the
      optimistic write of the raw token into the device map. */
    method SendCommand(id: string, arg: string, reqId: int)
      requires Valid()
      modifies this`sent, this`written, this`devices
      ensures Valid()
      ensures sent == old(sent) + [SwitchCommand(id, arg, reqId)]
      ensures devices == old(devices)[id := arg]
    {
      SendMessage(SwitchCommand(id, arg, reqId));
      devices := devices[id := arg];
    }

    /** POST /switch/{id}: send, record, and report whether the command
      was "ON". */
    method PostSwitch(id: string, arg: string, reqId: int) returns (isActive: bool)
      requires Valid()
      modifies this`sent, this`written, this`devices
      ensures Valid()
      ensures sent == old(sent) + [SwitchCommand(id, arg, reqId)]
      ensures devices == old(devices)[id := arg]
      ensures isActive <==> arg == "ON"
    {
      SendCommand(id, arg, reqId);
      isActive := arg == "ON";
    }

    /** GET /switch/{id}: whether the cached token is "ON"; false for a node
      never reported or commanded. */
    method GetSwitch(id: string) returns (isActive: bool)
      ensures isActive <==> id in devices && devices[id] == "ON"
    {
      var state := Lookup(devices, id);
      isActive := state == "ON";
    }

    /** POST /curtain/{id}: send, record, and report whether the command
      was "OPEN". */
    method PostCurtain(id: string, arg: string, reqId: int) returns (isOpen: bool)
      requires Valid()
      modifies this`sent, this`written, this`devices
      ensures Valid()
      ensures sent == old(sent) + [SwitchCommand(id, arg, reqId)]
      ensures devices == old(devices)[id := arg]
      ensures isOpen <==> arg == "OPEN"
    {
      SendCommand(id, arg, reqId);
      isOpen := arg == "OPEN";
    }

    /** GET /curtain/{id}: whether the cached token is "OPEN"; false for a
      node never reported or commanded. */
    method GetCurtain(id: string) returns (isOpen: bool)
      ensures isOpen <==> id in devices && devices[id] == "OPEN"
    {
      var state := Lookup(devices, id);
      isOpen := state == "OPEN";
    }

    /** Whatever the bridge has written decodes, with the bridge's own
      parser, to the messages it sent, in order, when each survives the
      body encoding. */
    lemma WrittenDecodesToSent()
      requires Valid()
      requires forall k :: 0 <= k < |sent| ==> RoundTrips(codec, sent[k])
      ensures Parse(written, codec.unmarshal) == sent
    {
      WireRoundTrip(codec, sent);
    }
  }

  /** The optimistic command: right after a POST, before any report from
    the gateway, the matching GET already reflects the posted token, for
    any token, on both the switch and the curtain endpoints. */
  method CommandIsReadBack(p: Proxy, id: string, arg: string, reqId: int)
    returns (posted: bool, read: bool, postedOpen: bool, readOpen: bool)
    requires p.Valid()
    modifies p
    ensures p.Valid()
    ensures posted == read && (read <==> arg == "ON")
    ensures postedOpen == readOpen && (readOpen <==> arg == "OPEN")
  {
    posted := p.PostSwitch(id, arg, reqId);
    read := p.GetSwitch(id);
    postedOpen := p.PostCurtain(id, arg, reqId);
    readOpen := p.GetCurtain(id);
  }
}
