/** The message router and the state reconciler, as functions on a value
    that holds the bridge's mutable state: the device map (node id to last
    raw token), the entity map (entity id to last normalised state) and the
    notifications pushed to the home-automation sink, oldest first. */
module Routing {
  import opened Wrappers
  import opened Protocol

  /** The device registry of the configuration, read-only after loading:
      node id to entity id, curtains and lights kept apart. */
  datatype Registry = Registry(curtains: map<string, string>, lights: map<string, string>)

  /** One state update posted to the home-automation sink. */
  datatype Notification = Notification(entityName: string, state: string)

  datatype Snapshot = Snapshot(
    devices: map<string, string>,
    entity: map<string, string>,
    outbox: seq<Notification>)

  /** The four entries of the handler table. */
  datatype Handler = HeartbeatAck | SyncInfo | SwitchReport | LoginReply

  /** The prefix the reconciler puts in front of an entity id when it
      names the entity to the sink. */
  const EntityPrefix: string := "switch."

  /** The handler table: exactly four opcodes have a handler. */
  function HandlerFor(opcode: string): (h: Option<Handler>)
    ensures h == Some(HeartbeatAck) <==> opcode == "CCU_HB"
    ensures h == Some(SyncInfo) <==> opcode == "SYNC_INFO"
    ensures h == Some(SwitchReport) <==> opcode == "SWITCH"
    ensures h == Some(LoginReply) <==> opcode == "LOGIN"
    ensures h.None? <==> opcode !in {"CCU_HB", "SYNC_INFO", "SWITCH", "LOGIN"}
  {
    match opcode
    case "CCU_HB" => Some(HeartbeatAck)
    case "SYNC_INFO" => Some(SyncInfo)
    case "SWITCH" => Some(SwitchReport)
    case "LOGIN" => Some(LoginReply)
    case _ => None
  }

  /** Go's `m[k]` on a map of strings: the empty string for a missing key. */
  function Lookup(m: map<string, string>, k: string): (v: string)
    ensures k in m ==> v == m[k]
    ensures k !in m ==> v == ""
  {
    if k in m then m[k] else ""
  }

  /** The normalisation of a raw device token: the two "active" tokens
      become "on", the two "inactive" ones "off", anything else is rejected. */
  function Normalize(raw: string): (state: Option<string>)
    ensures state == Some("on") <==> raw == "ON" || raw == "OPEN"
    ensures state == Some("off") <==> raw == "OFF" || raw == "CLOSE"
    ensures state.None? <==> raw !in {"ON", "OPEN", "OFF", "CLOSE"}
  {
    match raw
    case "ON" => Some("on")
    case "OPEN" => Some("on")
    case "OFF" => Some("off")
    case "CLOSE" => Some("off")
    case _ => None
  }

  /** The entity a node reports for: the curtain mapping whenever the node
      is a curtain, the light mapping only otherwise, and "" (no entity)
      when neither holds it. */
  function EntityFor(reg: Registry, nodeId: string): (entityId: string)
    ensures nodeId in reg.curtains ==> entityId == reg.curtains[nodeId]
    ensures nodeId !in reg.curtains && nodeId in reg.lights ==> entityId == reg.lights[nodeId]
    ensures nodeId !in reg.curtains && nodeId !in reg.lights ==> entityId == ""
  {
    if nodeId in reg.curtains then reg.curtains[nodeId]
    else if nodeId in reg.lights then reg.lights[nodeId]
    else ""
  }

  /** The reconciler: a state equal to the recorded one is a no-op;
      otherwise the record is updated first and one notification, naming
      the prefixed entity, is pushed. Either way the record ends at `state`. */
  function Reconcile(s: Snapshot, entityId: string, state: string): (t: Snapshot)
    ensures Lookup(t.entity, entityId) == state
    ensures t.devices == s.devices
    ensures Lookup(s.entity, entityId) == state ==> t == s
    ensures Lookup(s.entity, entityId) != state ==>
              t.entity == s.entity[entityId := state] &&
              t.outbox == s.outbox + [Notification(EntityPrefix + entityId, state)]
  {
    if Lookup(s.entity, entityId) == state then s
    else s.(entity := s.entity[entityId := state],
            outbox := s.outbox + [Notification(EntityPrefix + entityId, state)])
  }

  /** handleSwitch: a non-string argument is ignored; a string argument is
      recorded raw, then normalised, resolved to an entity and reconciled. */
  function SwitchEffect(s: Snapshot, reg: Registry, msg: Message): Snapshot
  {
    if !msg.arg.StringArg? then s
    else
      var raw := msg.arg.text;
      var recorded := s.(devices := s.devices[msg.nodeId := raw]);
      match Normalize(raw)
      case None => recorded
      case Some(state) =>
        var entityId := EntityFor(reg, msg.nodeId);
        if entityId == "" then recorded else Reconcile(recorded, entityId, state)
  }

  /** handleMessage: only the SWITCH handler touches state; the heartbeat,
      sync and login handlers and unknown opcodes are observational. */
  function Route(s: Snapshot, reg: Registry, msg: Message): Snapshot
  {
    match HandlerFor(msg.opcode)
    case Some(SwitchReport) => SwitchEffect(s, reg, msg)
    case _ => s
  }

  /** The messages of one read, handled in order. */
  function RouteAll(s: Snapshot, reg: Registry, msgs: seq<Message>): Snapshot
  {
    if msgs == [] then s
    else Route(RouteAll(s, reg, msgs[..|msgs| - 1]), reg, msgs[|msgs| - 1])
  }

  lemma RouteAllSnoc(s: Snapshot, reg: Registry, msgs: seq<Message>, m: Message)
    ensures RouteAll(s, reg, msgs + [m]) == Route(RouteAll(s, reg, msgs), reg, m)
  {
  }

  /** Handling two batches one after the other is handling them together:
      the state the first batch leaves is where the second one starts. */
  lemma {:induction false} RouteAllAppend(s: Snapshot, reg: Registry, a: seq<Message>, b: seq<Message>)
    ensures RouteAll(s, reg, a + b) == RouteAll(RouteAll(s, reg, a), reg, b)
    decreases |b|
  {
    if b == [] {
      assert a + b == a;
    } else {
      var front, m := b[..|b| - 1], b[|b| - 1];
      assert b == front + [m];
      assert a + b == (a + front) + [m];
      RouteAllSnoc(s, reg, a + front, m);
      RouteAllAppend(s, reg, a, front);
      RouteAllSnoc(RouteAll(s, reg, a), reg, front, m);
    }
  }

  // ---------------------------------------------------------------------
  // handleSwitch, case by case

  lemma SwitchIgnoresNonString(s: Snapshot, reg: Registry, msg: Message)
    requires !msg.arg.StringArg?
    ensures SwitchEffect(s, reg, msg) == s
  {
  }

  /** The raw token is recorded before anything else is looked at, so an
      unrecognised token is recorded too. */
  lemma SwitchRecordsRaw(s: Snapshot, reg: Registry, msg: Message)
    requires msg.arg.StringArg?
    ensures SwitchEffect(s, reg, msg).devices == s.devices[msg.nodeId := msg.arg.text]
  {
  }

  /** An unrecognised token changes nothing but the device map. */
  lemma SwitchUnknownTokenInert(s: Snapshot, reg: Registry, msg: Message)
    requires msg.arg.StringArg? && Normalize(msg.arg.text).None?
    ensures SwitchEffect(s, reg, msg) == s.(devices := s.devices[msg.nodeId := msg.arg.text])
  {
  }

  /** A node the registry does not map, or maps to "", changes nothing but
      the device map. */
  lemma SwitchUnmappedInert(s: Snapshot, reg: Registry, msg: Message)
    requires msg.arg.StringArg? && EntityFor(reg, msg.nodeId) == ""
    ensures SwitchEffect(s, reg, msg) == s.(devices := s.devices[msg.nodeId := msg.arg.text])
  {
  }

  /** The light mapping is not consulted for a node that is a curtain. */
  lemma SwitchCurtainFirst(s: Snapshot, reg: Registry, lights: map<string, string>, msg: Message)
    requires msg.nodeId in reg.curtains
    ensures SwitchEffect(s, reg, msg) == SwitchEffect(s, reg.(lights := lights), msg)
  {
  }

  /** A curtain entry of `""` still hides the light entry for the same
      node: the report only records the raw token, whatever the lights say. */
  lemma EmptyCurtainEntryBlocksLights(s: Snapshot, reg: Registry, msg: Message)
    requires msg.arg.StringArg?
    requires msg.nodeId in reg.curtains && reg.curtains[msg.nodeId] == ""
    ensures SwitchEffect(s, reg, msg) == s.(devices := s.devices[msg.nodeId := msg.arg.text])
  {
  }

  /** A recognised token for a mapped node equal to the recorded state:
      nothing but the device map changes. */
  lemma SwitchDeduplicates(s: Snapshot, reg: Registry, msg: Message, state: string)
    requires msg.arg.StringArg? && Normalize(msg.arg.text) == Some(state)
    requires EntityFor(reg, msg.nodeId) != ""
    requires Lookup(s.entity, EntityFor(reg, msg.nodeId)) == state
    ensures SwitchEffect(s, reg, msg) == s.(devices := s.devices[msg.nodeId := msg.arg.text])
  {
  }

  /** A recognised token for a mapped node that differs from the recorded
      state: the record under the bare entity id changes and exactly one
      notification, under the prefixed name, is pushed. */
  lemma SwitchNotifies(s: Snapshot, reg: Registry, msg: Message, state: string)
    requires msg.arg.StringArg? && Normalize(msg.arg.text) == Some(state)
    requires EntityFor(reg, msg.nodeId) != ""
    requires Lookup(s.entity, EntityFor(reg, msg.nodeId)) != state
    ensures var t := SwitchEffect(s, reg, msg);
            var entityId := EntityFor(reg, msg.nodeId);
            t.devices == s.devices[msg.nodeId := msg.arg.text] &&
            t.entity == s.entity[entityId := state] &&
            t.outbox == s.outbox + [Notification(EntityPrefix + entityId, state)]
  {
  }

  /** The same SWITCH report handled twice in a row: the second changes
      nothing, so the pair pushes at most one notification. */
  lemma SwitchIdempotent(s: Snapshot, reg: Registry, msg: Message)
    ensures SwitchEffect(SwitchEffect(s, reg, msg), reg, msg) == SwitchEffect(s, reg, msg)
    ensures |SwitchEffect(SwitchEffect(s, reg, msg), reg, msg).outbox| <= |s.outbox| + 1
  {
  }

  /** Heartbeat acks, sync infos, login replies and unknown opcodes change
      neither map and push nothing. */
  lemma RouteOnlySwitchActs(s: Snapshot, reg: Registry, msg: Message)
    requires msg.opcode != "SWITCH"
    ensures Route(s, reg, msg) == s
  {
  }

  // ---------------------------------------------------------------------
  // The reconciler's invariant: the entity map mirrors the sink

  /** The last state pushed under `name`, if any. */
  function LastPushed(outbox: seq<Notification>, name: string): Option<string>
  {
    if outbox == [] then None
    else if outbox[|outbox| - 1].entityName == name then Some(outbox[|outbox| - 1].state)
    else LastPushed(outbox[..|outbox| - 1], name)
  }

  /** A notification names a recorded entity under the prefix. */
  predicate NamesRecorded(n: Notification, entity: map<string, string>)
  {
    |EntityPrefix| <= |n.entityName| &&
    n.entityName[..|EntityPrefix|] == EntityPrefix &&
    n.entityName[|EntityPrefix|..] in entity
  }

  /** Every recorded entity's state is the last one pushed for it, and
      nothing was pushed for an entity that is not recorded: the sink,
      had every push reached it, holds exactly the entity map. */
  ghost predicate Mirrors(s: Snapshot)
  {
    RecordsPushed(s) && PushesRecorded(s)
  }

  /** Every recorded state is the last one pushed for its entity. */
  ghost predicate RecordsPushed(s: Snapshot)
  {
    forall e :: e in s.entity ==> LastPushed(s.outbox, EntityPrefix + e) == Some(s.entity[e])
  }

  /** Every push names a recorded entity. */
  ghost predicate PushesRecorded(s: Snapshot)
  {
    forall k :: 0 <= k < |s.outbox| ==> NamesRecorded(s.outbox[k], s.entity)
  }

  lemma PrefixedNamesDiffer(e: string, f: string)
    requires e != f
    ensures EntityPrefix + e != EntityPrefix + f
  {
    assert (EntityPrefix + e)[|EntityPrefix|..] == e;
    assert (EntityPrefix + f)[|EntityPrefix|..] == f;
  }

  lemma ReconcileMirrors(s: Snapshot, entityId: string, state: string)
    requires Mirrors(s)
    ensures Mirrors(Reconcile(s, entityId, state))
  {
    var t := Reconcile(s, entityId, state);
    if t != s {
      var name := EntityPrefix + entityId;
      assert t.outbox[..|t.outbox| - 1] == s.outbox;
      forall e | e in t.entity
        ensures LastPushed(t.outbox, EntityPrefix + e) == Some(t.entity[e])
      {
        if e != entityId {
          PrefixedNamesDiffer(e, entityId);
        }
      }
      forall k | 0 <= k < |t.outbox|
        ensures NamesRecorded(t.outbox[k], t.entity)
      {
        if k < |s.outbox| {
          assert t.outbox[k] == s.outbox[k];
        } else {
          assert name[|EntityPrefix|..] == entityId;
        }
      }
    }
  }

  /** Handling a SWITCH report keeps the entity map and the sink in step. */
  lemma SwitchMirrors(s: Snapshot, reg: Registry, msg: Message)
    requires Mirrors(s)
    ensures Mirrors(SwitchEffect(s, reg, msg))
  {
    if msg.arg.StringArg? {
      var recorded := s.(devices := s.devices[msg.nodeId := msg.arg.text]);
      assert Mirrors(recorded);
      var entityId := EntityFor(reg, msg.nodeId);
      if Normalize(msg.arg.text).Some? && entityId != "" {
        ReconcileMirrors(recorded, entityId, Normalize(msg.arg.text).value);
      }
    }
  }

  lemma RouteMirrors(s: Snapshot, reg: Registry, msg: Message)
    requires Mirrors(s)
    ensures Mirrors(Route(s, reg, msg))
  {
    if msg.opcode == "SWITCH" {
      SwitchMirrors(s, reg, msg);
    }
  }

  /** However many messages are handled, the invariant holds. */
  lemma {:induction false} RouteAllMirrors(s: Snapshot, reg: Registry, msgs: seq<Message>)
    requires Mirrors(s)
    ensures Mirrors(RouteAll(s, reg, msgs))
    decreases |msgs|
  {
    if msgs != [] {
      RouteAllMirrors(s, reg, msgs[..|msgs| - 1]);
      RouteMirrors(RouteAll(s, reg, msgs[..|msgs| - 1]), reg, msgs[|msgs| - 1]);
    }
  }

  /** Handling messages only ever appends to what was pushed, and records
      only normalised states. */
  lemma {:induction false} RouteAllAppendsOnly(s: Snapshot, reg: Registry, msgs: seq<Message>)
    requires forall e :: e in s.entity ==> s.entity[e] in {"on", "off"}
    ensures var t := RouteAll(s, reg, msgs);
            && |s.outbox| <= |t.outbox| && t.outbox[..|s.outbox|] == s.outbox
            && (forall k :: |s.outbox| <= k < |t.outbox| ==> t.outbox[k].state in {"on", "off"})
            && (forall e :: e in t.entity ==> t.entity[e] in {"on", "off"})
    decreases |msgs|
  {
    if msgs != [] {
      var before := RouteAll(s, reg, msgs[..|msgs| - 1]);
      RouteAllAppendsOnly(s, reg, msgs[..|msgs| - 1]);
      var t := Route(before, reg, msgs[|msgs| - 1]);
      assert |before.outbox| <= |t.outbox| && t.outbox[..|before.outbox|] == before.outbox;
      assert t.outbox[..|s.outbox|] == before.outbox[..|s.outbox|];
    }
  }
}
