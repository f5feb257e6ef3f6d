/** The gateway's protocol unit and the messages the bridge builds itself. */
module Protocol {

  /** The `arg` field of a message: a string or an object, depending on
      the opcode (the bridge itself sends a string for CCU_HB, QUERY and
      SWITCH, an object for LOGIN); a missing or null `arg` decodes to
      NullArg. Every other JSON value (a number, a boolean, an array, an
      object with non-string values) decodes to a variant other than
      StringArg: string or not is the only distinction the bridge acts on. */
  datatype Arg =
    | StringArg(text: string)
    | ObjectArg(fields: map<string, string>)
    | NullArg

  /** One message of the gateway protocol. `reqId` and `status` are left
      out of the serialised form when they hold their zero values. */
  datatype Message = Message(
    nodeId: string,
    opcode: string,
    arg: Arg,
    requester: string,
    reqId: int,
    status: string)

  /** The requester tag the bridge puts on everything it sends. */
  const Requester: string := "HJ_Server"

  /** The per-device state request sent once per device index after login. */
  function QueryMessage(nodeId: string, reqId: int): Message
  {
    Message(nodeId, "QUERY", StringArg("*"), Requester, reqId, "")
  }

  /** The command the REST front end sends to drive a light or a curtain. */
  function SwitchCommand(nodeId: string, raw: string, reqId: int): Message
  {
    Message(nodeId, "SWITCH", StringArg(raw), Requester, reqId, "")
  }
}
