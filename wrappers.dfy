/** The Option type used wherever the bridge may come back empty-handed:
    a body that does not parse, an opcode that has no handler, a raw
    token that does not normalise. */
module Wrappers {

  datatype Option<+T> = None | Some(value: T)
}
