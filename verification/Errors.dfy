/** The crate's error type, without message text (error.rs). */
module Errors {
  import opened Prelude
  import opened Wire

  datatype EnipError =
    | WireFault(wire: WireError)
    | ProtocolViolation(detail: string)
    | TooLarge(limit: nat)
    | Cip(status: nat)
    | ForwardOpenRejected(status: nat, remainingPath: Option<nat>)
    | UnsupportedType
    | Closed
    | Timeout
    | Io
}
