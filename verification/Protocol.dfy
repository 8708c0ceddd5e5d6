/** The error value of internal/protocol/protocol.go, reduced to the fields the daemon branches on. */
module Protocol {
  import opened Options

  /** The `kind` member of the error data; `OTHER` is any kind the daemon does not name. */
  datatype Kind =
    | SESSION_NOT_FOUND | SESSION_CLOSED
    | LEASE_REQUIRED | LEASE_EXPIRED | LEASE_REVOKED | LEASE_CONFLICT
    | INVALID_REQUEST | CAPABILITY_REQUIRED | PERMISSION_DENIED | USER_DENIED | INTERNAL
    | CONFIRMATION_REQUIRED | CONFIRMATION_EXPIRED
    | CANCELLED | TIMEOUT | EXTENSION_DISCONNECTED | CHROME_DISCONNECTED
    | OTHER(name: string)

  /** The `effect` member of the error data. */
  datatype Effect = NoEffect | Possible | Unlisted(name: string)

  datatype RpcError = RpcError(kind: Kind, effect: Effect)

  function NewError(kind: Kind): RpcError {
    RpcError(kind, NoEffect)
  }

  function WithEffect(e: RpcError, effect: Effect): RpcError {
    e.(effect := effect)
  }

  function ErrorKind(e: Option<RpcError>): Option<Kind> {
    if e.Some? then Some(e.value.kind) else None
  }
}
