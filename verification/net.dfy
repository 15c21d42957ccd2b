/** Connections and the errors the event client reports, modelled after the
    gRPC status codes it uses. */
module Net {

  /** An opaque network connection; `id` distinguishes one dial's result from another's. */
  datatype Conn = Conn(id: nat)

  /** Which validation in the client rejected an address. */
  datatype Reason =
    | InvalidVsockScheme      // vsock address missing cid or port, or carrying a path
    | InvalidVsockCid         // vsock cid is not a 32-bit decimal
    | InvalidVsockPort        // vsock port is not a 32-bit decimal
    | InvalidUnixScheme       // unix address with neither host nor path, or with a port
    | InvalidHybridScheme     // hybrid vsock address whose path is not `<path>:<port>`
    | InvalidHybridPort       // hybrid vsock port is not a 32-bit decimal
    | InvalidScheme           // any other scheme
    | InvalidVsockAddress     // vsock dial string not made of three `:`-separated fields
    | InvalidVsockUrlScheme   // vsock dial string not tagged `vsock`
    | InvalidHybridAddress    // hybrid dial string with fewer than two fields
    | InvalidHybridUrlScheme  // hybrid dial string not tagged `hvsock`

  datatype Error =
    | InvalidArgument(reason: Reason)   // gRPC codes.InvalidArgument
    | DeadlineExceeded(msg: string)     // gRPC codes.DeadlineExceeded with its message
    | IoError(cause: nat)               // an error returned by the operating system
}
