/** `parse` of the agent event client: validates a socket address and rewrites it
    into the private dial string handed to gRPC. The process-wide
    `hybridVSockPort` is threaded through explicitly: `Parse` takes its current
    value and returns its next one. */
module Address {
  import opened Results
  import opened GoStrings
  import opened Net

  const UnixSocketScheme: string := "unix"
  const VSockSocketScheme: string := "vsock"
  const HybridVSockScheme: string := "hvsock"

  /** The parts of a socket address as `url.Parse` splits it: `host` is the
      authority as written, `hostname` and `port` are what `Hostname()` and
      `Port()` return. */
  datatype Url = Url(scheme: string, host: string, hostname: string, port: string, path: string)

  /** What `parse` returns on success: the dial string and the parsed address. */
  datatype Parsed = Parsed(grpcAddr: string, addr: Url)

  /** The outcome of `parse` together with the value of `hybridVSockPort` after it. */
  datatype ParseOutcome = ParseOutcome(result: Result<Parsed, Error>, hybridPort: Uint32)

  /** A vsock address needs a cid and a port, each a 32-bit decimal, and no path. */
  predicate ValidVsock(u: Url) {
    u.hostname != "" && u.port != "" && u.path == "" && IsUint32(u.hostname) && IsUint32(u.port)
  }

  /** A unix address names a host or a path and has no port. */
  predicate ValidUnix(u: Url) {
    (u.host != "" || u.path != "") && u.port == ""
  }

  /** The socket location a unix address names: its path, under its host if it has one. */
  function UnixLocation(u: Url): string {
    if u.host == "" then u.path else u.host + "/" + u.path
  }

  /** A hybrid vsock path is `<proxy path>:<port>` with exactly one colon and a 32-bit port. */
  predicate ValidHybrid(u: Url) {
    var fields := Split(u.path, ':');
    u.path != "" && |fields| == 2 && IsUint32(fields[1])
  }

  /** The vsock branch of `parse`. */
  function ParseVsock(u: Url): (r: Result<string, Error>)
    ensures r.Success? <==> ValidVsock(u)
    ensures r.Success? ==> r.value == VSockSocketScheme + ":" + u.host
    ensures (u.hostname == "" || u.port == "" || u.path != "") ==> r == Failure(InvalidArgument(InvalidVsockScheme))
    ensures r.Failure? && u.hostname != "" && u.port != "" && u.path == "" ==>
              r.error == InvalidArgument(if IsUint32(u.hostname) then InvalidVsockPort else InvalidVsockCid)
  {
    if u.hostname == "" || u.port == "" || u.path != "" then Failure(InvalidArgument(InvalidVsockScheme))
    else if ParseUint32(u.hostname).Failure? then Failure(InvalidArgument(InvalidVsockCid))
    else if ParseUint32(u.port).Failure? then Failure(InvalidArgument(InvalidVsockPort))
    else Success(VSockSocketScheme + ":" + u.host)
  }

  /** The unix (and scheme-less) branch of `parse`. */
  function ParseUnix(u: Url): (r: Result<string, Error>)
    ensures r.Success? <==> ValidUnix(u)
    ensures r.Failure? ==> r.error == InvalidArgument(InvalidUnixScheme)
    ensures r.Success? ==> r.value == "unix:///" + UnixLocation(u)
    ensures r.Success? ==> HasPrefix(r.value, "unix:///")
  {
    if (u.host == "" && u.path == "") || u.port != "" then Failure(InvalidArgument(InvalidUnixScheme))
    else if u.host == "" then Success(UnixSocketScheme + ":///" + u.path)
    else Success(UnixSocketScheme + ":///" + u.host + "/" + u.path)
  }

  /** The hybrid vsock branch of `parse`: the proxy path and the port it names. */
  function ParseHybrid(u: Url): (r: Result<(string, Uint32), Error>)
    ensures r.Success? <==> ValidHybrid(u)
    ensures r.Failure? ==> r.error.InvalidArgument?
    ensures r.Success? ==>
              var (proxy, port) := r.value;
              var portText := Split(u.path, ':')[1];
              && ':' !in proxy
              && u.path == proxy + ":" + portText
              && port == DecimalValue(portText)
  {
    if u.path == "" then Failure(InvalidArgument(InvalidHybridScheme))
    else
      var fields := Split(u.path, ':');
      if |fields| != 2 then Failure(InvalidArgument(InvalidHybridScheme))
      else match ParseUint32(fields[1])
        case Failure(_) => Failure(InvalidArgument(InvalidHybridPort))
        case Success(port) =>
          SplitTwo(u.path, ':');
          Success((fields[0], port))
  }

  /** `parse`: dispatches on the scheme; only a successful hybrid vsock parse
      changes the captured hybrid port. */
  function Parse(u: Url, hybridPort: Uint32): (r: ParseOutcome)
    ensures r.result.Success? ==> r.result.value.addr == u
    ensures r.result.Failure? ==> r.result.error.InvalidArgument?
    ensures r.result.Success? <==>
              || (u.scheme == VSockSocketScheme && ValidVsock(u))
              || ((u.scheme == UnixSocketScheme || u.scheme == "") && ValidUnix(u))
              || (u.scheme == HybridVSockScheme && ValidHybrid(u))
    ensures r.hybridPort != hybridPort ==> u.scheme == HybridVSockScheme && r.result.Success?
    ensures u.scheme == VSockSocketScheme && r.result.Success? ==>
              r.result.value.grpcAddr == "vsock:" + u.host
    ensures (u.scheme == UnixSocketScheme || u.scheme == "") && r.result.Success? ==>
              r.result.value.grpcAddr == "unix:///" + UnixLocation(u)
    ensures u.scheme == HybridVSockScheme && r.result.Success? ==>
              && r.result.value.grpcAddr == "hvsock:" + Split(u.path, ':')[0]
              && r.hybridPort == DecimalValue(Split(u.path, ':')[1])
    ensures u.scheme !in {VSockSocketScheme, UnixSocketScheme, "", HybridVSockScheme} ==>
              r.result == Failure(InvalidArgument(InvalidScheme))
  {
    if u.scheme == VSockSocketScheme then
      match ParseVsock(u)
      case Failure(e) => ParseOutcome(Failure(e), hybridPort)
      case Success(grpcAddr) => ParseOutcome(Success(Parsed(grpcAddr, u)), hybridPort)
    else if u.scheme == UnixSocketScheme || u.scheme == "" then
      match ParseUnix(u)
      case Failure(e) => ParseOutcome(Failure(e), hybridPort)
      case Success(grpcAddr) => ParseOutcome(Success(Parsed(grpcAddr, u)), hybridPort)
    else if u.scheme == HybridVSockScheme then
      match ParseHybrid(u)
      case Failure(e) => ParseOutcome(Failure(e), hybridPort)
      case Success((proxy, port)) =>
        ParseOutcome(Success(Parsed(HybridVSockScheme + ":" + proxy, u)), port)
    else
      ParseOutcome(Failure(InvalidArgument(InvalidScheme)), hybridPort)
  }
}
