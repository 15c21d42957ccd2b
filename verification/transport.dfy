/** The transport facade: `eventDialer` picks one of three dialers by scheme;
    each resolves the dial string into an endpoint and runs its dial function
    under `commonDialer`. The captured hybrid port is passed in explicitly. */
module Transport {
  import opened Results
  import opened GoStrings
  import opened Net
  import opened Address
  import opened Resolve
  import opened Hybrid
  import opened Dialer

  /** The three dialers `eventDialer` can return. */
  datatype DialerKind = VsockDialer | HybridVSockDialer | UnixDialer

  /** What a dialer connects to. */
  datatype Endpoint =
    | UnixPath(path: string)
    | VsockAddr(cid: Uint32, port: Uint32)
    | HybridProxy(path: string, port: Uint32)

  /** `eventDialer`: vsock and hybrid vsock get their own dialers; every other
      scheme, including the empty one, falls back to the unix dialer. */
  function EventDialer(u: Url): (d: DialerKind)
    ensures d == VsockDialer <==> u.scheme == VSockSocketScheme
    ensures d == HybridVSockDialer <==> u.scheme == HybridVSockScheme
    ensures d == UnixDialer <==> u.scheme != VSockSocketScheme && u.scheme != HybridVSockScheme
  {
    if u.scheme == VSockSocketScheme then VsockDialer
    else if u.scheme == HybridVSockScheme then HybridVSockDialer
    else UnixDialer
  }

  /** The endpoint each dialer derives from its dial string before dialing; the
      hybrid dialer names the captured port when the dial string carries none. */
  function ResolveEndpoint(kind: DialerKind, sock: string, captured: Uint32): (r: Result<Endpoint, Error>)
    ensures r.Failure? ==> kind != UnixDialer && r.error.InvalidArgument?
    ensures r.Success? ==> match kind
              case VsockDialer => r.value.VsockAddr?
              case HybridVSockDialer => r.value.HybridProxy?
              case UnixDialer => r.value == UnixPath(UnixSocketPath(sock))
  {
    match kind
    case VsockDialer =>
      (match ParseGrpcVsockAddr(sock)
       case Failure(e) => Failure(e)
       case Success((cid, port)) => Success(VsockAddr(cid, port)))
    case HybridVSockDialer =>
      (match ParseGrpcHybridVSockAddr(sock)
       case Failure(e) => Failure(e)
       case Success((path, port)) => Success(HybridProxy(path, EffectivePort(port, captured))))
    case UnixDialer =>
      Success(UnixPath(UnixSocketPath(sock)))
  }

  /** What the operating system does on one attempt, and when that attempt returns. */
  datatype AttemptIo = AttemptIo(io: Exchange, finish: nat)

  /** The attempts a dialer makes towards `ep`: a connection it returns is always
      the one the connect produced, and a failed connect fails the attempt. A
      plain dialer's attempt is the connect itself; a hybrid attempt succeeds
      exactly when the connect succeeds and the `CONNECT` line is written. */
  function AttemptsFor(ep: Endpoint, steps: seq<AttemptIo>): (r: seq<Attempt>)
    ensures |r| == |steps|
    ensures forall i :: 0 <= i < |steps| ==>
              && r[i].finish == steps[i].finish
              && (r[i].result.Success? ==> r[i].result == steps[i].io.connect)
              && (steps[i].io.connect.Failure? ==> r[i].result.Failure?)
    ensures !ep.HybridProxy? ==> forall i :: 0 <= i < |steps| ==> r[i].result == steps[i].io.connect
    ensures ep.HybridProxy? ==>
              forall i :: 0 <= i < |steps| ==>
                (r[i].result.Success? <==> steps[i].io.connect.Success? && steps[i].io.write.None?)
  {
    if ep.HybridProxy? then
      seq(|steps|, i requires 0 <= i < |steps| => Attempt(Hybrid.Step(steps[i].io, ep.port).result, steps[i].finish))
    else
      seq(|steps|, i requires 0 <= i < |steps| => Attempt(steps[i].io.connect, steps[i].finish))
  }

  /** The `codes.DeadlineExceeded` error each dialer hands to `commonDialer`. */
  function TimeoutError(ep: Endpoint, sock: string): (e: Error)
    ensures e.DeadlineExceeded?
  {
    match ep
    case UnixPath(path) => DeadlineExceeded("timed out connecting to unix socket " + path)
    case VsockAddr(cid, port) =>
      DeadlineExceeded("timed out connecting to vsock " + Decimal(cid) + ":" + Decimal(port))
    case HybridProxy(_, _) => DeadlineExceeded("timed out connecting to hybrid vsocket " + sock)
  }

  /** `unixDialer`, `vsockDialer` and `HybridVSockDialer`: resolve the dial
      string, then race the dial function against the timeout. The caller sees
      the resolver's error, the connection, or the one timeout error, never the
      error of an individual attempt. */
  function Dial(kind: DialerKind, sock: string, captured: Uint32, timeout: nat, steps: seq<AttemptIo>): (r: DialResult)
    ensures r.result.Failure? ==> r.result.error.InvalidArgument? || r.result.error.DeadlineExceeded?
    ensures r.result.Success? ==> exists i :: 0 <= i < |steps| && steps[i].io.connect == r.result
    ensures ResolveEndpoint(kind, sock, captured).Success? ==>
              var ep := ResolveEndpoint(kind, sock, captured).value;
              r.result.Success? ==>
                exists i :: Wins(AttemptsFor(ep, steps), timeout, i) && r.result == steps[i].io.connect
    ensures ResolveEndpoint(kind, sock, captured).Failure? ==>
              r == DialResult(Failure(ResolveEndpoint(kind, sock, captured).error), [], 0)
    ensures ResolveEndpoint(kind, sock, captured).Success? ==>
              var ep := ResolveEndpoint(kind, sock, captured).value;
              && (r.result.Failure? ==> r.result.error == TimeoutError(ep, sock))
              && (r.result.Success? <==> exists i :: Wins(AttemptsFor(ep, steps), timeout, i))
  {
    match ResolveEndpoint(kind, sock, captured)
    case Failure(e) => DialResult(Failure(e), [], 0)
    case Success(ep) =>
      RaceOverAttempts(ep, timeout, steps, TimeoutError(ep, sock));
      CommonDialer(timeout, AttemptsFor(ep, steps), TimeoutError(ep, sock))
  }

  /** The race `Dial` runs once the endpoint is known: any error is the given
      timeout error, and it succeeds exactly when some attempt wins, with that
      attempt's connect. */
  lemma RaceOverAttempts(ep: Endpoint, timeout: nat, steps: seq<AttemptIo>, timeoutErr: Error)
    ensures var attempts := AttemptsFor(ep, steps);
            var r := CommonDialer(timeout, attempts, timeoutErr);
            && (r.result.Failure? ==> r.result.error == timeoutErr)
            && (r.result.Success? <==> exists i :: Wins(attempts, timeout, i))
            && (r.result.Success? ==>
                  && 0 <= r.attempts - 1 < |steps|
                  && Wins(attempts, timeout, r.attempts - 1)
                  && r.result == steps[r.attempts - 1].io.connect)
  {
    var attempts := AttemptsFor(ep, steps);
    var r := CommonDialer(timeout, attempts, timeoutErr);
    assert r.result.Success? ==> steps[r.attempts - 1].io.connect == r.result;
    AWinnerIsDelivered(timeout, attempts, timeoutErr);
  }

  // ---------------------------------------------------------------------------
  // Round trips: parse, then dispatch and resolve
  // ---------------------------------------------------------------------------

  /** The addresses `parse` accepts. */
  predicate Accepted(u: Url) {
    || (u.scheme == VSockSocketScheme && ValidVsock(u))
    || ((u.scheme == UnixSocketScheme || u.scheme == "") && ValidUnix(u))
    || (u.scheme == HybridVSockScheme && ValidHybrid(u))
  }

  /** The endpoint an accepted address describes, read off its components. */
  function IntendedEndpoint(u: Url): Endpoint
    requires Accepted(u)
  {
    if u.scheme == VSockSocketScheme then VsockAddr(DecimalValue(u.hostname), DecimalValue(u.port))
    else if u.scheme == HybridVSockScheme then
      var fields := Split(u.path, ':');
      HybridProxy(fields[0], DecimalValue(fields[1]))
    else UnixPath("///" + UnixLocation(u))
  }

  /** `url.Parse` writes a host with a port as `hostname:port`; bracketed hosts
      such as `[3]:1024` are left out with `url.Parse` itself. */
  predicate UnbracketedHost(u: Url) {
    u.port != "" ==> u.host == u.hostname + ":" + u.port
  }

  /** vsock: the dial string resolves to the cid and port of the address. */
  lemma VsockParseThenResolve(u: Url, captured: Uint32)
    requires u.scheme == VSockSocketScheme && ValidVsock(u) && UnbracketedHost(u)
    ensures var p := Parse(u, captured);
            && p.result.Success?
            && ParseGrpcVsockAddr(p.result.value.grpcAddr) == Success((DecimalValue(u.hostname), DecimalValue(u.port)))
  {
    var sock := Parse(u, captured).result.value.grpcAddr;
    assert sock == "vsock" + [':'] + u.hostname + [':'] + u.port;
    VsockDialStringResolves(u.hostname, u.port);
  }

  /** Hybrid vsock: the dial string carries the proxy path alone, and the port
      comes back through the value `parse` captured. */
  lemma HybridParseThenResolve(u: Url, captured: Uint32)
    requires u.scheme == HybridVSockScheme && ValidHybrid(u)
    ensures var p := Parse(u, captured);
            var fields := Split(u.path, ':');
            && p.result.Success?
            && ParseGrpcHybridVSockAddr(p.result.value.grpcAddr) == Success((fields[0], 0))
            && p.hybridPort == DecimalValue(fields[1])
  {
    var sock := Parse(u, captured).result.value.grpcAddr;
    var proxy := Split(u.path, ':')[0];
    SplitCons("hvsock", ':', proxy);
    SplitNoSeparator(proxy, ':');
    assert sock == "hvsock" + ":" + proxy;
    assert Split(sock, ':') == ["hvsock", proxy];
  }

  /** unix: with the `unix:` prefix removed once, the dial string names the
      socket location of the address, behind the triple slash. */
  lemma UnixParseThenResolve(u: Url, captured: Uint32)
    requires (u.scheme == UnixSocketScheme || u.scheme == "") && ValidUnix(u)
    ensures var p := Parse(u, captured);
            && p.result.Success?
            && UnixSocketPath(p.result.value.grpcAddr) == "///" + UnixLocation(u)
  {
  }

  /** For every address `parse` accepts, the dialer `eventDialer` picks resolves
      the dial string, with the hybrid port `parse` captured, to the endpoint the
      address describes: the same cid and port for vsock, the same proxy path
      and port for hybrid vsock, the same socket location for unix. */
  lemma ParseThenResolve(u: Url, captured: Uint32)
    requires u.scheme == VSockSocketScheme ==> UnbracketedHost(u)
    ensures Parse(u, captured).result.Success? <==> Accepted(u)
    ensures Accepted(u) ==>
              var p := Parse(u, captured);
              ResolveEndpoint(EventDialer(u), p.result.value.grpcAddr, p.hybridPort) == Success(IntendedEndpoint(u))
  {
    if Accepted(u) {
      if u.scheme == VSockSocketScheme {
        VsockParseThenResolve(u, captured);
      } else if u.scheme == HybridVSockScheme {
        HybridParseThenResolve(u, captured);
      } else {
        UnixParseThenResolve(u, captured);
      }
    }
  }

  /** A vsock address written from any two 32-bit numbers parses and resolves
      back to those numbers. */
  lemma VsockNumbersRoundTrip(cid: Uint32, port: Uint32, captured: Uint32)
    ensures var u := Url(VSockSocketScheme, Decimal(cid) + ":" + Decimal(port), Decimal(cid), Decimal(port), "");
            var p := Parse(u, captured);
            && p.result.Success?
            && ResolveEndpoint(EventDialer(u), p.result.value.grpcAddr, p.hybridPort) == Success(VsockAddr(cid, port))
  {
    var u := Url(VSockSocketScheme, Decimal(cid) + ":" + Decimal(port), Decimal(cid), Decimal(port), "");
    ParseFormattedUint32(cid);
    ParseFormattedUint32(port);
    ParseThenResolve(u, captured);
  }

  /** A hybrid vsock address `<proxy>:<port>` parses, captures the port, and
      resolves to that proxy and port, whatever port was captured before. */
  lemma HybridNumbersRoundTrip(proxy: string, port: Uint32, captured: Uint32)
    requires ':' !in proxy
    ensures var u := Url(HybridVSockScheme, "", "", "", proxy + ":" + Decimal(port));
            var p := Parse(u, captured);
            && p.result.Success?
            && p.hybridPort == port
            && ResolveEndpoint(EventDialer(u), p.result.value.grpcAddr, p.hybridPort) == Success(HybridProxy(proxy, port))
  {
    var u := Url(HybridVSockScheme, "", "", "", proxy + ":" + Decimal(port));
    ParseFormattedUint32(port);
    DecimalRoundTrip(port);
    DigitsHaveNoColon(Decimal(port));
    SplitCons(proxy, ':', Decimal(port));
    SplitNoSeparator(Decimal(port), ':');
    assert Split(u.path, ':') == [proxy, Decimal(port)];
    ParseThenResolve(u, captured);
  }

  // ---------------------------------------------------------------------------
  // The unix dialer as written: a cutset trim instead of a prefix strip
  // ---------------------------------------------------------------------------

  /** As written, `unixDialer` loses the end of every socket location that ends
      in `u`, `n`, `i`, `x` or `:`: the path it dials is not the one parsed. */
  lemma AsWrittenUnixPathLosesSuffix(u: Url, captured: Uint32)
    requires (u.scheme == UnixSocketScheme || u.scheme == "") && ValidUnix(u)
    requires UnixLocation(u) != [] && UnixLocation(u)[|UnixLocation(u)| - 1] in UnixCutset
    ensures var p := Parse(u, captured);
            && p.result.Success?
            && UnixSocketPathAsWritten(p.result.value.grpcAddr) != "///" + UnixLocation(u)
  {
  }

  /** As written, `unixDialer` still dials the parsed socket location when that
      location is empty or ends outside the cutset. */
  lemma AsWrittenUnixPathKeepsOtherLocations(u: Url, captured: Uint32)
    requires (u.scheme == UnixSocketScheme || u.scheme == "") && ValidUnix(u)
    requires UnixLocation(u) == [] || UnixLocation(u)[|UnixLocation(u)| - 1] !in UnixCutset
    ensures var p := Parse(u, captured);
            && p.result.Success?
            && UnixSocketPathAsWritten(p.result.value.grpcAddr) == "///" + UnixLocation(u)
  {
    var rest := "///" + UnixLocation(u);
    assert Parse(u, captured).result.value.grpcAddr == "unix:" + rest;
    AsWrittenKeepsSlashPath(rest);
  }

  /** As written, `unixDialer` dials the parsed socket location exactly when the
      location is empty or its last character is not one of `u`, `n`, `i`, `x`, `:`. */
  lemma AsWrittenUnixPathCorrectIff(u: Url, captured: Uint32)
    requires (u.scheme == UnixSocketScheme || u.scheme == "") && ValidUnix(u)
    ensures var p := Parse(u, captured);
            && p.result.Success?
            && (UnixSocketPathAsWritten(p.result.value.grpcAddr) == "///" + UnixLocation(u) <==>
                UnixLocation(u) == [] || UnixLocation(u)[|UnixLocation(u)| - 1] !in UnixCutset)
  {
    if UnixLocation(u) == [] || UnixLocation(u)[|UnixLocation(u)| - 1] !in UnixCutset {
      AsWrittenUnixPathKeepsOtherLocations(u, captured);
    } else {
      AsWrittenUnixPathLosesSuffix(u, captured);
    }
  }

  /** A concrete instance: `/tmp/phoenix` is dialled as `////tmp/phoe`, while the
      prefix strip keeps the whole path. */
  lemma PhoenixIsDialledAsPhoe(captured: Uint32)
    ensures var u := Url("", "", "", "", "/tmp/phoenix");
            var p := Parse(u, captured);
            && p.result.Success?
            && p.result.value.grpcAddr == "unix:////tmp/phoenix"
            && UnixSocketPathAsWritten(p.result.value.grpcAddr) == "////tmp/phoe"
            && UnixSocketPath(p.result.value.grpcAddr) == "////tmp/phoenix"
  {
    var u := Url("", "", "", "", "/tmp/phoenix");
    assert Parse(u, captured).result.value.grpcAddr == "unix:///" + "/tmp/phoenix";
    PhoenixDialString();
    PhoenixTrim();
  }

  // ---------------------------------------------------------------------------
  // The hybrid dialer
  // ---------------------------------------------------------------------------

  /** A hybrid dial string without a port (the form `parse` produces) makes
      the dialer name the captured port. */
  lemma HybridDialUsesCapturedPort(sock: string, captured: Uint32)
    requires |Split(sock, ':')| == 2 && Split(sock, ':')[0] == HybridVSockScheme
    ensures ResolveEndpoint(HybridVSockDialer, sock, captured) == Success(HybridProxy(Split(sock, ':')[1], captured))
  {
  }

  /** A non-zero port in a three-field hybrid dial string overrides the captured one. */
  lemma HybridDialStringPortOverrides(sock: string, captured: Uint32)
    requires |Split(sock, ':')| == 3 && Split(sock, ':')[0] == HybridVSockScheme
    requires IsUint32(Split(sock, ':')[2]) && DecimalValue(Split(sock, ':')[2]) != 0
    ensures ResolveEndpoint(HybridVSockDialer, sock, captured) ==
            Success(HybridProxy(Split(sock, ':')[1], DecimalValue(Split(sock, ':')[2])))
  {
  }

  /** An acknowledgement read that fails before the deadline does not fail the
      dial: the first such attempt's connection, already closed by the
      handshake, is what the caller receives. */
  lemma HybridReadFailureDeliversClosedConn(sock: string, captured: Uint32, timeout: nat, steps: seq<AttemptIo>)
    requires ResolveEndpoint(HybridVSockDialer, sock, captured).Success?
    requires |steps| > 0 && steps[0].finish < timeout
    requires steps[0].io.connect.Success? && steps[0].io.write.None? && steps[0].io.read.Some?
    ensures Dial(HybridVSockDialer, sock, captured, timeout, steps).result == steps[0].io.connect
    ensures Hybrid.Step(steps[0].io, ResolveEndpoint(HybridVSockDialer, sock, captured).value.port).closed
  {
  }

  /** A handshake whose write fails is retried: a later attempt that completes
      the handshake before the deadline delivers its fresh connection. */
  lemma HybridWriteFailureIsRetried(sock: string, captured: Uint32, timeout: nat, steps: seq<AttemptIo>)
    requires ResolveEndpoint(HybridVSockDialer, sock, captured).Success?
    requires |steps| >= 2 && steps[0].finish < timeout && steps[1].finish < timeout
    requires steps[0].io.connect.Success? && steps[0].io.write.Some?
    requires steps[1].io.connect.Success? && steps[1].io.write.None?
    ensures Dial(HybridVSockDialer, sock, captured, timeout, steps) == DialResult(steps[1].io.connect, [], 2)
  {
    var ep := ResolveEndpoint(HybridVSockDialer, sock, captured).value;
    var attempts := AttemptsFor(ep, steps);
    assert attempts[0].result.Failure? && attempts[0].finish < timeout;
    assert attempts[1].result == steps[1].io.connect && attempts[1].finish < timeout;
    SecondAttemptWins(attempts, timeout, TimeoutError(ep, sock));
    DialRacesAttempts(HybridVSockDialer, sock, captured, timeout, steps);
  }

  /** Once the dial string resolves, a dial is `commonDialer` racing the
      attempts towards the endpoint under that dialer's timeout error. */
  lemma DialRacesAttempts(kind: DialerKind, sock: string, captured: Uint32, timeout: nat, steps: seq<AttemptIo>)
    requires ResolveEndpoint(kind, sock, captured).Success?
    ensures var ep := ResolveEndpoint(kind, sock, captured).value;
            Dial(kind, sock, captured, timeout, steps) == CommonDialer(timeout, AttemptsFor(ep, steps), TimeoutError(ep, sock))
  {
  }

  /** Parse, dispatch, resolve and handshake together: for every accepted hybrid
      address, each attempt that connects tells the proxy the port written in
      the address, whatever port was captured before the parse. */
  lemma HybridHandshakeNamesParsedPort(u: Url, captured: Uint32, x: Exchange)
    requires u.scheme == HybridVSockScheme && ValidHybrid(u)
    requires x.connect.Success?
    ensures var p := Parse(u, captured);
            var ep := ResolveEndpoint(EventDialer(u), p.result.value.grpcAddr, p.hybridPort);
            && ep.Success?
            && ParseConnectLine(Hybrid.Step(x, ep.value.port).sent) == Some(DecimalValue(Split(u.path, ':')[1]))
  {
    HybridParseThenResolve(u, captured);
  }

  /** When every connect fails before the deadline, each dialer returns exactly
      its own timeout error, after trying every attempt and closing nothing. */
  lemma DialTimesOutWhenEveryConnectFails(kind: DialerKind, sock: string, captured: Uint32, timeout: nat, steps: seq<AttemptIo>)
    requires ResolveEndpoint(kind, sock, captured).Success?
    requires forall i :: 0 <= i < |steps| ==> steps[i].io.connect.Failure? && steps[i].finish < timeout
    ensures var ep := ResolveEndpoint(kind, sock, captured).value;
            Dial(kind, sock, captured, timeout, steps) == DialResult(Failure(TimeoutError(ep, sock)), [], |steps|)
  {
  }
}
