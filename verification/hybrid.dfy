/** The connect-and-handshake step run by `HybridVSockDialer` on each attempt:
    connect to the proxy's unix socket, tell it the vsock port with a
    `CONNECT <port>\n` line, then read its acknowledgement. */
module Hybrid {
  import opened Results
  import opened GoStrings
  import opened Net

  /** What the operating system does on one attempt: the unix-socket connect,
      then the write of the control line and the read of the acknowledgement
      (`None` for success, `Some(e)` for the error returned). */
  datatype Exchange = Exchange(connect: Result<Conn, Error>, write: Option<Error>, read: Option<Error>)

  /** The handshake's effect: the bytes written to the connection, whether the
      step closed the connection, and what the attempt returns. */
  datatype Handshake = Handshake(sent: string, closed: bool, result: Result<Conn, Error>)

  /** The port the handshake names: a port of 0 from the dial string falls back
      to the one captured when the address was parsed. */
  function EffectivePort(resolved: Uint32, captured: Uint32): (p: Uint32)
    ensures resolved != 0 ==> p == resolved
    ensures resolved == 0 ==> p == captured
  {
    if resolved == 0 then captured else resolved
  }

  /** `fmt.Sprintf("CONNECT %d\n", port)`. */
  function ConnectLine(port: Uint32): (r: string)
    ensures |r| >= 10 && r[..8] == "CONNECT " && r[|r| - 1] == '\n'
    ensures IsUint32(r[8..|r| - 1]) && DecimalValue(r[8..|r| - 1]) == port
    ensures r[8] == '0' ==> port == 0 && |r| == 10
  {
    DecimalRoundTrip(port);
    assert ("CONNECT " + Decimal(port) + "\n")[8..|Decimal(port)| + 8] == Decimal(port);
    "CONNECT " + Decimal(port) + "\n"
  }

  /** How the proxy reads a control line: `CONNECT `, a 32-bit decimal port, a newline. */
  function ParseConnectLine(line: string): (r: Option<Uint32>)
    ensures r.Some? ==> HasPrefix(line, "CONNECT ") && line[|line| - 1] == '\n'
  {
    if |line| < 9 || line[..8] != "CONNECT " || line[|line| - 1] != '\n' then None
    else match ParseUint32(line[8..|line| - 1])
      case Success(p) => Some(p)
      case Failure(_) => None
  }

  /** The proxy recovers from the control line exactly the port it was sent. */
  lemma ConnectLineRoundTrip(port: Uint32)
    ensures ParseConnectLine(ConnectLine(port)) == Some(port)
  {
    var line := ConnectLine(port);
    DecimalRoundTrip(port);
    ParseFormattedUint32(port);
    assert line[..8] == "CONNECT ";
    assert line[8..|line| - 1] == Decimal(port);
  }

  /** The dial function inside `HybridVSockDialer`, given the port it names: a
      failed connect is returned as is; a failed write closes the connection and
      returns the write error; a failed read closes the connection yet still
      returns it with no error. */
  function Step(x: Exchange, port: Uint32): (h: Handshake)
    ensures x.connect.Failure? ==> h == Handshake([], false, x.connect)
    ensures x.connect.Success? ==> h.sent == ConnectLine(port) && ParseConnectLine(h.sent) == Some(port)
    ensures h.result.Success? <==> x.connect.Success? && x.write.None?
    ensures h.result.Success? ==> h.result == x.connect
    ensures h.result.Failure? ==> h.result.error == (if x.connect.Failure? then x.connect.error else x.write.value)
    ensures h.closed <==> x.connect.Success? && (x.write.Some? || x.read.Some?)
  {
    match x.connect
    case Failure(e) => Handshake([], false, Failure(e))
    case Success(conn) =>
      var line := ConnectLine(port);
      ConnectLineRoundTrip(port);
      if x.write.Some? then Handshake(line, true, Failure(x.write.value))
      else if x.read.Some? then Handshake(line, true, Success(conn))
      else Handshake(line, false, Success(conn))
  }
}
