# Agent event client: address parsing and connection establishment

A Dafny model of the transport layer of the kata agent event client
(`vendor/github.com/kata-containers/agent/protocols/event/client.go`). The client reaches a server inside a VM sandbox over one of three
transports: a UNIX domain socket, a VM socket (vsock), or Firecracker's hybrid
vsock (a UNIX socket proxy that must be told the vsock port with a
`CONNECT <port>\n` line). The model covers the following parts:

- `parse` (module `Address`). It validates a socket address and rewrites it
  into the private dial string gRPC hands back to the dialer:
  - `vsock:<cid>:<port>` for vsock;
  - `unix:///<location>` for unix or for a bare path;
  - `hvsock:<proxy path>` for hybrid vsock.
  Parsing a hybrid address also records its port in the process-wide
  `hybridVSockPort`. The model passes that variable explicitly: `Parse`
  takes its current value and returns its next one.
- The resolvers (module `Resolve`): `parseGrpcVsockAddr`,
  `parseGrpcHybridVSockAddr` and the `unix:` stripping of `unixDialer`.
- `eventDialer`, the three dialers and their endpoints (module `Transport`).
  The dispatch is closed: vsock goes to the vsock dialer, hvsock to the hybrid
  dialer, and every other scheme to the unix dialer.
- The per-attempt hybrid handshake (module `Hybrid`). It chooses a port,
  falling back to the captured one. It writes `CONNECT <port>\n`, then reads
  the acknowledgement.
- `commonDialer` (module `Dialer`), the retry-until-deadline race. It is a
  pure function over a trace of dial attempts. Each attempt carries its result
  and the time at which it returned. The timer starts at 0 and fires at
  `timeout`. Failures are retried. The first success before the timer fires is
  the one connection delivered. A success after the timer fires is closed.
  Two versions are given. `Dialer.CommonDialerAsWritten` follows the code: when
  the timer wins, the caller returns the timeout error only if the retry loop
  comes back to take the cancellation; after a late success, or while an
  attempt never returns, the call blocks for ever. `Dialer.CommonDialer` is the
  evidently intended behaviour, the caller's timeout error whenever the timer
  wins, and the rest of the model uses it (see "## Findings").
- The Go library routines these rely on (module `GoStrings`). These are
  `strings.Split`, `HasPrefix`, `Trim`, `TrimPrefix`,
  `strconv.ParseUint(s, 10, 32)` and `%d` formatting. `Split` is paired with
  its inverse `Join`, `ParseUint` with the reference predicate `IsUint32`, and
  `%d` with `ParseUint` through a round trip. `HasPrefix`, `TrimPrefix` and
  `Trim` are pinned down by characterising contracts instead: a prefix is the
  front of a concatenation, and a trim leaves a slice of the input with only
  cutset characters outside it.

The main all-input results are:
- `Transport.ParseThenResolve`: for every accepted address, resolving its dial
  string gives back the endpoint the address names. This covers vsock (cid and
  port) and hybrid vsock (proxy path and the port, recovered through the
  captured value), and unix, using the corrected prefix strip.
- `Dialer.DeliversExactlyTheWinner` characterises `commonDialer`'s result.
- `Transport.HybridHandshakeNamesParsedPort`: the port written in a hybrid
  address reaches the proxy's control line, through the captured value.
- `Hybrid.ConnectLineRoundTrip`: the proxy reads back from the control line
  exactly the port that was sent.

Points where the code's behaviour may surprise a reader:
- The vsock dial string is `vsock:<cid>:<port>`, with a colon between cid and
  port (`vendor/github.com/kata-containers/agent/protocols/event/client.go:123`).
- When the acknowledgement read fails, the handshake closes the connection. It
  still returns that connection with no error (`vendor/github.com/kata-containers/agent/protocols/event/client.go:319-325`), so the dialer
  delivers a closed connection instead of retrying.
  `Transport.HybridReadFailureDeliversClosedConn` states this. A failed write,
  by contrast, is retried (`Transport.HybridWriteFailureIsRetried`).
- A hybrid address is accepted only when `<proxy path>:<port>` is in the URL
  *path*, for example `hvsock:///run/fc.sock:1024`. In `hvsock://proxy:9999`
  the text lands in the host part. The path is then empty, and the address is
  rejected (`vendor/github.com/kata-containers/agent/protocols/event/client.go:136`).
- A relative unix path `sock` becomes `unix:///sock` (`vendor/github.com/kata-containers/agent/protocols/event/client.go:131`). Its resolved
  location is therefore `///sock`, which is absolute.

## Model

| member | source | states |
|---|---|---|
| GoStrings.ParseUint32 | vendor/github.com/kata-containers/agent/protocols/event/client.go:117-122 | `ParseUint(s, 10, 32)` succeeds exactly on non-empty all-digit strings whose value is at most 2^32-1, and it returns that value; a syntax error means the string is empty or has a non-digit before any overflowing digit prefix, a range error means a digit prefix overflows before any non-digit |
| GoStrings.ParseDigits | vendor/github.com/kata-containers/agent/protocols/event/client.go:199-202 | the left-to-right digit loop succeeds exactly when the whole string is digits of value at most 2^32-1, yielding that value; it reports a syntax error only at a non-digit preceded by digits that fit, and a range error only at a digit prefix that overflows |
| GoStrings.HasPrefix | vendor/github.com/kata-containers/agent/protocols/event/client.go:174 | `strings.HasPrefix(s, p)` holds exactly when `s` is `p` followed by something |
| GoStrings.Decimal | vendor/github.com/kata-containers/agent/protocols/event/client.go:312 | `%d` prints a non-empty string of digits with no leading zero, except for 0 itself |
| GoStrings.DecimalValuePrefix | vendor/github.com/kata-containers/agent/protocols/event/client.go:145-147 | a digit string's value is never below that of its prefixes, so an overflow detected early is an overflow of the whole number |
| GoStrings.Split | vendor/github.com/kata-containers/agent/protocols/event/client.go:139 | `strings.Split` yields at least one field, and no field contains the separator |
| GoStrings.SplitJoin | vendor/github.com/kata-containers/agent/protocols/event/client.go:187 | joining the fields of `strings.Split` with the separator gives back the original string |
| GoStrings.SplitCons | vendor/github.com/kata-containers/agent/protocols/event/client.go:208 | splitting `a:b` where `a` has no colon yields `a` followed by the fields of `b` |
| GoStrings.SplitThree | vendor/github.com/kata-containers/agent/protocols/event/client.go:187-188 | a string that splits into three fields is exactly `f0:f1:f2` |
| GoStrings.SplitTwo | vendor/github.com/kata-containers/agent/protocols/event/client.go:139-140 | a string that splits into two fields is exactly `f0:f1` |
| GoStrings.TrimPrefix | vendor/github.com/kata-containers/agent/protocols/event/client.go:174-176 | drops the prefix exactly once when present, and otherwise leaves the string unchanged |
| GoStrings.TrimLeft | vendor/github.com/kata-containers/agent/protocols/event/client.go:175 | removes only cutset characters from the front, and the result does not start with one |
| GoStrings.TrimRight | vendor/github.com/kata-containers/agent/protocols/event/client.go:175 | removes only cutset characters from the back, and the result does not end with one |
| GoStrings.Trim | vendor/github.com/kata-containers/agent/protocols/event/client.go:175 | the result is a slice of the input with only cutset characters before and after it; it neither starts nor ends with a cutset character, and it is empty exactly when every character of the input is in the cutset |
| GoStrings.TrimLeftStopsAt | vendor/github.com/kata-containers/agent/protocols/event/client.go:175 | the left trim stops exactly at the first non-cutset character |
| GoStrings.TrimRightStopsAt | vendor/github.com/kata-containers/agent/protocols/event/client.go:175 | the right trim stops exactly after the last non-cutset character |
| GoStrings.DecimalRoundTrip | vendor/github.com/kata-containers/agent/protocols/event/client.go:312 | `%d` prints a non-empty digit string whose decimal value is the printed number |
| GoStrings.ParseFormattedUint32 | vendor/github.com/kata-containers/agent/protocols/event/client.go:312 | parsing the `%d` form of any 32-bit number gives that number back |
| Address.ParseVsock | vendor/github.com/kata-containers/agent/protocols/event/client.go:113-123 | a vsock address is accepted iff cid and port are both present and are 32-bit decimals and no path is given; the dial string is `vsock:` + host; each rejection carries the reason of the first failed check |
| Address.ParseUnix | vendor/github.com/kata-containers/agent/protocols/event/client.go:124-134 | a unix address is accepted iff it has a host or a path and no port; the dial string is `unix:///` followed by the path, or by host/path |
| Address.ParseHybrid | vendor/github.com/kata-containers/agent/protocols/event/client.go:135-149 | a hybrid address is accepted iff its path is non-empty and is `<proxy>:<port>` with exactly one colon and a 32-bit port |
| Address.Parse | vendor/github.com/kata-containers/agent/protocols/event/client.go:104-155 | acceptance per scheme, unknown schemes rejected with InvalidArgument, the exact dial string per scheme; the captured hybrid port changes only on a successful hvsock parse, and then becomes the parsed port |
| Resolve.ParseGrpcVsockAddr | vendor/github.com/kata-containers/agent/protocols/event/client.go:186-205 | resolution succeeds iff the string is three colon-separated fields, tagged `vsock`, with two 32-bit decimals; it returns their values |
| Resolve.VsockDialStringResolves | vendor/github.com/kata-containers/agent/protocols/event/client.go:186-205 | every `vsock:<cid>:<port>` built from 32-bit decimals resolves to their values |
| Resolve.ParseGrpcHybridVSockAddr | vendor/github.com/kata-containers/agent/protocols/event/client.go:207-227 | resolution succeeds iff there are at least two fields and the tag is `hvsock`; the path is field 1; the port is field 2 only with exactly three fields and a parsable port, else 0 |
| Resolve.UnixSocketPathAsWritten | vendor/github.com/kata-containers/agent/protocols/event/client.go:174-176 | as written: a string without the `unix:` prefix is unchanged; one with it is shortened to a slice of itself with only u, n, i, x and : cut away on either side, and the result neither starts nor ends with one of them |
| Resolve.AsWrittenDropsTrailingCutset | vendor/github.com/kata-containers/agent/protocols/event/client.go:174-176 | as written, `unix:` followed by a path starting with `/` loses the prefix and exactly the run of u, n, i, x and : at the end of the path |
| Resolve.AsWrittenKeepsSlashPath | vendor/github.com/kata-containers/agent/protocols/event/client.go:174-176 | as written, `unix:` followed by a path starting with `/` and ending outside the cutset loses only the prefix |
| Resolve.UnixSocketPath | vendor/github.com/kata-containers/agent/protocols/event/client.go:174-176 | corrected: `unix:` + result is the dial string when it has the prefix; otherwise the string is unchanged |
| Resolve.PhoenixTrim | vendor/github.com/kata-containers/agent/protocols/event/client.go:174-176 | the cutset trim turns `unix:////tmp/phoenix` into `////tmp/phoe`, the prefix strip into `////tmp/phoenix` |
| Hybrid.EffectivePort | vendor/github.com/kata-containers/agent/protocols/event/client.go:304-307 | a zero port from the dial string is replaced by the captured port; a non-zero one is kept |
| Hybrid.ConnectLine | vendor/github.com/kata-containers/agent/protocols/event/client.go:312 | the control line is `CONNECT `, then the port as 32-bit decimal digits with no leading zero except for port 0, then a newline |
| Hybrid.ConnectLineRoundTrip | vendor/github.com/kata-containers/agent/protocols/event/client.go:312 | the proxy reading `CONNECT <port>\n` recovers exactly the port sent |
| Hybrid.Step | vendor/github.com/kata-containers/agent/protocols/event/client.go:298-326 | a failed connect is returned with nothing written; otherwise exactly the control line for the port is sent. A failed write closes the connection and returns the write error. A failed read closes the connection yet returns it with no error |
| Dialer.CommonDialerAsWritten | vendor/github.com/kata-containers/agent/protocols/event/client.go:234-274 | as written: a returned error is the caller's timeout error, after a decisive failure that finished at or after the deadline; a returned connection comes from the attempt that wins the race; the call does not return when a decisive success finished at or after the deadline, that connection being closed, or when the attempts run out undecided |
| Dialer.AsWrittenAgreesWhenItReturns | vendor/github.com/kata-containers/agent/protocols/event/client.go:234-274 | the code as written and the intended dialer close the same connections; whenever the code returns it returns what the intended dialer does, and, under the trace's ordering of the retry loop and the cancellation, it blocks exactly when a late success was closed or the attempts ran out undecided |
| Dialer.LateConnectionBlocksCaller | vendor/github.com/kata-containers/agent/protocols/event/client.go:251-256 | as written, a single late connection leaves the caller blocked, where the intended dialer reports the timeout |
| Dialer.FailurePastDeadlineReturns | vendor/github.com/kata-containers/agent/protocols/event/client.go:239-270 | as written, under the trace's ordering of the retry loop and the cancellation, a decisive failure at or after the deadline lets the caller return exactly the timeout error, closing nothing |
| Dialer.CommonDialer | vendor/github.com/kata-containers/agent/protocols/event/client.go:234-274 | intended: any error returned is the caller's timeout error. A delivered connection comes from the attempt that wins the race: all earlier attempts failed before the deadline, and nothing is closed. At most one connection is closed, and only a decisive success that finished at or after the deadline |
| Dialer.DecidedBy | vendor/github.com/kata-containers/agent/protocols/event/client.go:238-273 | once an attempt decides the race, the result depends on that attempt only: its connection when it succeeds in time, otherwise the timeout error, with a late connection closed |
| Dialer.AlwaysFailingTimesOut | vendor/github.com/kata-containers/agent/protocols/event/client.go:239-270 | attempts that keep failing before the deadline give exactly the timeout error and close nothing |
| Dialer.DeliversExactlyTheWinner | vendor/github.com/kata-containers/agent/protocols/event/client.go:247-273 | the dialer returns connection c iff some attempt wins the race with c |
| Dialer.LateSuccessIsClosed | vendor/github.com/kata-containers/agent/protocols/event/client.go:251-256 | a success completing after the timer fired is closed and never delivered; as written the call then does not return, as intended the caller gets the timeout error |
| Dialer.LaterDeadlineKeepsConnection | vendor/github.com/kata-containers/agent/protocols/event/client.go:234-274 | a connection delivered under one deadline is delivered unchanged under any later deadline |
| Transport.EventDialer | vendor/github.com/kata-containers/agent/protocols/event/client.go:157-171 | vsock selects the vsock dialer, hvsock the hybrid dialer, and every other scheme the unix dialer |
| Transport.ResolveEndpoint | vendor/github.com/kata-containers/agent/protocols/event/client.go:276-307 | corrected: only the vsock and hybrid resolvers can fail, and only with InvalidArgument; each dialer resolves to an endpoint of its own kind; the unix dialer dials the prefix-stripped string |
| Transport.AttemptsFor | vendor/github.com/kata-containers/agent/protocols/event/client.go:282-284 | each dial function attempt keeps its completion time, fails when the connect fails, and returns only the connection the connect produced; a unix or vsock attempt is exactly the connect, a hybrid attempt succeeds exactly when the connect and the control-line write both succeed |
| Transport.TimeoutError | vendor/github.com/kata-containers/agent/protocols/event/client.go:182 | each dialer's timeout error is a DeadlineExceeded error (the unix one here; the vsock and hybrid ones at lines 286 and 328) |
| Transport.Dial | vendor/github.com/kata-containers/agent/protocols/event/client.go:173-330 | intended: a dial returns a resolver error, the one timeout error, or a connection produced by one of its attempts, never an individual attempt's error; a resolver error ends the dial before any attempt; after resolving, every error is that dialer's own timeout error, the dial succeeds exactly when some attempt wins the race, and the connection delivered is the winning attempt's connect |
| Transport.VsockParseThenResolve | vendor/github.com/kata-containers/agent/protocols/event/client.go:113-123 | for an accepted vsock address, the dial string resolves to the same numeric cid and port |
| Transport.HybridParseThenResolve | vendor/github.com/kata-containers/agent/protocols/event/client.go:135-149 | for an accepted hybrid address, the dial string resolves to the proxy path with port 0, and the captured port is the parsed port |
| Transport.UnixParseThenResolve | vendor/github.com/kata-containers/agent/protocols/event/client.go:124-134 | for an accepted unix address, the prefix-stripped dial string is `///` followed by the socket location |
| Transport.ParseThenResolve | vendor/github.com/kata-containers/agent/protocols/event/client.go:104-171 | parse succeeds iff the address is valid for its scheme, and then the dialer `eventDialer` picks resolves the dial string, with the captured port, to the endpoint the address names |
| Transport.VsockNumbersRoundTrip | vendor/github.com/kata-containers/agent/protocols/event/client.go:113-123 | the address written from any two 32-bit numbers parses and resolves back to those numbers |
| Transport.HybridNumbersRoundTrip | vendor/github.com/kata-containers/agent/protocols/event/client.go:135-149 | `<proxy>:<port>` parses, captures the port, and resolves to that proxy and port, whatever was captured before |
| Transport.AsWrittenUnixPathLosesSuffix | vendor/github.com/kata-containers/agent/protocols/event/client.go:174-176 | as written, every accepted unix address whose location ends in u, n, i, x or : is dialled at a different path than the one parsed |
| Transport.AsWrittenUnixPathKeepsOtherLocations | vendor/github.com/kata-containers/agent/protocols/event/client.go:174-176 | as written, an accepted unix address whose location is empty or ends outside u, n, i, x and : is dialled at the parsed location |
| Transport.AsWrittenUnixPathCorrectIff | vendor/github.com/kata-containers/agent/protocols/event/client.go:174-176 | as written, an accepted unix address is dialled at its parsed location exactly when that location is empty or does not end in u, n, i, x or : |
| Transport.PhoenixIsDialledAsPhoe | vendor/github.com/kata-containers/agent/protocols/event/client.go:174-176 | the bare path `/tmp/phoenix` gives dial string `unix:////tmp/phoenix`; as written it is dialled as `////tmp/phoe`, and with the prefix strip as `////tmp/phoenix` |
| Transport.HybridDialUsesCapturedPort | vendor/github.com/kata-containers/agent/protocols/event/client.go:304-307 | a two-field hybrid dial string, the form parse produces, makes the handshake name the captured port |
| Transport.HybridDialStringPortOverrides | vendor/github.com/kata-containers/agent/protocols/event/client.go:217-224 | a non-zero parsable port in a three-field hybrid dial string overrides the captured port |
| Transport.HybridReadFailureDeliversClosedConn | vendor/github.com/kata-containers/agent/protocols/event/client.go:317-325 | a first attempt whose acknowledgement read fails before the deadline is delivered, and the handshake has closed it |
| Transport.HybridWriteFailureIsRetried | vendor/github.com/kata-containers/agent/protocols/event/client.go:312-315 | a failed control-line write is retried, and a later complete handshake before the deadline delivers its connection |
| Transport.HybridHandshakeNamesParsedPort | vendor/github.com/kata-containers/agent/protocols/event/client.go:304-312 | for every accepted hybrid address, parse, dispatch, resolve and handshake together make each connected attempt send the port written in the address, whatever was captured before |
| Transport.DialTimesOutWhenEveryConnectFails | vendor/github.com/kata-containers/agent/protocols/event/client.go:261-270 | when every connect fails before the deadline, each dialer returns exactly its own timeout error, having tried every attempt and closed nothing |

## Left out

- `url.Parse` is not modelled. Addresses enter as already-split components: scheme, host, hostname, port and path. Its errors, its grammar, and the bracketed IPv6 form of hosts (`vendor/github.com/kata-containers/agent/protocols/event/client.go:105`) are not modelled. The vsock round trips assume the host is `hostname:port` (`Transport.UnbracketedHost`).
- `NewEventClient`, `Close` and `defaultDialTimeout` (`vendor/github.com/kata-containers/agent/protocols/event/client.go:34`, `vendor/github.com/kata-containers/agent/protocols/event/client.go:55-93`) are left out. They are gRPC dial options, tracing interceptors and context timeouts, all library wiring.
- Real networking is left out. `net.DialTimeout`, `vsock.Dial`, `conn.Write` and `conn.Read` are opaque outcomes listed per attempt (`Transport.AttemptIo`). The 32 bytes of the acknowledgement are not interpreted, as in the source.
- Goroutines, channels and the timer in `commonDialer` are left out; they become the sequential attempt trace. Two consequences:
  - An attempt that never returns is not listed; a trace that ends before the race is decided stands for one. `Dialer.CommonDialerAsWritten` then blocks, as the code does at `cancel <- true` (`vendor/github.com/kata-containers/agent/protocols/event/client.go:269`).
  - The `!ok` branch (`vendor/github.com/kata-containers/agent/protocols/event/client.go:265-266`) is not modelled, because the channel is never closed.
- Dialer.CommonDialerAsWritten: an attempt that finishes at or after the deadline is taken to be the last one, the cancellation being already on offer when the loop's non-blocking check runs (`vendor/github.com/kata-containers/agent/protocols/event/client.go:240-245`, `vendor/github.com/kata-containers/agent/protocols/event/client.go:269`). The code does not guarantee that order: if the loop checks first it starts another attempt, and the call then blocks if that attempt succeeds late or never returns. So a late failure is promised to return the timeout error, where the code may instead block.
- A success that completes exactly when the timer fires is counted as late. The source leaves that race to `t.Stop()`.
- InvalidArgument messages are reduced to a tag saying which check failed (`Net.Reason`). The raw address text they quote is not part of the model. DeadlineExceeded messages are kept verbatim, except that the unix one quotes the prefix-stripped path where the code quotes the cutset-trimmed one (see `Transport.Dial` below).
- `strconv.ParseUint` error kinds (syntax and range) are modelled but never shown to callers. The source only checks for a non-nil error, apart from formatting it into a message.
- Go strings are byte strings; the model uses `seq<char>`. Every character that matters here (schemes, separators, digits, the cutset, the control line) is ASCII, so the two agree.
- Concurrent parses racing on `hybridVSockPort` are not modelled. The global is threaded sequentially.
- `cli/network.go`, `vendor/github.com/kata-containers/agent/protocols/event/server.go` and `vendor/github.com/mdlayher/vsock/vsock_others.go` are left out. They are CLI plumbing, a server start-up, and platform stubs that always fail.
- Transport.TimeoutError: the contract says only that the error is DeadlineExceeded; the exact message text is fixed by the body alone.
- Transport.ResolveEndpoint: the unix branch strips the `unix:` prefix once (`Resolve.UnixSocketPath`) instead of applying the cutset trim at `vendor/github.com/kata-containers/agent/protocols/event/client.go:175`, so a location ending in u, n, i, x or : resolves to the parsed path where the code resolves a shortened one; the code's path is `Resolve.UnixSocketPathAsWritten`. Its contract also gives each endpoint's kind but not its fields for vsock and hybrid. Those fields are stated by `Transport.ParseThenResolve` and the resolver contracts.
- Transport.Dial: it races the attempts with the intended `Dialer.CommonDialer`, so after a success that arrives once the timer has fired it returns the timeout error, where the code blocks at `vendor/github.com/kata-containers/agent/protocols/event/client.go:269` (`Dialer.CommonDialerAsWritten`); and its unix endpoint and timeout message use the prefix-stripped path, where the code dials and quotes the cutset-trimmed one (`vendor/github.com/kata-containers/agent/protocols/event/client.go:175`, `vendor/github.com/kata-containers/agent/protocols/event/client.go:182`).

## Findings

| source | as written | input that shows it | evidently intended | confidence | as-written member | corrected member |
|---|---|---|---|---|---|---|
| vendor/github.com/kata-containers/agent/protocols/event/client.go:174-176 | `strings.Trim(sock, "unix:")` removes every leading and trailing u, n, i, x and : from the dial string. It is a cutset trim, so it also eats the end of socket paths | the bare path `/tmp/phoenix` gives dial string `unix:////tmp/phoenix`, which is dialled as `////tmp/phoe` (`Transport.PhoenixIsDialledAsPhoe`; in general `Transport.AsWrittenUnixPathLosesSuffix`) | strip the `unix:` prefix once (`strings.TrimPrefix`), dialling `////tmp/phoenix`; `Transport.UnixParseThenResolve` proves the socket location is kept for every accepted address | high; not executed | Resolve.UnixSocketPathAsWritten | Resolve.UnixSocketPath |
| vendor/github.com/kata-containers/agent/protocols/event/client.go:251-256 | a success that arrives after the timer fired is closed and the retry goroutine returns without receiving from `cancel`; the caller, which took the timer branch, blocks for ever on `cancel <- true` at line 269 (likewise while an attempt never returns) | the timer fires at the deadline while the only attempt is still connecting; that attempt then succeeds, `t.Stop()` is false, the connection is closed, and the caller never returns (`Dialer.LateConnectionBlocksCaller`, in general `Dialer.LateSuccessIsClosed`) | the caller returns the timeout error whenever the timer wins, e.g. with a non-blocking or buffered cancel; `Dialer.AsWrittenAgreesWhenItReturns` shows the code returns the same whenever it returns | high; not executed | Dialer.CommonDialerAsWritten | Dialer.CommonDialer |

The rest of the model (`Transport.ResolveEndpoint`, `Transport.Dial`) uses the corrected `Resolve.UnixSocketPath` and the intended `Dialer.CommonDialer`.
