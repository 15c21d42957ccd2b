/** The resolvers that turn a dial string delivered by gRPC back into the
    parameters of one transport: `parseGrpcVsockAddr`,
    `parseGrpcHybridVSockAddr` and the `unix:` stripping of `unixDialer`. */
module Resolve {
  import opened Results
  import opened GoStrings
  import opened Net

  /** `parseGrpcVsockAddr`: a vsock dial string is `vsock:<cid>:<port>`. */
  function ParseGrpcVsockAddr(sock: string): (r: Result<(Uint32, Uint32), Error>)
    ensures r.Success? <==>
              var sp := Split(sock, ':');
              |sp| == 3 && sp[0] == "vsock" && IsUint32(sp[1]) && IsUint32(sp[2])
    ensures r.Success? ==>
              var sp := Split(sock, ':');
              && sock == sp[0] + ":" + sp[1] + ":" + sp[2]
              && r.value == (DecimalValue(sp[1]), DecimalValue(sp[2]))
    ensures r.Failure? ==> r.error.InvalidArgument?
  {
    var sp := Split(sock, ':');
    if |sp| != 3 then Failure(InvalidArgument(InvalidVsockAddress))
    else if sp[0] != "vsock" then Failure(InvalidArgument(InvalidVsockUrlScheme))
    else match ParseUint32(sp[1])
      case Failure(_) => Failure(InvalidArgument(InvalidVsockCid))
      case Success(cid) =>
        match ParseUint32(sp[2])
        case Failure(_) => Failure(InvalidArgument(InvalidVsockPort))
        case Success(port) =>
          SplitThree(sock, ':');
          Success((cid, port))
  }

  /** Every dial string `vsock:<cid>:<port>` built from two 32-bit decimals
      resolves to their values. */
  lemma VsockDialStringResolves(cid: string, port: string)
    requires IsUint32(cid) && IsUint32(port)
    ensures ParseGrpcVsockAddr("vsock" + [':'] + cid + [':'] + port) == Success((DecimalValue(cid), DecimalValue(port)))
  {
    DigitsHaveNoColon(cid);
    DigitsHaveNoColon(port);
    var sock := "vsock" + [':'] + cid + [':'] + port;
    assert sock == "vsock" + [':'] + (cid + [':'] + port);
    SplitCons("vsock", ':', cid + [':'] + port);
    SplitCons(cid, ':', port);
    SplitNoSeparator(port, ':');
    assert Split(sock, ':') == ["vsock", cid, port];
  }

  /** `parseGrpcHybridVSockAddr`: a hybrid dial string is `hvsock:<path>`,
      optionally followed by `:<port>`. A port is only taken from exactly three
      fields and only when it parses; otherwise the port is 0 and the parse
      error is dropped. */
  function ParseGrpcHybridVSockAddr(sock: string): (r: Result<(string, Uint32), Error>)
    ensures r.Success? <==>
              var sp := Split(sock, ':');
              |sp| >= 2 && sp[0] == "hvsock"
    ensures r.Failure? ==> r.error.InvalidArgument?
    ensures r.Success? ==>
              var sp := Split(sock, ':');
              && r.value.0 == sp[1]
              && (|sp| == 3 && IsUint32(sp[2]) ==> r.value.1 == DecimalValue(sp[2]))
              && (!(|sp| == 3 && IsUint32(sp[2])) ==> r.value.1 == 0)
  {
    var sp := Split(sock, ':');
    if |sp| < 2 then Failure(InvalidArgument(InvalidHybridAddress))
    else if sp[0] != "hvsock" then Failure(InvalidArgument(InvalidHybridUrlScheme))
    else
      var port :=
        if |sp| == 3 then
          match ParseUint32(sp[2])
          case Success(p) => p
          case Failure(_) => 0
        else 0;
      Success((sp[1], port))
  }

  const UnixCutset: string := "unix:"

  /** The socket path `unixDialer` dials, as written: when the dial string starts
      with `unix:` it applies `strings.Trim(sock, "unix:")`, which removes every
      leading and trailing `u`, `n`, `i`, `x` and `:`, not just the prefix. */
  function UnixSocketPathAsWritten(sock: string): (r: string)
    ensures !HasPrefix(sock, "unix:") ==> r == sock
    ensures HasPrefix(sock, "unix:") ==> |r| < |sock|
    ensures HasPrefix(sock, "unix:") ==> r == [] || (r[0] !in UnixCutset && r[|r| - 1] !in UnixCutset)
    ensures HasPrefix(sock, "unix:") ==> exists lo, hi :: TrimmedTo(sock, UnixCutset, r, lo, hi)
  {
    if HasPrefix(sock, "unix:") then
      assert sock[0] in UnixCutset;
      Trim(sock, UnixCutset)
    else sock
  }

  /** The socket path `unixDialer` evidently means to dial: the dial string
      with one leading `unix:` removed. */
  function UnixSocketPath(sock: string): (r: string)
    ensures HasPrefix(sock, "unix:") ==> "unix:" + r == sock
    ensures !HasPrefix(sock, "unix:") ==> r == sock
  {
    TrimPrefix(sock, "unix:")
  }

  /** The cutset trim applied to `unix:` followed by a path that starts with
      `/`: the prefix goes, and so does the run of cutset characters at the end,
      here everything from position `k` on. */
  lemma AsWrittenDropsTrailingCutset(rest: string, k: nat)
    requires 0 < k <= |rest| && rest[0] == '/' && rest[k - 1] !in UnixCutset
    requires forall i :: k <= i < |rest| ==> rest[i] in UnixCutset
    ensures UnixSocketPathAsWritten("unix:" + rest) == rest[..k]
  {
    var sock := "unix:" + rest;
    assert HasPrefix(sock, "unix:") by {
      assert sock[..5] == "unix:";
    }
    assert forall i :: 0 <= i < 5 ==> sock[i] in UnixCutset;
    assert sock[5] == '/';
    TrimLeftStopsAt(sock, UnixCutset, 5);
    assert sock[5..] == rest;
    TrimRightStopsAt(rest, UnixCutset, k);
  }

  /** The cutset trim does strip exactly the `unix:` prefix when what follows
      starts with `/` and ends outside the cutset. */
  lemma AsWrittenKeepsSlashPath(rest: string)
    requires rest != [] && rest[0] == '/' && rest[|rest| - 1] !in UnixCutset
    ensures UnixSocketPathAsWritten("unix:" + rest) == rest
  {
    AsWrittenDropsTrailingCutset(rest, |rest|);
    assert rest[..|rest|] == rest;
  }

  /** The dial string `parse` builds for `/tmp/phoenix`, spelled out. */
  lemma PhoenixDialString()
    ensures "unix:///" + "/tmp/phoenix" == "unix:" + "////tmp/phoenix" == "unix:////tmp/phoenix"
  {
  }

  /** The cutset trim applied to the dial string of `/tmp/phoenix` cuts `nix`
      off the end; the prefix strip keeps it. */
  lemma PhoenixTrim()
    ensures UnixSocketPathAsWritten("unix:////tmp/phoenix") == "////tmp/phoe"
    ensures UnixSocketPath("unix:////tmp/phoenix") == "////tmp/phoenix"
  {
    PhoenixDialString();
    PhoenixCutsetTrim();
    PhoenixPrefixStrip();
  }

  /** The cutset trim of `unix:` + `////tmp/phoenix`. */
  lemma PhoenixCutsetTrim()
    ensures UnixSocketPathAsWritten("unix:" + "////tmp/phoenix") == "////tmp/phoe"
  {
    PhoenixEndsInCutset();
    AsWrittenDropsTrailingCutset("////tmp/phoenix", 12);
  }

  /** `////tmp/phoenix` starts with `/` and ends in the cutset run `nix`. */
  lemma PhoenixEndsInCutset()
    ensures var rest: string := "////tmp/phoenix";
            && |rest| == 15 && rest[0] == '/' && rest[11] !in UnixCutset
            && (forall i :: 12 <= i < |rest| ==> rest[i] in UnixCutset)
            && rest[..12] == "////tmp/phoe"
  {
  }

  /** The prefix strip of `unix:` + `////tmp/phoenix`. */
  lemma PhoenixPrefixStrip()
    ensures UnixSocketPath("unix:" + "////tmp/phoenix") == "////tmp/phoenix"
  {
    var rest: string := "////tmp/phoenix";
    assert HasPrefix("unix:" + rest, "unix:") by {
      assert ("unix:" + rest)[..5] == "unix:";
    }
  }

}
