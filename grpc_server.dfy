/**
 * The gRPC server's reading of a stream: the interface, method, version
 * and deadline from the request headers, the request message from the
 * stream's data, and the table of HTTP/2 sessions.
 */
module GrpcServers {
  import opened Common
  import opened GrpcCallStream
  import opened GrpcResponses
  import opened Services
  import opened Servers

  /** The version a stream without a `grpc-version` header is taken to ask for. */
  const DefaultGrpcVersion: string := "1.0"

  /** What the path and version header name: the interface and method (path pieces 1 and 2), the version and the signature. */
  datatype Target = Target(interfaceName: Option<string>, methodName: Option<string>, version: string, signature: string)

  /** `_handleStream`'s reading of `:path` and `grpc-version`. */
  function StreamTarget(path: string, versionHeader: Option<string>): (t: Target)
  {
    var arr := Split(path, '/');
    var interfaceName := if |arr| > 1 then Some(arr[1]) else None;
    var methodName := if |arr| > 2 then Some(arr[2]) else None;
    var version := if versionHeader.Some? && versionHeader.value != "" then versionHeader.value else DefaultGrpcVersion;
    Target(interfaceName, methodName, version, NameText(interfaceName) + ":" + version)
  }

  /**
   * The path and version the client sends for a signature and method are
   * read back as that interface, method and version, and so as the same
   * signature.
   */
  lemma PathRoundTrip(interfaceName: string, version: string, methodName: string)
    requires ':' !in interfaceName && ':' !in version && '/' !in interfaceName && '/' !in methodName
    requires version != ""
    ensures var signature := interfaceName + ":" + version;
      StreamTarget(RequestPath(signature, methodName), GrpcVersion(signature)) ==
        Target(Some(interfaceName), Some(methodName), version, signature)
  {
    var signature := interfaceName + ":" + version;
    SignatureParts(interfaceName, version, methodName);
    var pieces := ["", interfaceName, methodName];
    assert Join(pieces, '/') == "/" + interfaceName + "/" + methodName by {
      assert Join(pieces[1..], '/') == interfaceName + "/" + methodName;
    }
    SplitJoin(pieces, '/');
  }

  /** A stream without a version header asks for version '1.0'. */
  lemma DefaultVersionTarget(path: string)
    ensures StreamTarget(path, None).version == "1.0"
    ensures StreamTarget(path, Some("")).version == "1.0"
    ensures StreamTarget(path, None).signature == NameText(StreamTarget(path, None).interfaceName) + ":1.0"
  {
  }

  /** The milliseconds of a `grpc-timeout` unit letter, none for any other letter. */
  function UnitFactor(unit: char): (r: Option<nat>)
  {
    if unit == 'm' then Some(1)
    else if unit == 'S' then Some(1000)
    else if unit == 'M' then Some(60000)
    else if unit == 'H' then Some(3600000)
    else None
  }

  /** The server's units are the client's. */
  lemma UnitFactorOfUnits(k: nat)
    requires k < |Units|
    ensures UnitFactor(Units[k].unit) == Some(Units[k].factor)
  {
  }

  /**
   * The deadline of a stream: no header is none; a header of at most one
   * character is kept as it is; a longer one is its number times its unit
   * letter's milliseconds, NaN when either is not a number.
   */
  function ServerTimeout(header: Option<string>): (d: Deadline)
  {
    if header.None? then NoDeadline
    else
      var t := header.value;
      if |t| <= 1 then HeaderText(t)
      else
        var amount := JsNumber(t[..|t| - 1]);
        var factor := UnitFactor(t[|t| - 1]);
        if amount.Some? && factor.Some? then Millis(amount.value * factor.value) else NotANumber
  }

  /**
   * The client's `grpc-timeout` for a timeout the client can write is read
   * back as a deadline at or above it by less than one unit.
   */
  lemma TimeoutRoundTrip(ms: int)
    requires ms < MaxTimeoutMs
    ensures TimeoutText(ms, Units).Ok?
    ensures var d := ServerTimeout(Some(TimeoutText(ms, Units).value));
      d.Millis? && ms <= d.ms && (exists k :: 0 <= k < |Units| && d.ms < ms + Units[k].factor)
  {
    TimeoutTextSpec(ms);
    var t := TimeoutText(ms, Units).value;
    var k :| 0 <= k < |Units| && TimeoutFormat(ms, t, Units[k]);
    UnitFactorOfUnits(k);
    ServerTimeoutOfFormat(ms, t, Units[k]);
    var d := ServerTimeout(Some(t));
    assert d.ms < ms + Units[k].factor;
  }

  /** Below 10^8 ms the timeout is read back exactly. */
  lemma TimeoutRoundTripExact(ms: int)
    requires ms < MaxAmount
    ensures ServerTimeout(Some(TimeoutText(ms, Units).value)) == Millis(ms)
  {
    var t := IntToString(ms) + "m";
    assert TimeoutText(ms, Units) == Ok(t) by {
      TimeoutTextMillis(ms);
    }
    assert TimeoutFormat(ms, t, Units[0]) by {
      assert t[..|t| - 1] == IntToString(ms);
      assert CeilDiv(ms, 1) == ms;
    }
    UnitFactorOfUnits(0);
    ServerTimeoutOfFormat(ms, t, Units[0]);
  }

  /** The server reads a timeout written in a unit it knows as the amount times the unit. */
  lemma ServerTimeoutOfFormat(ms: int, t: string, u: TimeUnit)
    requires TimeoutFormat(ms, t, u) && UnitFactor(u.unit) == Some(u.factor)
    ensures ServerTimeout(Some(t)) == Millis(CeilDiv(ms, u.factor) * u.factor)
  {
    assert t == t[..|t| - 1] + [u.unit];
    ServerTimeoutOfAmount(t, CeilDiv(ms, u.factor), u);
  }

  /** An integer's text then a unit letter the server knows is read as the integer times the unit. */
  lemma ServerTimeoutOfAmount(t: string, n: int, u: TimeUnit)
    requires t == IntToString(n) + [u.unit] && UnitFactor(u.unit) == Some(u.factor)
    ensures ServerTimeout(Some(t)) == Millis(n * u.factor)
  {
    assert t[..|t| - 1] == IntToString(n);
    assert JsNumber(t[..|t| - 1]) == Some(n) by {
      JsNumberOfIntToString(n);
    }
  }

  /** The request a new stream starts with: no arguments, size 0, the protobuf codec. */
  function NewStreamRequest(path: string, versionHeader: Option<string>, timeoutHeader: Option<string>): (r: ServerRequest)
  {
    var target := StreamTarget(path, versionHeader);
    ServerRequest(target.signature, target.interfaceName, target.methodName, [], "protobuf", ServerTimeout(timeoutHeader), 0)
  }

  /** The first message of a buffer: the bytes after the 5-byte prefix, once the length it gives has all arrived. */
  function FirstMessage(b: seq<byte>): (r: Option<seq<byte>>)
  {
    if |b| < 5 then None
    else
      var len := ReadUInt32BE(b, 1);
      if |b| < len + 5 then None else Some(b[5..len + 5])
  }

  /** The first message is whole once its frame is, and stays the same whatever arrives after it. */
  lemma FirstMessageSpec(payload: seq<byte>, rest: seq<byte>)
    requires |payload| <= MaxFrameLength
    ensures FirstMessage(Frame(payload) + rest) == Some(payload)
    ensures forall k :: 0 <= k < |Frame(payload)| ==> FirstMessage(Frame(payload)[..k]).None?
  {
    var f := Frame(payload);
    FrameRoundTrip(payload);
    var b := f + rest;
    assert b[..5] == f[..5];
    assert ReadUInt32BE(b, 1) == ReadUInt32BE(f, 1);
    assert b[5..|payload| + 5] == payload;
    forall k | 0 <= k < |f|
      ensures FirstMessage(f[..k]).None?
    {
      if k >= 5 {
        assert f[..k][..5] == f[..5];
        assert ReadUInt32BE(f[..k], 1) == ReadUInt32BE(f, 1);
      }
    }
  }

  /** Data after a whole first message brings the same message again, as the buffer is never trimmed. */
  lemma FirstMessageRepeats(b: seq<byte>, chunk: seq<byte>)
    requires FirstMessage(b).Some?
    ensures FirstMessage(b + chunk) == FirstMessage(b)
  {
    var c := b + chunk;
    assert c[..5] == b[..5];
    assert ReadUInt32BE(c, 1) == ReadUInt32BE(b, 1);
    assert c[5..ReadUInt32BE(b, 1) + 5] == b[5..ReadUInt32BE(b, 1) + 5];
  }

  /** The incoming side of one stream: its buffer and the request it builds. */
  class IncomingStream {
    /** `buf`: null until the first data */
    var buf: Option<seq<byte>>
    var request: ServerRequest
    /** whether the method has a request type */
    const hasRequestType: bool

    constructor(path: string, versionHeader: Option<string>, timeoutHeader: Option<string>, hasRequestType: bool)
      ensures buf.None? && request == NewStreamRequest(path, versionHeader, timeoutHeader)
      ensures this.hasRequestType == hasRequestType
    {
      buf := None;
      request := NewStreamRequest(path, versionHeader, timeoutHeader);
      this.hasRequestType := hasRequestType;
    }

    /**
     * A 'data' event: the chunk is appended to the buffer; once the
     * buffer's first message is whole, its bytes are appended to the
     * arguments (when the method has a request type) and `meta.size`
     * becomes the buffer's length.
     */
    method OnData(chunk: seq<byte>)
      modifies this
      ensures buf == Some(Buffered(old(buf)) + chunk)
      ensures var message := FirstMessage(buf.value);
        request == old(request).(args := old(request.args) + (if message.Some? && hasRequestType then [message.value] else []),
                                 metaSize := if message.Some? then |buf.value| else old(request.metaSize))
    {
      if buf.Some? {
        buf := Some(buf.value + chunk);
      } else {
        buf := Some(chunk);
        assert Buffered(old(buf)) + chunk == chunk;
      }
      var b := buf.value;
      var total := |b|;
      if total < 5 {
        return;
      }
      var bodySize := ReadUInt32BE(b, 1);
      if total < bodySize + 5 {
        return;
      }
      var msg := b[5..bodySize + 5];
      if hasRequestType {
        request := request.(args := request.args + [msg]);
      }
      request := request.(metaSize := total);
    }
  }

  /** The session key: the remote address, ':', then the remote port. */
  function SessionKey(remoteAddress: string, remotePort: nat): (k: string)
  {
    remoteAddress + ":" + NatToString(remotePort)
  }

  /** Sessions from different ports of one address, or from addresses without ':', have different keys. */
  lemma SessionKeyInjective(a1: string, p1: nat, a2: string, p2: nat)
    requires ':' !in a1 && ':' !in a2
    ensures SessionKey(a1, p1) == SessionKey(a2, p2) <==> a1 == a2 && p1 == p2
  {
    if SessionKey(a1, p1) == SessionKey(a2, p2) {
      SplitJoin([a1, NatToString(p1)], ':');
      SplitJoin([a2, NatToString(p2)], ':');
      assert Join([a1, NatToString(p1)], ':') == SessionKey(a1, p1);
      assert Join([a2, NatToString(p2)], ':') == SessionKey(a2, p2);
      ParseNatToString(p1);
      ParseNatToString(p2);
    }
  }

  /** The gRPC `_handleSocket`: the session is stored under its key. */
  method HandleSession(server: RpcServer, remoteAddress: string, remotePort: nat, session: nat)
    modifies server
    ensures server.connections == old(server.connections)[SessionKey(remoteAddress, remotePort) := session]
    ensures server.services == old(server.services) && server.publishPort == old(server.publishPort)
  {
    server.HandleSocket(SessionKey(remoteAddress, remotePort), session);
  }

  /** A session's 'close': its key goes. */
  method OnSessionClose(server: RpcServer, remoteAddress: string, remotePort: nat)
    modifies server
    ensures server.connections == old(server.connections) - {SessionKey(remoteAddress, remotePort)}
    ensures server.services == old(server.services) && server.publishPort == old(server.publishPort)
  {
    server.OnConnectionClose(SessionKey(remoteAddress, remotePort));
  }
}
