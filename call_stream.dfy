/**
 * The client side of one gRPC call over HTTP/2, following the "gRPC over
 * HTTP/2" protocol document: the `grpc-timeout` text, the request path,
 * headers and Length-Prefixed-Message frame, the gRPC status an HTTP
 * status or an RST_STREAM error code (section 7 of RFC 7540) maps to,
 * what the trailers decide, and the reassembly of response messages from
 * the stream's data chunks.
 */
module GrpcCallStream {
  import opened Common
  import opened GrpcMetadata

  // ---------------------------------------------------------------------------
  // Status codes
  // ---------------------------------------------------------------------------

  // gRPC status codes
  const OK := 0
  const CANCELLED := 1
  const UNKNOWN := 2
  const PERMISSION_DENIED := 7
  const RESOURCE_EXHAUSTED := 8
  const UNIMPLEMENTED := 12
  const INTERNAL := 13
  const UNAVAILABLE := 14
  const UNAUTHENTICATED := 16

  /** `code in Status`: one of the status codes 0 (OK) to 16 (UNAUTHENTICATED). */
  predicate IsStatus(code: int)
  {
    0 <= code <= 16
  }

  // RST_STREAM error codes, section 7 of RFC 7540
  const NO_ERROR := 0x0
  const REFUSED_STREAM := 0x7
  const CANCEL := 0x8
  const ENHANCE_YOUR_CALM := 0xb
  const INADEQUATE_SECURITY := 0xc

  /** `statusMappings`: HTTP status -> gRPC status. */
  const StatusMappings: map<int, int> := map[
    200 := OK,
    400 := INTERNAL,
    401 := UNAUTHENTICATED,
    403 := PERMISSION_DENIED,
    404 := UNIMPLEMENTED,
    429 := UNAVAILABLE,
    502 := UNAVAILABLE,
    503 := UNAVAILABLE,
    504 := UNAVAILABLE]

  /** The status a response's `:status` header maps to, UNKNOWN for a status the table lacks or none. */
  function MappedStatus(httpStatus: Option<int>): (r: int)
  {
    if httpStatus.Some? && httpStatus.value in StatusMappings then StatusMappings[httpStatus.value] else UNKNOWN
  }

  /**
   * Only 200 maps to OK; the table's entries map as listed, 429 and the
   * 502-504 gateway errors all to UNAVAILABLE, and every other status
   * (or none) to UNKNOWN; the result is always a status code.
   */
  lemma MappedStatusSpec(httpStatus: Option<int>)
    ensures IsStatus(MappedStatus(httpStatus))
    ensures MappedStatus(httpStatus) == OK <==> httpStatus == Some(200)
    ensures MappedStatus(httpStatus) == UNAVAILABLE <==>
      httpStatus.Some? && httpStatus.value in {429, 502, 503, 504}
    ensures httpStatus == Some(404) ==> MappedStatus(httpStatus) == UNIMPLEMENTED
    ensures httpStatus == Some(401) ==> MappedStatus(httpStatus) == UNAUTHENTICATED
    ensures httpStatus == Some(403) ==> MappedStatus(httpStatus) == PERMISSION_DENIED
    ensures httpStatus == Some(400) ==> MappedStatus(httpStatus) == INTERNAL
    ensures httpStatus.None? || httpStatus.value !in {200, 400, 401, 403, 404, 429, 502, 503, 504} ==>
      MappedStatus(httpStatus) == UNKNOWN
  {
  }

  // ---------------------------------------------------------------------------
  // grpc-timeout
  // ---------------------------------------------------------------------------

  /** A unit of the `grpc-timeout` header and its length in milliseconds. */
  datatype TimeUnit = TimeUnit(unit: char, factor: nat)

  /** `units`: milliseconds, seconds, minutes, hours, finest first. */
  const Units: seq<TimeUnit> := [TimeUnit('m', 1), TimeUnit('S', 1000), TimeUnit('M', 60000), TimeUnit('H', 3600000)]

  /** The bound an amount must stay under: 10^8. */
  const MaxAmount := 100000000

  predicate PositiveFactors(units: seq<TimeUnit>)
  {
    forall i :: 0 <= i < |units| ==> units[i].factor > 0
  }

  /**
   * `getTimeout` over the units from `units` on: the first unit whose
   * amount `ms / factor` is below 10^8 gives the amount rounded up followed
   * by the unit letter; past the last unit, the deadline is too far.
   */
  function TimeoutText(ms: int, units: seq<TimeUnit>): (r: Result<string>)
    requires PositiveFactors(units)
  {
    if units == [] then Err("Deadline is too far in the future")
    else if ms < MaxAmount * units[0].factor then Ok(IntToString(CeilDiv(ms, units[0].factor)) + [units[0].unit])
    else TimeoutText(ms, units[1..])
  }

  /** `getTimeout(timeoutMs)`. */
  method GetTimeout(ms: int) returns (r: Result<string>)
    ensures r == TimeoutText(ms, Units)
  {
    var i := 0;
    while i < |Units|
      invariant 0 <= i <= |Units|
      invariant TimeoutText(ms, Units[i..]) == TimeoutText(ms, Units)
    {
      var factor := Units[i].factor;
      if ms < MaxAmount * factor {
        return Ok(IntToString(CeilDiv(ms, factor)) + [Units[i].unit]);
      }
      i := i + 1;
    }
    r := Err("Deadline is too far in the future");
  }

  /** The last unit's limit: 10^8 hours, in milliseconds. */
  const MaxTimeoutMs := 360000000000000

  /**
   * A timeout has a text exactly when it is below 10^8 hours; the text is
   * then the amount rounded up and one unit letter, and a timeout below
   * 10^8 ms is written in ms exactly.
   */
  lemma TimeoutTextSpec(ms: int)
    ensures TimeoutText(ms, Units).Ok? <==> ms < MaxTimeoutMs
    ensures TimeoutText(ms, Units).Err? ==> TimeoutText(ms, Units).error == "Deadline is too far in the future"
    ensures ms < MaxAmount ==> TimeoutText(ms, Units) == Ok(IntToString(ms) + "m")
    ensures TimeoutText(ms, Units).Ok? ==>
      var t := TimeoutText(ms, Units).value;
      exists k :: 0 <= k < |Units| && TimeoutFormat(ms, t, Units[k])
  {
    if ms < MaxAmount {
      TimeoutTextMillis(ms);
    }
    TimeoutTextFirstFit(ms, Units);
    var u := Units;
    if ms < MaxTimeoutMs {
      assert ms < MaxAmount * u[3].factor;
    } else {
      assert forall k :: 0 <= k < |u| ==> u[k].factor <= 3600000;
    }
  }

  /** Below 10^8 ms the first unit, 'm', fits and the amount is the timeout itself. */
  lemma TimeoutTextMillis(ms: int)
    requires ms < MaxAmount
    ensures TimeoutText(ms, Units) == Ok(IntToString(ms) + "m")
  {
    assert CeilDiv(ms, 1) == ms;
  }

  /**
   * `getTimeout` over any units: a text exactly when some unit's amount is
   * below 10^8, and then the text of the first such unit.
   */
  lemma {:induction false} TimeoutTextFirstFit(ms: int, units: seq<TimeUnit>)
    requires PositiveFactors(units)
    ensures TimeoutText(ms, units).Ok? <==> exists k :: 0 <= k < |units| && ms < MaxAmount * units[k].factor
    ensures TimeoutText(ms, units).Err? ==> TimeoutText(ms, units).error == "Deadline is too far in the future"
    ensures TimeoutText(ms, units).Ok? ==>
      exists k :: 0 <= k < |units| && ms < MaxAmount * units[k].factor &&
        TimeoutFormat(ms, TimeoutText(ms, units).value, units[k])
    decreases |units|
  {
    if units != [] {
      if ms < MaxAmount * units[0].factor {
        var t := TimeoutText(ms, units).value;
        assert t[..|t| - 1] == IntToString(CeilDiv(ms, units[0].factor));
        assert TimeoutFormat(ms, t, units[0]);
      } else {
        TimeoutTextFirstFit(ms, units[1..]);
        if TimeoutText(ms, units).Ok? {
          var t := TimeoutText(ms, units).value;
          var k :| 0 <= k < |units[1..]| && ms < MaxAmount * units[1..][k].factor && TimeoutFormat(ms, t, units[1..][k]);
          assert TimeoutFormat(ms, t, units[k + 1]);
        } else {
          forall k | 0 <= k < |units|
            ensures ms >= MaxAmount * units[k].factor
          {
            if k > 0 {
              assert units[k] == units[1..][k - 1];
            }
          }
        }
      }
    }
  }

  /** `t` is `ms` written in `u`: the amount rounded up, then the unit letter. */
  predicate TimeoutFormat(ms: int, t: string, u: TimeUnit)
  {
    u.factor > 0 && |t| >= 2 && t[|t| - 1] == u.unit &&
    t[..|t| - 1] == IntToString(CeilDiv(ms, u.factor))
  }

  /**
   * The gRPC timeout grammar allows at most 8 digits, yet an amount just
   * under 10^8 rounds up to 10^8: 99999999001 ms is written "100000000S".
   */
  lemma TimeoutTextNineDigits()
    ensures TimeoutText(99999999001, Units) == Ok("100000000S")
  {
    var u := Units;
    assert u[1..] == [TimeUnit('S', 1000), TimeUnit('M', 60000), TimeUnit('H', 3600000)];
    assert TimeoutText(99999999001, u) == TimeoutText(99999999001, u[1..]);
    assert CeilDiv(99999999001, 1000) == 100000000;
    assert TimeoutText(99999999001, u[1..]) == Ok(IntToString(100000000) + "S");
    HundredMillionText();
    assert IntToString(100000000) == "100000000";
    assert IntToString(100000000) + "S" == "100000000S";
  }

  /** 10^8 is written as a 1 and eight 0s. */
  lemma HundredMillionText()
    ensures NatToString(100000000) == "100000000"
  {
    AppendZero(1);
    AppendZero(10);
    AppendZero(100);
    AppendZero(1000);
    AppendZero(10000);
    AppendZero(100000);
    AppendZero(1000000);
    AppendZero(10000000);
  }

  /** Ten times a positive number is written as that number and a 0. */
  lemma AppendZero(n: nat)
    requires n >= 1
    ensures NatToString(n * 10) == NatToString(n) + "0"
  {
    assert (n * 10) / 10 == n && (n * 10) % 10 == 0;
  }

  /**
   * The timeout text the protocol's grammar allows: the first unit whose
   * amount, once rounded up, is below 10^8.
   */
  function BoundedTimeoutText(ms: int, units: seq<TimeUnit>): (r: Result<string>)
    requires PositiveFactors(units)
  {
    if units == [] then Err("Deadline is too far in the future")
    else
      var amount := CeilDiv(ms, units[0].factor);
      if amount < MaxAmount then Ok(IntToString(amount) + [units[0].unit])
      else BoundedTimeoutText(ms, units[1..])
  }

  /**
   * The bounded text exists exactly when some unit's rounded-up amount is
   * below 10^8, and is then that of the first such unit; for a timeout that
   * is not negative it is at most 8 digits and a unit.
   */
  lemma {:induction false} BoundedTimeoutTextSpec(ms: int, units: seq<TimeUnit>)
    requires PositiveFactors(units)
    ensures BoundedTimeoutText(ms, units).Ok? <==>
      exists k :: 0 <= k < |units| && CeilDiv(ms, units[k].factor) < MaxAmount
    ensures BoundedTimeoutText(ms, units).Err? ==>
      BoundedTimeoutText(ms, units).error == "Deadline is too far in the future"
    ensures BoundedTimeoutText(ms, units).Ok? ==>
      var t := BoundedTimeoutText(ms, units).value;
      (0 <= ms ==> 2 <= |t| <= 9) &&
      exists k :: 0 <= k < |units| && TimeoutFormat(ms, t, units[k]) && CeilDiv(ms, units[k].factor) < MaxAmount
    decreases |units|
  {
    if units != [] {
      var amount := CeilDiv(ms, units[0].factor);
      if amount < MaxAmount {
        var t := IntToString(amount) + [units[0].unit];
        assert BoundedTimeoutText(ms, units) == Ok(t);
        if 0 <= ms {
          AmountDigits(amount);
        }
        assert t[..|t| - 1] == IntToString(amount);
      } else {
        BoundedTimeoutTextSpec(ms, units[1..]);
        if BoundedTimeoutText(ms, units).Ok? {
          var t := BoundedTimeoutText(ms, units).value;
          var k :| 0 <= k < |units[1..]| && TimeoutFormat(ms, t, units[1..][k]) &&
            CeilDiv(ms, units[1..][k].factor) < MaxAmount;
          assert TimeoutFormat(ms, t, units[k + 1]);
        } else {
          forall k | 0 <= k < |units|
            ensures CeilDiv(ms, units[k].factor) >= MaxAmount
          {
            if k > 0 {
              assert units[k] == units[1..][k - 1];
            }
          }
        }
      }
    }
  }

  /** An amount below 10^8 that is not negative is written in at most 8 digits. */
  lemma AmountDigits(amount: int)
    requires 0 <= amount < MaxAmount
    ensures |IntToString(amount)| <= 8
  {
    assert Pow10(8) == MaxAmount by { assert Pow10(4) == 10000; }
    NatToStringLength(amount, 8, Pow10(8));
  }

  /** The longest timeout the bounded text can write: 99999999 hours, in milliseconds. */
  const MaxBoundedTimeoutMs := 359999996400000

  /** An amount rounded up is below 10^8 exactly when the timeout is at most 99999999 units. */
  lemma CeilDivBelow(x: int, f: nat)
    requires f > 0
    ensures CeilDiv(x, f) < MaxAmount <==> x <= (MaxAmount - 1) * f
  {
    var r := CeilDiv(x, f);
    MulMonoNat(r, MaxAmount - 1, f);
    MulMonoNat(MaxAmount - 1, r - 1, f);
  }

  /**
   * With the protocol's units the bounded text exists exactly up to
   * 99999999 hours, and below 10^8 ms it is the timeout in ms, as
   * `getTimeout` writes it.
   */
  lemma BoundedTimeoutTextUnits(ms: int)
    ensures BoundedTimeoutText(ms, Units).Ok? <==> ms <= MaxBoundedTimeoutMs
    ensures ms < MaxAmount ==> BoundedTimeoutText(ms, Units) == TimeoutText(ms, Units) == Ok(IntToString(ms) + "m")
  {
    BoundedTimeoutTextSpec(ms, Units);
    var u := Units;
    CeilDivBelow(ms, u[3].factor);
    if ms <= MaxBoundedTimeoutMs {
      assert CeilDiv(ms, u[3].factor) < MaxAmount;
    } else {
      forall k | 0 <= k < |u|
        ensures CeilDiv(ms, u[k].factor) >= MaxAmount
      {
        CeilDivBelow(ms, u[k].factor);
      }
    }
    if ms < MaxAmount {
      TimeoutTextMillis(ms);
      assert CeilDiv(ms, 1) == ms;
    }
  }

  // ---------------------------------------------------------------------------
  // Length-Prefixed-Message framing
  // ---------------------------------------------------------------------------

  /** A length as the 4 big-endian bytes `putInt` writes. */
  function BigEndian32(n: nat): (r: seq<byte>)
    requires n < 0x1_0000_0000
    ensures |r| == 4
  {
    var q1 := n / 0x100;
    var q2 := q1 / 0x100;
    var q3 := q2 / 0x100;
    [q3, q2 % 0x100, q1 % 0x100, n % 0x100]
  }

  /** `buf.readUInt32BE(offset)`. */
  function ReadUInt32BE(b: seq<byte>, offset: nat): (r: nat)
    requires offset + 4 <= |b|
  {
    ((b[offset] as int * 0x100 + b[offset + 1] as int) * 0x100 + b[offset + 2] as int) * 0x100 + b[offset + 3] as int
  }

  lemma ReadBigEndian32(n: nat)
    requires n < 0x1_0000_0000
    ensures ReadUInt32BE(BigEndian32(n), 0) == n
  {
  }

  /** The largest length `putInt` writes: a signed 32-bit integer. */
  const MaxFrameLength := 0x7FFF_FFFF

  /** A message frame: the compressed flag 0, the payload length, the payload. */
  function Frame(payload: seq<byte>): (r: seq<byte>)
    requires |payload| <= MaxFrameLength
  {
    [0] + BigEndian32(|payload|) + payload
  }

  /** The request body of `call`: the flag byte, then the frame's length and payload when the method has a request type. */
  function RequestBody(payload: Option<seq<byte>>): (r: seq<byte>)
    requires payload.Some? ==> |payload.value| <= MaxFrameLength
  {
    if payload.Some? then Frame(payload.value) else [0]
  }

  /** `data.slice(5)`: a response message without its 5-byte header. */
  function Unframe(data: seq<byte>): (r: seq<byte>)
  {
    if |data| <= 5 then [] else data[5..]
  }

  /** A frame reads back as its payload, its length field says how long the payload is, and `resSize` is that length. */
  lemma FrameRoundTrip(payload: seq<byte>)
    requires |payload| <= MaxFrameLength
    ensures |Frame(payload)| == |payload| + 5
    ensures ReadUInt32BE(Frame(payload), 1) == |payload|
    ensures Unframe(Frame(payload)) == payload
    ensures RequestBody(Some(payload)) == Frame(payload) && RequestBody(None) == [0]
  {
    var f := Frame(payload);
    ReadBigEndian32(|payload|);
    assert f[1..5] == BigEndian32(|payload|);
    assert f[5..] == payload;
  }

  // ---------------------------------------------------------------------------
  // Reassembly of response messages
  // ---------------------------------------------------------------------------

  /** The buffer `_buf`, no bytes when it is null. */
  function Buffered(buf: Option<seq<byte>>): seq<byte>
  {
    if buf.Some? then buf.value else []
  }

  /**
   * One 'data' event: the chunk joins the buffer; once the buffer holds 5
   * bytes and the whole frame their length announces, that frame is the
   * message taken out and the rest stays buffered, null when nothing is
   * left.
   */
  function Reassemble(buf: Option<seq<byte>>, chunk: seq<byte>): (r: (Option<seq<byte>>, Option<seq<byte>>))
  {
    TakeFrame(if buf.Some? then buf.value + chunk else chunk)
  }

  /** The buffer `b` after a 'data' event: the frame taken out, if whole, and what stays buffered. */
  function TakeFrame(b: seq<byte>): (r: (Option<seq<byte>>, Option<seq<byte>>))
  {
    if |b| < 5 then (Some(b), None)
    else
      var size := ReadUInt32BE(b, 1);
      if |b| < size + 5 then (Some(b), None)
      else (if |b| == size + 5 then None else Some(b[size + 5..]), Some(b[..size + 5]))
  }

  /**
   * No byte is lost, added or reordered: the buffer before plus the chunk
   * is the message taken out followed by the buffer after. A message is a
   * whole frame, and one is taken out exactly when the buffer holds one.
   */
  lemma ReassembleSpec(buf: Option<seq<byte>>, chunk: seq<byte>)
    ensures var (after, msg) := Reassemble(buf, chunk);
      Buffered(buf) + chunk == (if msg.Some? then msg.value else []) + Buffered(after)
    ensures var (after, msg) := Reassemble(buf, chunk);
      var b := Buffered(buf) + chunk;
      msg.Some? <==> |b| >= 5 && |b| >= ReadUInt32BE(b, 1) + 5
    ensures var (after, msg) := Reassemble(buf, chunk);
      msg.Some? ==> |msg.value| >= 5 && |msg.value| == ReadUInt32BE(msg.value, 1) + 5
  {
    var b := Buffered(buf) + chunk;
    assert b == if buf.Some? then buf.value + chunk else chunk;
    assert Reassemble(buf, chunk) == TakeFrame(b);
    TakeFrameKeepsBytes(b);
    TakeFrameWhole(b);
  }

  /** Taking a frame out of a buffer loses, adds and reorders nothing. */
  lemma TakeFrameKeepsBytes(b: seq<byte>)
    ensures var (after, msg) := TakeFrame(b);
      b == (if msg.Some? then msg.value else []) + Buffered(after)
  {
    if |b| >= 5 && |b| >= ReadUInt32BE(b, 1) + 5 {
      var size := ReadUInt32BE(b, 1);
      assert b == b[..size + 5] + b[size + 5..];
    }
  }

  /** A frame is taken out exactly when the buffer holds a whole one, and it is that frame. */
  lemma TakeFrameWhole(b: seq<byte>)
    ensures var (after, msg) := TakeFrame(b);
      (msg.Some? <==> |b| >= 5 && |b| >= ReadUInt32BE(b, 1) + 5) &&
      (msg.Some? ==> |msg.value| >= 5 && |msg.value| == ReadUInt32BE(msg.value, 1) + 5)
  {
    if |b| >= 5 && |b| >= ReadUInt32BE(b, 1) + 5 {
      var m := b[..ReadUInt32BE(b, 1) + 5];
      assert m[1] == b[1] && m[2] == b[2] && m[3] == b[3] && m[4] == b[4];
    }
  }

  /**
   * A frame arriving whole in an empty buffer comes out as one message,
   * and whatever followed it in the chunk stays buffered, so a chunk
   * carrying two frames yields only the first.
   */
  lemma ReassembleFrame(payload: seq<byte>, rest: seq<byte>)
    requires |payload| <= MaxFrameLength
    ensures Reassemble(None, Frame(payload) + rest) ==
      (if rest == [] then None else Some(rest), Some(Frame(payload)))
  {
    FrameRoundTrip(payload);
    var b := Frame(payload) + rest;
    assert b[..5] == Frame(payload)[..5];
    assert ReadUInt32BE(b, 1) == ReadUInt32BE(Frame(payload), 1);
    assert b[..|payload| + 5] == Frame(payload);
    assert b[|payload| + 5..] == rest;
  }

  /** A frame split over two chunks comes out whole with the second one. */
  lemma ReassembleSplitFrame(payload: seq<byte>, k: nat)
    requires |payload| <= MaxFrameLength && 5 <= k < |payload| + 5
    ensures Reassemble(None, Frame(payload)[..k]) == (Some(Frame(payload)[..k]), None)
    ensures Reassemble(Some(Frame(payload)[..k]), Frame(payload)[k..]) == (None, Some(Frame(payload)))
  {
    FrameRoundTrip(payload);
    var f := Frame(payload);
    assert f[..k][1..5] == f[1..5];
    assert ReadUInt32BE(f[..k], 1) == ReadUInt32BE(f, 1) == |payload|;
    assert f[..k] + f[k..] == f;
    var b := Some(f[..k]).value + f[k..];
    assert b == f;
    assert ReadUInt32BE(b, 1) == |payload|;
    assert b[..|payload| + 5] == f;
  }

  // ---------------------------------------------------------------------------
  // Request path and headers
  // ---------------------------------------------------------------------------

  /** `'/' + interfaceName + '/' + methodName`, the interface being the signature up to its first ':'. */
  function RequestPath(serverSignature: string, methodName: string): (r: string)
  {
    "/" + Split(serverSignature, ':')[0] + "/" + methodName
  }

  /** The `grpc-version` header: the signature's second ':'-separated piece, none when it has no ':'. */
  function GrpcVersion(serverSignature: string): (r: Option<string>)
  {
    var parts := Split(serverSignature, ':');
    if |parts| > 1 then Some(parts[1]) else None
  }

  /** An interface and version without ':' come back out of their signature. */
  lemma SignatureParts(interfaceName: string, version: string, methodName: string)
    requires ':' !in interfaceName && ':' !in version
    ensures RequestPath(interfaceName + ":" + version, methodName) == "/" + interfaceName + "/" + methodName
    ensures GrpcVersion(interfaceName + ":" + version) == Some(version)
  {
    assert Join([interfaceName, version], ':') == interfaceName + ":" + version;
    SplitJoin([interfaceName, version], ':');
  }

  /** The headers every call sends, whatever the request's properties. */
  function FixedHeaders(path: string, timeout: string, clientVersion: string): map<string, seq<string>>
  {
    map[
      ":method" := ["POST"],
      ":path" := [path],
      "te" := ["trailers"],
      "content-type" := ["application/grpc"],
      "user-agent" := ["sofa-node-rpc/" + clientVersion],
      "accept-encoding" := ["identity"],
      "grpc-accept-encoding" := ["identity"],
      "grpc-timeout" := [timeout]]
  }

  lemma FixedHeadersSpec(path: string, timeout: string, clientVersion: string)
    ensures var fixed := FixedHeaders(path, timeout, clientVersion);
      fixed.Keys == FixedHeaderNames - {GrpcVersionKey} &&
      fixed[":path"] == [path] && fixed["grpc-timeout"] == [timeout] && fixed["content-type"] == ["application/grpc"]
  {
  }

  /**
   * The request headers of `call` for a timeout text: the headers of the
   * request properties' metadata, overridden by the fixed gRPC headers;
   * when the signature has no version `grpc-version` is undefined and so is
   * not sent, whatever the properties held. A timeout that has no text
   * throws.
   */
  function RequestHeaders(propHeaders: map<string, seq<string>>, serverSignature: string, methodName: string,
                          timeout: Result<string>, clientVersion: string): (r: Result<map<string, seq<string>>>)
  {
    match timeout
    case Err(e) => Err(e)
    case Ok(text) =>
      var fixed := FixedHeaders(RequestPath(serverSignature, methodName), text, clientVersion);
      var version := GrpcVersion(serverSignature);
      if version.Some? then Ok(propHeaders + fixed[GrpcVersionKey := [version.value]])
      else Ok((propHeaders + fixed) - {GrpcVersionKey})
  }

  /**
   * The headers carry the path, the timeout text and the version, and the
   * version header is present exactly when the signature has one; the
   * request properties the fixed headers do not name are sent as they are.
   */
  lemma RequestHeadersSpec(propHeaders: map<string, seq<string>>, serverSignature: string, methodName: string,
                           timeout: Result<string>, clientVersion: string)
    ensures var r := RequestHeaders(propHeaders, serverSignature, methodName, timeout, clientVersion);
      (r.Ok? <==> timeout.Ok?) && (r.Err? ==> r.error == timeout.error)
    ensures var r := RequestHeaders(propHeaders, serverSignature, methodName, timeout, clientVersion);
      r.Ok? ==>
        r.value[":path"] == [RequestPath(serverSignature, methodName)] &&
        r.value["grpc-timeout"] == [timeout.value] &&
        r.value["content-type"] == ["application/grpc"] &&
        (GrpcVersionKey in r.value <==> GrpcVersion(serverSignature).Some?) &&
        (GrpcVersion(serverSignature).Some? ==> r.value[GrpcVersionKey] == [GrpcVersion(serverSignature).value]) &&
        (forall k :: k in propHeaders && k !in FixedHeaderNames ==> k in r.value && r.value[k] == propHeaders[k])
  {
    if timeout.Ok? {
      FixedHeadersSpec(RequestPath(serverSignature, methodName), timeout.value, clientVersion);
    }
  }

  /** The headers `call` sends: the timeout is written by `getTimeout` as it stands. */
  function CallHeaders(propHeaders: map<string, seq<string>>, serverSignature: string, methodName: string,
                       timeoutMs: int, clientVersion: string): (r: Result<map<string, seq<string>>>)
  {
    RequestHeaders(propHeaders, serverSignature, methodName, TimeoutText(timeoutMs, Units), clientVersion)
  }

  /** An amount that is below 10^8 before rounding up is at most 10^8 after it. */
  lemma CeilDivAtMost(x: int, f: nat)
    requires f > 0 && x < MaxAmount * f
    ensures CeilDiv(x, f) <= MaxAmount
  {
    var r := CeilDiv(x, f);
    MulMonoNat(MaxAmount, r - 1, f);
  }

  /**
   * Building the headers throws 'Deadline is too far in the future' exactly
   * for a timeout of 10^8 hours or more; otherwise they carry the path, a
   * timeout text of at most 9 digits that the timeout is within one unit
   * of, and the version, which is present exactly when the signature has one.
   */
  lemma CallHeadersSpec(propHeaders: map<string, seq<string>>, serverSignature: string, methodName: string,
                        timeoutMs: int, clientVersion: string)
    ensures var r := CallHeaders(propHeaders, serverSignature, methodName, timeoutMs, clientVersion);
      (r.Ok? <==> timeoutMs < MaxTimeoutMs) && (r.Err? ==> r.error == "Deadline is too far in the future")
    ensures var r := CallHeaders(propHeaders, serverSignature, methodName, timeoutMs, clientVersion);
      r.Ok? ==>
        r.value[":path"] == [RequestPath(serverSignature, methodName)] &&
        r.value["grpc-timeout"] == [TimeoutText(timeoutMs, Units).value] &&
        (0 <= timeoutMs ==> |r.value["grpc-timeout"][0]| <= 10) &&
        (exists k :: 0 <= k < |Units| && TimeoutFormat(timeoutMs, r.value["grpc-timeout"][0], Units[k])) &&
        r.value["content-type"] == ["application/grpc"] &&
        (GrpcVersionKey in r.value <==> GrpcVersion(serverSignature).Some?) &&
        (GrpcVersion(serverSignature).Some? ==> r.value[GrpcVersionKey] == [GrpcVersion(serverSignature).value])
  {
    var timeout := TimeoutText(timeoutMs, Units);
    TimeoutTextSpec(timeoutMs);
    RequestHeadersSpec(propHeaders, serverSignature, methodName, timeout, clientVersion);
    if timeout.Ok? && 0 <= timeoutMs {
      TimeoutTextLength(timeoutMs);
    }
  }

  /** The as-written text of a timeout that is not negative has at most 9 digits and its unit. */
  lemma TimeoutTextLength(ms: int)
    requires 0 <= ms && TimeoutText(ms, Units).Ok?
    ensures |TimeoutText(ms, Units).value| <= 10
  {
    var t := TimeoutText(ms, Units).value;
    TimeoutTextFirstFit(ms, Units);
    var k :| 0 <= k < |Units| && ms < MaxAmount * Units[k].factor && TimeoutFormat(ms, t, Units[k]);
    var f := Units[k].factor;
    var amount := CeilDiv(ms, f);
    CeilDivAtMost(ms, f);
    assert Pow10(9) == 1000000000 by {
      assert Pow10(8) == 100000000 by { assert Pow10(4) == 10000; }
    }
    NatToStringLength(amount, 9, Pow10(9));
    assert |t[..|t| - 1]| == |IntToString(amount)| <= 9;
  }

  /** The request properties the fixed headers do not name are sent as they are. */
  lemma CallHeadersKeepsProperties(propHeaders: map<string, seq<string>>, serverSignature: string, methodName: string,
                                   timeoutMs: int, clientVersion: string)
    ensures var r := CallHeaders(propHeaders, serverSignature, methodName, timeoutMs, clientVersion);
      r.Ok? ==> forall k :: k in propHeaders && k !in FixedHeaderNames ==> k in r.value && r.value[k] == propHeaders[k]
  {
    RequestHeadersSpec(propHeaders, serverSignature, methodName, TimeoutText(timeoutMs, Units), clientVersion);
  }

  /** The headers with the timeout written as the protocol's grammar allows. */
  function CorrectedCallHeaders(propHeaders: map<string, seq<string>>, serverSignature: string, methodName: string,
                                timeoutMs: int, clientVersion: string): (r: Result<map<string, seq<string>>>)
  {
    RequestHeaders(propHeaders, serverSignature, methodName, BoundedTimeoutText(timeoutMs, Units), clientVersion)
  }

  /**
   * With the corrected timeout text the headers throw only beyond 99999999
   * hours, and a timeout that is not negative is written in at most 8 digits.
   */
  lemma CorrectedCallHeadersSpec(propHeaders: map<string, seq<string>>, serverSignature: string, methodName: string,
                                 timeoutMs: int, clientVersion: string)
    ensures var r := CorrectedCallHeaders(propHeaders, serverSignature, methodName, timeoutMs, clientVersion);
      r.Ok? <==> timeoutMs <= MaxBoundedTimeoutMs
    ensures var r := CorrectedCallHeaders(propHeaders, serverSignature, methodName, timeoutMs, clientVersion);
      r.Ok? ==>
        r.value["grpc-timeout"] == [BoundedTimeoutText(timeoutMs, Units).value] &&
        (0 <= timeoutMs ==> |r.value["grpc-timeout"][0]| <= 9) &&
        (exists k :: 0 <= k < |Units| && TimeoutFormat(timeoutMs, r.value["grpc-timeout"][0], Units[k]))
  {
    BoundedTimeoutTextUnits(timeoutMs);
    BoundedTimeoutTextSpec(timeoutMs, Units);
    RequestHeadersSpec(propHeaders, serverSignature, methodName, BoundedTimeoutText(timeoutMs, Units), clientVersion);
  }

  const GrpcVersionKey := "grpc-version"

  const FixedHeaderNames: set<string> := {":method", ":path", "te", "content-type", "user-agent", "accept-encoding",
    "grpc-accept-encoding", "grpc-timeout", "grpc-version"}

  // ---------------------------------------------------------------------------
  // Trailers and close
  // ---------------------------------------------------------------------------

  /** An error the call ends with: its name, message, gRPC `code` and `resultCode` when set. */
  datatype CallError = CallError(name: string, message: string, code: Option<int>, resultCode: Option<string>)

  /** What the call resolves with: `data.appResponse`, `data.error` and the response metadata's `getMap()`. */
  datatype CallResponse = CallResponse(appResponse: Option<seq<byte>>, error: Option<CallError>, meta: map<string, MetaValue>)

  /** The error for trailers the metadata refuses. */
  function DecodeError(message: string): (e: CallError)
  {
    CallError("DecodeResponseHeadersError", message, Some(UNKNOWN), Some("02"))
  }

  const StatusKey := "grpc-status"
  const MessageKey := "grpc-message"

  /**
   * What trailers decide once decoded into `repr`: a status already mapped
   * from the HTTP status stays with everything else; otherwise a text
   * `grpc-status` that reads as a status code is adopted, and a text
   * `grpc-status` and `grpc-message` are both taken out of the metadata,
   * the message (URI-decoded by `decodeUri`) becoming the status message.
   */
  function TrailerOutcome(mapped: int, message: string, repr: Repr, decodeUri: string -> string)
    : (r: (int, string, Repr))
  {
    if mapped != UNKNOWN then (mapped, message, repr)
    else
      var m := FirstValues(repr);
      var hasStatus := StatusKey in m && m[StatusKey].Text?;
      var hasMessage := MessageKey in m && m[MessageKey].Text?;
      var code := if hasStatus then JsNumber(m[StatusKey].text) else None;
      var mapped' := if code.Some? && IsStatus(code.value) then code.value else mapped;
      var repr' := if hasStatus then repr - {StatusKey} else repr;
      if hasMessage then (mapped', decodeUri(m[MessageKey].text), repr' - {MessageKey})
      else (mapped', message, repr')
  }

  /**
   * A mapped status ignores the trailers' status. Otherwise the status
   * becomes the number a `grpc-status` text reads as when that is a status
   * code, else stays UNKNOWN; `grpc-status` and `grpc-message` are no
   * longer in the metadata and every other key keeps its values.
   */
  lemma TrailerOutcomeSpec(mapped: int, message: string, repr: Repr, decodeUri: string -> string)
    requires WellFormed(repr)
    ensures StatusKey in repr ==> repr[StatusKey] != [] && repr[StatusKey][0].Text?
    ensures MessageKey in repr ==> repr[MessageKey] != [] && repr[MessageKey][0].Text?
    ensures mapped != UNKNOWN ==> TrailerOutcome(mapped, message, repr, decodeUri) == (mapped, message, repr)
    ensures mapped == UNKNOWN ==>
      var (code, msg, repr') := TrailerOutcome(mapped, message, repr, decodeUri);
      var n := if StatusKey in repr then JsNumber(repr[StatusKey][0].text) else None;
      (code != UNKNOWN <==> n.Some? && IsStatus(n.value) && n.value != UNKNOWN) &&
      (code != UNKNOWN ==> code == n.value) &&
      (MessageKey in repr ==> msg == decodeUri(repr[MessageKey][0].text)) &&
      (MessageKey !in repr ==> msg == message) &&
      StatusKey !in repr' && MessageKey !in repr' &&
      forall k :: k != StatusKey && k != MessageKey ==> (k in repr' <==> k in repr) && (k in repr ==> repr'[k] == repr[k])
  {
    StatusKeysAreText(repr);
  }

  /** Under a well-formed metadata `grpc-status` and `grpc-message`, which do not end in '-bin', hold texts. */
  lemma StatusKeysAreText(repr: Repr)
    requires WellFormed(repr)
    ensures StatusKey in repr ==> repr[StatusKey] != [] && repr[StatusKey][0].Text?
    ensures MessageKey in repr ==> repr[MessageKey] != [] && repr[MessageKey][0].Text?
  {
    assert !IsBinaryKey(StatusKey) by { assert StatusKey[|StatusKey| - 4..] == "atus"; }
    assert !IsBinaryKey(MessageKey) by { assert MessageKey[|MessageKey| - 4..] == "sage"; }
    if StatusKey in repr {
      assert Validate(StatusKey, Some(repr[StatusKey][0])).None?;
    }
    if MessageKey in repr {
      assert Validate(MessageKey, Some(repr[MessageKey][0])).None?;
    }
  }

  /** Both keys are legal and already lower-case, so `remove` takes them out. */
  lemma StatusKeysLegal()
    ensures ToLower(StatusKey) == StatusKey && Validate(StatusKey, None).None?
    ensures ToLower(MessageKey) == MessageKey && Validate(MessageKey, None).None?
  {
    KeyLegal(StatusKey);
    KeyLegal(MessageKey);
  }

  lemma KeyLegal(key: string)
    requires key == StatusKey || key == MessageKey
    ensures ToLower(key) == key && Validate(key, None).None?
  {
    assert IsLegalKey(key) by {
      assert forall i :: 0 <= i < |key| ==> LegalKeyChar(key[i]);
    }
    LegalKeyIsLower(key);
  }

  /**
   * `_handleClose`'s code and details: a stream reset with REFUSED_STREAM,
   * CANCEL, ENHANCE_YOUR_CALM or INADEQUATE_SECURITY maps to UNAVAILABLE,
   * CANCELLED, RESOURCE_EXHAUSTED (with its own details) or
   * PERMISSION_DENIED (with its own details), any other non-zero code to
   * INTERNAL; NO_ERROR keeps the status and message the call has.
   */
  function CloseStatus(mapped: int, message: string, rstCode: nat): (r: (int, string))
  {
    if rstCode == REFUSED_STREAM then (UNAVAILABLE, message)
    else if rstCode == CANCEL then (CANCELLED, message)
    else if rstCode == ENHANCE_YOUR_CALM then (RESOURCE_EXHAUSTED, "Bandwidth exhausted")
    else if rstCode == INADEQUATE_SECURITY then (PERMISSION_DENIED, "Protocol not secure enough")
    else if rstCode != NO_ERROR then (INTERNAL, message)
    else (mapped, message)
  }

  /** The error the call ends with on close: none for OK, otherwise one with the code and `resultCode '02'`. */
  function CloseError(code: int, details: string, rstCode: nat): (r: Option<CallError>)
  {
    if code == OK then None
    else
      var text := if details != "" then details else "Stream closed with errorCode: " + NatToString(rstCode);
      Some(CallError("Error", text, Some(code), Some("02")))
  }

  /**
   * The call ends in error exactly when the final code is not OK, and then
   * with that code and result code '02'; a reset stream always ends in
   * error; a clean close keeps the status the call has; the final code is
   * a status code whenever the call's was.
   */
  lemma CloseSpec(mapped: int, message: string, rstCode: nat)
    ensures var (code, details) := CloseStatus(mapped, message, rstCode);
      var err := CloseError(code, details, rstCode);
      (err.Some? <==> code != OK) &&
      (err.Some? ==> err.value.code == Some(code) && err.value.resultCode == Some("02") && err.value.message != "") &&
      (rstCode != NO_ERROR ==> err.Some?) &&
      (rstCode == NO_ERROR ==> code == mapped && details == message) &&
      (IsStatus(mapped) ==> IsStatus(code))
    ensures CloseStatus(mapped, message, REFUSED_STREAM).0 == UNAVAILABLE
    ensures CloseStatus(mapped, message, CANCEL).0 == CANCELLED
    ensures CloseStatus(mapped, message, ENHANCE_YOUR_CALM) == (RESOURCE_EXHAUSTED, "Bandwidth exhausted")
    ensures CloseStatus(mapped, message, INADEQUATE_SECURITY) == (PERMISSION_DENIED, "Protocol not secure enough")
    ensures rstCode !in {NO_ERROR, REFUSED_STREAM, CANCEL, ENHANCE_YOUR_CALM, INADEQUATE_SECURITY} ==>
      CloseStatus(mapped, message, rstCode).0 == INTERNAL
  {
  }

  /** A decoded response: the message's payload, and the `resSize` it is recorded with. */
  function ResponsePayload(res: CallResponse, hasResponseType: bool): (r: Option<(seq<byte>, int)>)
  {
    if res.error.None? && hasResponseType && res.appResponse.Some? then
      Some((Unframe(res.appResponse.value), |res.appResponse.value| - 5))
    else None
  }

  /** A response whose message is a frame gives back that frame's payload and its length. */
  lemma ResponsePayloadOfFrame(payload: seq<byte>, meta: map<string, MetaValue>)
    requires |payload| <= MaxFrameLength
    ensures ResponsePayload(CallResponse(Some(Frame(payload)), None, meta), true) == Some((payload, |payload|))
    ensures forall e: CallError :: ResponsePayload(CallResponse(Some(Frame(payload)), Some(e), meta), true).None?
  {
    FrameRoundTrip(payload);
  }

  /** Drops the `:status` and `content-type` headers, which the response handler deletes. */
  function WithoutResponseHeaders(headers: seq<(string, HeaderValue)>): (r: seq<(string, HeaderValue)>)
    ensures forall i :: 0 <= i < |r| ==> r[i] in headers && r[i].0 != ":status" && r[i].0 != "content-type"
    ensures forall e :: e in headers && e.0 != ":status" && e.0 != "content-type" ==> e in r
  {
    if headers == [] then []
    else
      (if headers[0].0 == ":status" || headers[0].0 == "content-type" then [] else [headers[0]])
        + WithoutResponseHeaders(headers[1..])
  }

  // ---------------------------------------------------------------------------
  // The call stream
  // ---------------------------------------------------------------------------

  /** An `Http2CallStream`: what the handlers of one call's HTTP/2 stream keep. */
  class CallStream {
    /** `_response`: set once, when the call ends */
    var response: Option<CallResponse>
    var mappedStatusCode: int
    var statusMessage: string
    /** `_responseData`: the last message handed to the 'data' listener */
    var responseData: Option<seq<byte>>
    /** `_buf` */
    var buf: Option<seq<byte>>
    /** the messages taken out of the stream and not yet read, oldest first */
    var readMessages: seq<seq<byte>>
    const responseMetadata: Metadata

    constructor()
      ensures response.None? && mappedStatusCode == UNKNOWN && statusMessage == ""
      ensures responseData.None? && buf.None? && readMessages == []
      ensures fresh(responseMetadata) && responseMetadata.internalRepr == map[]
    {
      response := None;
      mappedStatusCode := UNKNOWN;
      statusMessage := "";
      responseData := None;
      buf := None;
      readMessages := [];
      responseMetadata := new Metadata();
    }

    /** `_endCall(err)`: only the first call records the response. */
    method EndCall(err: Option<CallError>)
      modifies this
      ensures old(response).None? ==>
        response == Some(CallResponse(responseData, err, FirstValues(responseMetadata.internalRepr)))
      ensures old(response).Some? ==> response == old(response)
      ensures mappedStatusCode == old(mappedStatusCode) && statusMessage == old(statusMessage)
      ensures responseData == old(responseData) && buf == old(buf) && readMessages == old(readMessages)
    {
      if response.None? {
        response := Some(CallResponse(responseData, err, responseMetadata.GetMap()));
      }
    }

    /** `_handleTrailers(headers)`. */
    method HandleTrailers(headers: seq<(string, HeaderValue)>, decodeUri: string -> string)
      modifies this, responseMetadata
      ensures var (e, repr) := FromEntries(old(responseMetadata.internalRepr), headers);
        e.Some? ==>
          responseMetadata.internalRepr == repr &&
          mappedStatusCode == old(mappedStatusCode) && statusMessage == old(statusMessage) &&
          response == (if old(response).None? then Some(CallResponse(responseData, Some(DecodeError(e.value)), FirstValues(repr)))
                       else old(response))
    ensures var (e, repr) := FromEntries(old(responseMetadata.internalRepr), headers);
        e.None? ==>
          (mappedStatusCode, statusMessage, responseMetadata.internalRepr) ==
            TrailerOutcome(old(mappedStatusCode), old(statusMessage), repr, decodeUri) &&
          response == old(response)
      ensures responseData == old(responseData) && buf == old(buf) && readMessages == old(readMessages)
    {
      var e := responseMetadata.FromHttp2Headers(headers);
      if e.Some? {
        EndCall(Some(DecodeError(e.value)));
        return;
      }
      AdoptTrailers(decodeUri);
    }

    /** The part of `_handleTrailers` after the trailers are decoded and no status is mapped yet. */
    method AdoptTrailers(decodeUri: string -> string)
      modifies this, responseMetadata
      ensures (mappedStatusCode, statusMessage, responseMetadata.internalRepr) ==
        TrailerOutcome(old(mappedStatusCode), old(statusMessage), old(responseMetadata.internalRepr), decodeUri)
      ensures response == old(response)
      ensures responseData == old(responseData) && buf == old(buf) && readMessages == old(readMessages)
    {
      if mappedStatusCode != UNKNOWN {
        return;
      }
      ghost var repr := responseMetadata.internalRepr;
      var m := responseMetadata.GetMap();
      var hasStatus := StatusKey in m && m[StatusKey].Text?;
      var hasMessage := MessageKey in m && m[MessageKey].Text?;
      var statusText := if hasStatus then m[StatusKey].text else "";
      var messageText := if hasMessage then m[MessageKey].text else "";
      if hasStatus {
        var code := JsNumber(statusText);
        if code.Some? && IsStatus(code.value) {
          mappedStatusCode := code.value;
        }
        RemoveMetadataKey(StatusKey);
      }
      assert responseMetadata.internalRepr == (if hasStatus then repr - {StatusKey} else repr);
      if hasMessage {
        statusMessage := decodeUri(messageText);
        RemoveMetadataKey(MessageKey);
      }
    }

    /** `this._responseMetadata.remove(key)` for `grpc-status` or `grpc-message`, which are legal keys. */
    method RemoveMetadataKey(key: string)
      requires key == StatusKey || key == MessageKey
      modifies responseMetadata
      ensures responseMetadata.internalRepr == old(responseMetadata.internalRepr) - {key}
    {
      KeyLegal(key);
      var _ := responseMetadata.Remove(key);
    }

    /** `_handleClose()`, given the stream's `rstCode`. */
    method HandleClose(rstCode: nat)
      modifies this
      ensures var (code, details) := CloseStatus(old(mappedStatusCode), old(statusMessage), rstCode);
        response == (if old(response).None? then
            Some(CallResponse(responseData, CloseError(code, details, rstCode), FirstValues(responseMetadata.internalRepr)))
          else old(response))
      ensures mappedStatusCode == old(mappedStatusCode) && statusMessage == old(statusMessage)
      ensures responseData == old(responseData) && buf == old(buf) && readMessages == old(readMessages)
    {
      var code, details := mappedStatusCode, statusMessage;
      if rstCode == REFUSED_STREAM {
        code := UNAVAILABLE;
      } else if rstCode == CANCEL {
        code := CANCELLED;
      } else if rstCode == ENHANCE_YOUR_CALM {
        code := RESOURCE_EXHAUSTED;
        details := "Bandwidth exhausted";
      } else if rstCode == INADEQUATE_SECURITY {
        code := PERMISSION_DENIED;
        details := "Protocol not secure enough";
      } else if rstCode != NO_ERROR {
        code := INTERNAL;
      }
      var err: Option<CallError> := None;
      if code != OK {
        var text := if details != "" then details else "Stream closed with errorCode: " + NatToString(rstCode);
        err := Some(CallError("Error", text, Some(code), Some("02")));
      }
      EndCall(err);
    }

    /**
     * The stream's 'response' event: the HTTP status is mapped, and the
     * other headers are trailers when the stream ends with them, else
     * initial metadata, whose refusal cancels the call with that error.
     */
    method HandleResponse(httpStatus: Option<int>, endStream: bool, headers: seq<(string, HeaderValue)>,
                          decodeUri: string -> string)
      modifies this, responseMetadata
      ensures var (e, repr) := FromEntries(old(responseMetadata.internalRepr), WithoutResponseHeaders(headers));
        endStream && e.None? ==>
          (mappedStatusCode, statusMessage, responseMetadata.internalRepr) ==
            TrailerOutcome(MappedStatus(httpStatus), old(statusMessage), repr, decodeUri) &&
          response == old(response)
      ensures var (e, repr) := FromEntries(old(responseMetadata.internalRepr), WithoutResponseHeaders(headers));
        endStream && e.Some? ==>
          responseMetadata.internalRepr == repr &&
          mappedStatusCode == MappedStatus(httpStatus) && statusMessage == old(statusMessage) &&
          response == (if old(response).Some? then old(response)
            else Some(CallResponse(responseData, Some(DecodeError(e.value)), FirstValues(repr))))
      ensures var (e, repr) := FromEntries(old(responseMetadata.internalRepr), WithoutResponseHeaders(headers));
        !endStream ==>
          responseMetadata.internalRepr == repr &&
          mappedStatusCode == MappedStatus(httpStatus) && statusMessage == old(statusMessage) &&
          response == (if e.None? || old(response).Some? then old(response)
            else Some(CallResponse(responseData, Some(CallError(ErrorName(e.value), e.value, None, None)), FirstValues(repr))))
      ensures responseData == old(responseData) && buf == old(buf) && readMessages == old(readMessages)
    {
      mappedStatusCode := MappedStatus(httpStatus);
      var rest := WithoutResponseHeaders(headers);
      if endStream {
        HandleTrailers(rest, decodeUri);
      } else {
        HandleInitialMetadata(rest);
      }
    }

    /** The headers of a response that does not end the stream: initial metadata, whose refusal cancels the call. */
    method HandleInitialMetadata(headers: seq<(string, HeaderValue)>)
      modifies this, responseMetadata
      ensures var (e, repr) := FromEntries(old(responseMetadata.internalRepr), headers);
        responseMetadata.internalRepr == repr &&
        response == (if e.None? || old(response).Some? then old(response)
          else Some(CallResponse(responseData, Some(CallError(ErrorName(e.value), e.value, None, None)), FirstValues(repr))))
      ensures mappedStatusCode == old(mappedStatusCode) && statusMessage == old(statusMessage)
      ensures responseData == old(responseData) && buf == old(buf) && readMessages == old(readMessages)
    {
      var e := responseMetadata.FromHttp2Headers(headers);
      if e.Some? {
        EndCall(Some(CallError(ErrorName(e.value), e.value, None, None)));
      }
    }

    /** The stream's 'data' event. */
    method OnData(chunk: seq<byte>)
      modifies this
      ensures var (after, msg) := Reassemble(old(buf), chunk);
        buf == after && readMessages == old(readMessages) + (if msg.Some? then [msg.value] else [])
      ensures response == old(response) && responseData == old(responseData)
      ensures mappedStatusCode == old(mappedStatusCode) && statusMessage == old(statusMessage)
    {
      var b := if buf.Some? then buf.value + chunk else chunk;
      var total := |b|;
      if total < 5 {
        buf := Some(b);
        return;
      }
      var bodySize := ReadUInt32BE(b, 1);
      if total < bodySize + 5 {
        buf := Some(b);
        return;
      }
      readMessages := readMessages + [b[..bodySize + 5]];
      if total == bodySize + 5 {
        buf := None;
      } else {
        buf := Some(b[bodySize + 5..]);
      }
    }

    /** The readable side hands its oldest message to the 'data' listener, which keeps it as `_responseData`. */
    method ReadMessage()
      modifies this
      ensures old(readMessages) != [] ==> responseData == Some(old(readMessages)[0]) && readMessages == old(readMessages)[1..]
      ensures old(readMessages) == [] ==> responseData == old(responseData) && readMessages == []
      ensures response == old(response) && buf == old(buf)
      ensures mappedStatusCode == old(mappedStatusCode) && statusMessage == old(statusMessage)
    {
      if readMessages != [] {
        responseData := Some(readMessages[0]);
        readMessages := readMessages[1..];
      }
    }
  }
}
