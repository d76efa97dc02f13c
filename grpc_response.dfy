/**
 * The server's side of one gRPC call: the request record a stream yields,
 * and the response that records the call's bookkeeping and sends headers,
 * a Length-Prefixed-Message body and trailers.
 */
module GrpcResponses {
  import opened Common
  import opened GrpcCallStream

  /**
   * The `grpc-timeout` header as the server reads it: absent, kept as the
   * header text when it is too short to parse, a number of milliseconds,
   * or NaN.
   */
  datatype Deadline = NoDeadline | HeaderText(text: string) | Millis(ms: int) | NotANumber

  /**
   * A request as a server stream hands it on: the signature, the interface
   * and method from the path (none where the path lacks them), the decoded
   * arguments, the codec, the deadline and `meta.size`.
   */
  datatype ServerRequest = ServerRequest(
    serverSignature: string,
    interfaceName: Option<string>,
    methodName: Option<string>,
    args: seq<seq<byte>>,
    codecType: string,
    timeout: Deadline,
    metaSize: nat)

  /** The `meta` record of a response. */
  datatype ResponseMeta = ResponseMeta(
    start: int,
    rt: int,
    data: Option<seq<byte>>,
    responseEncodeRT: int,
    serviceName: string,
    interfaceName: Option<string>,
    methodName: Option<string>,
    remoteIp: string,
    reqSize: nat,
    resSize: nat,
    resultCode: string)

  /** What `send` is given: the error flag and message, or the result to encode. */
  datatype SendData = SendData(isError: bool, errorMsg: string, appResponse: Value)

  /** What goes on the stream: the response headers, the trailers and the body. */
  datatype Reply = Reply(headers: map<string, Value>, trailers: map<string, Value>, body: seq<byte>)

  /** The meta of a new response: result code '00', nothing measured, the request's size or 0. */
  function InitialMeta(req: ServerRequest, remoteIp: string, now: int): (m: ResponseMeta)
  {
    ResponseMeta(now, 0, None, 0, req.serverSignature, req.interfaceName, req.methodName, remoteIp, req.metaSize, 0, "00")
  }

  const BaseHeaders: map<string, Value> := map[
    "content-type" := Str("application/grpc"),
    "grpc-accept-encoding" := Str("identity"),
    "accept-encoding" := Str("identity")]

  const OkTrailers: map<string, Value> := map["grpc-status" := Number(0), "grpc-message" := Str("OK")]

  /**
   * What `send` puts on the stream and records in the meta: an error gets
   * HTTP status 500, gRPC status 2 (UNKNOWN) with the error message and an
   * empty body, and result code '02'; a result of a method with a response
   * type gets HTTP status 200, status 0 'OK' and the frame of its encoding
   * `payload`, whose size plus 5 is `resSize`; otherwise the body is empty
   * and the meta unchanged. `encodeStart` and `now` are the clock.
   */
  function SendOutcome(meta: ResponseMeta, res: SendData, hasResponseType: bool, payload: seq<byte>,
                       encodeStart: int, now: int): (r: (ResponseMeta, Reply))
    requires |payload| <= MaxFrameLength
  {
    if res.isError then
      (meta.(rt := now - meta.start, resultCode := "02"),
       Reply(BaseHeaders[":status" := Number(500)],
             OkTrailers["grpc-status" := Number(2)]["grpc-message" := Str(res.errorMsg)], []))
    else if hasResponseType then
      (meta.(responseEncodeRT := now - encodeStart, data := Some(payload), rt := now - meta.start, resSize := |payload| + 5),
       Reply(BaseHeaders[":status" := Number(200)], OkTrailers, Frame(payload)))
    else (meta, Reply(BaseHeaders, OkTrailers, []))
  }

  /**
   * An error reply says status 500, gRPC status 2 and the message, with
   * result code '02' and no body; a successful reply says status 200 and
   * gRPC status 0 'OK' and its body is the payload's frame, `resSize`
   * counting the 5 header bytes; nothing but the rt and result code (or the
   * encoding's figures) changes in the meta.
   */
  lemma SendOutcomeSpec(meta: ResponseMeta, res: SendData, hasResponseType: bool, payload: seq<byte>,
                        encodeStart: int, now: int)
    requires |payload| <= MaxFrameLength
    ensures var (m, reply) := SendOutcome(meta, res, hasResponseType, payload, encodeStart, now);
      res.isError ==>
        m.resultCode == "02" && m.rt == now - meta.start && m.resSize == meta.resSize &&
        reply.headers[":status"] == Number(500) && reply.trailers["grpc-status"] == Number(2) &&
        reply.trailers["grpc-message"] == Str(res.errorMsg) && reply.body == []
    ensures var (m, reply) := SendOutcome(meta, res, hasResponseType, payload, encodeStart, now);
      !res.isError && hasResponseType ==>
        m.resultCode == meta.resultCode && m.resSize == |payload| + 5 == |reply.body| && m.data == Some(payload) &&
        reply.headers[":status"] == Number(200) && reply.trailers == OkTrailers &&
        Unframe(reply.body) == payload && ReadUInt32BE(reply.body, 1) == |payload|
    ensures var (m, reply) := SendOutcome(meta, res, hasResponseType, payload, encodeStart, now);
      !res.isError && !hasResponseType ==> m == meta && ":status" !in reply.headers && reply.body == []
    ensures var (m, reply) := SendOutcome(meta, res, hasResponseType, payload, encodeStart, now);
      reply.headers["content-type"] == Str("application/grpc") &&
      m.reqSize == meta.reqSize && m.start == meta.start && m.serviceName == meta.serviceName
  {
    if !res.isError && hasResponseType {
      FrameRoundTrip(payload);
    }
  }

  /**
   * End to end: a successful reply maps to OK on the client, its body
   * arriving in one chunk comes out as one message, and that message's
   * payload is the encoding sent.
   */
  lemma ReplyReachesClient(meta: ResponseMeta, res: SendData, payload: seq<byte>, encodeStart: int, now: int)
    requires |payload| <= MaxFrameLength && !res.isError
    ensures var reply := SendOutcome(meta, res, true, payload, encodeStart, now).1;
      MappedStatus(Some(200)) == OK &&
      Reassemble(None, reply.body) == (None, Some(reply.body)) &&
      ResponsePayload(CallResponse(Some(reply.body), None, map[]), true) == Some((payload, |payload|))
  {
    ReassembleFrame(payload, []);
    assert Frame(payload) + [] == Frame(payload);
    ResponsePayloadOfFrame(payload, map[]);
  }

  /** A `GRpcResponse`. */
  class GrpcResponse {
    var meta: ResponseMeta
    /** whether the method has a response type */
    const hasResponseType: bool
    /** whether there is a stream to answer on that is not destroyed when sending */
    const streamOpen: bool
    /** `isClosed`: the stream is closed */
    var closed: bool
    /** the replies put on the stream */
    var sent: seq<Reply>

    constructor(req: ServerRequest, remoteIp: string, hasResponseType: bool, streamOpen: bool, closed: bool, now: int)
      ensures meta == InitialMeta(req, remoteIp, now)
      ensures this.hasResponseType == hasResponseType && this.streamOpen == streamOpen && this.closed == closed
      ensures sent == []
    {
      meta := InitialMeta(req, remoteIp, now);
      this.hasResponseType := hasResponseType;
      this.streamOpen := streamOpen;
      this.closed := closed;
      sent := [];
    }

    /** `send(res)`, `payload` being the encoding of the result. */
    method Send(res: SendData, payload: seq<byte>, encodeStart: int, now: int)
      requires |payload| <= MaxFrameLength
      modifies this
      ensures var (m, reply) := SendOutcome(old(meta), res, hasResponseType, payload, encodeStart, now);
        meta == m && sent == old(sent) + (if streamOpen then [reply] else [])
      ensures closed == old(closed)
    {
      var headers := BaseHeaders;
      var trailers := OkTrailers;
      var body: seq<byte> := [];
      if res.isError {
        meta := meta.(rt := now - meta.start, resultCode := "02");
        headers := headers[":status" := Number(500)];
        trailers := trailers["grpc-status" := Number(2)]["grpc-message" := Str(res.errorMsg)];
      } else if hasResponseType {
        meta := meta.(responseEncodeRT := now - encodeStart, data := Some(payload), rt := now - meta.start,
                      resSize := |payload| + 5);
        headers := headers[":status" := Number(200)];
        body := Frame(payload);
      }
      if !streamOpen {
        return;
      }
      sent := sent + [Reply(headers, trailers, body)];
    }
  }
}
