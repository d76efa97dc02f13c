/**
 * The client's request record: what a consumer sends, with the `meta`
 * record the client fills in along the way (id, result code, the address
 * group that routed it, sizes and times).
 */
module Requests {
  import opened Common

  /**
   * The fields a request is built from. A missing string field is "", a
   * missing timeout 0; the other optional fields are `Undefined` when
   * missing.
   */
  datatype RequestData = RequestData(
    targetAppName: Value,
    serverSignature: string,
    group: Value,
    methodName: string,
    args: Option<seq<Value>>,
    timeout: int,
    codecType: Value,
    requestProps: Value,
    ctx: Value)

  /** The per-call bookkeeping of a request. */
  datatype RequestMeta = RequestMeta(
    id: Option<nat>,
    resultCode: string,
    connectionGroup: Option<string>,
    codecType: Option<string>,
    boltVersion: Option<nat>,
    crcEnable: bool,
    start: int,
    timeout: int,
    address: Option<Address>,
    requestEncodeStart: int,
    requestEncodeRT: int,
    reqSize: nat,
    responseDecodeStart: int,
    responseDecodeRT: int,
    resSize: nat,
    rt: Option<nat>,
    error: Option<Value>)

  datatype RpcRequest = RpcRequest(
    targetAppName: Value,
    serverSignature: string,
    group: Value,
    methodName: string,
    args: seq<Value>,
    timeout: int,
    codecType: Value,
    requestProps: Value,
    ctx: Value,
    meta: RequestMeta)

  /** The `meta` of a new request: result code '00', nothing routed or measured yet; `now` is the clock. */
  function InitialMeta(timeout: int, now: int): RequestMeta
  {
    RequestMeta(None, "00", None, None, None, false, now, timeout, None, 0, 0, 0, 0, 0, 0, None, None)
  }

  /**
   * `new RpcRequest(data)`: the four required fields are checked in order,
   * the first missing one failing with its own message; `requestProps`
   * defaults to `{ service: serverSignature }`.
   */
  function NewRequest(data: RequestData, now: int): (r: Result<RpcRequest>)
  {
    if data.serverSignature == "" then Err("[RpcRequest] req.serverSignature is required")
    else if data.methodName == "" then Err("[RpcRequest] req.methodName is required")
    else if data.args.None? then Err("[RpcRequest] req.args is required")
    else if data.timeout == 0 then Err("[RpcRequest] req.timeout is required")
    else
      var props := if Truthy(data.requestProps) then data.requestProps
        else Object(map["service" := Str(data.serverSignature)]);
      Ok(RpcRequest(data.targetAppName, data.serverSignature, data.group, data.methodName, data.args.value,
        data.timeout, data.codecType, props, data.ctx, InitialMeta(data.timeout, now)))
  }

  /**
   * A request is built exactly when signature, method, arguments and
   * timeout are all given; it then carries the given fields unchanged, the
   * default properties name the service, and its meta starts at result
   * code '00' with the request's timeout and nothing routed yet.
   */
  lemma NewRequestSpec(data: RequestData, now: int)
    ensures NewRequest(data, now).Ok? <==>
      data.serverSignature != "" && data.methodName != "" && data.args.Some? && data.timeout != 0
    ensures NewRequest(data, now).Ok? ==>
      var req := NewRequest(data, now).value;
      req.serverSignature == data.serverSignature && req.methodName == data.methodName &&
      req.args == data.args.value && req.timeout == data.timeout &&
      req.targetAppName == data.targetAppName && req.group == data.group &&
      req.codecType == data.codecType && req.ctx == data.ctx &&
      (Truthy(data.requestProps) ==> req.requestProps == data.requestProps) &&
      (!Truthy(data.requestProps) ==> req.requestProps == Object(map["service" := Str(data.serverSignature)])) &&
      req.meta.resultCode == "00" && req.meta.timeout == data.timeout && req.meta.start == now &&
      req.meta.id.None? && req.meta.connectionGroup.None? && req.meta.rt.None? && req.meta.error.None?
    ensures data.serverSignature == "" ==> NewRequest(data, now) == Err("[RpcRequest] req.serverSignature is required")
  {
  }
}
