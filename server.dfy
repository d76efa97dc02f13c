/**
 * The RPC server: its table of services by id, the dispatch of a request
 * to the service its signature names, the start guard, the published port
 * and the table of open connections.
 */
module Servers {
  import opened Common
  import opened GrpcCallStream
  import opened GrpcResponses
  import opened Services

  const DefaultPort: nat := 12200
  const DefaultGroup: string := "SOFA"
  const DefaultVersion: string := "1.0"

  /** What `addService` is given: an interface name alone, or service options that may leave version and group to the server. */
  datatype ServiceInfo =
    | Named(name: string)
    | Described(interfaceName: string, version: Option<string>, group: Option<string>, uniqueId: string,
                customMeta: Value, apiMeta: Option<seq<MethodMeta>>)

  /** The options of the service `addService` builds: the server's group and version unless the info gives its own. */
  function ServiceOptionsOf(info: ServiceInfo, group: string, version: string, hasRegistry: bool): (o: ServiceOptions)
  {
    match info
    case Named(name) => ServiceOptions(name, version, group, "", Undefined, None, hasRegistry)
    case Described(name, v, g, uid, meta, api) =>
      ServiceOptions(name, if v.Some? then v.value else version, if g.Some? then g.value else group, uid, meta, api, hasRegistry)
  }

  /** A string is taken as the interface name, with the server's version and group; the info's own version and group win. */
  lemma ServiceOptionsSpec(info: ServiceInfo, group: string, version: string, hasRegistry: bool)
    ensures info.Named? ==> ServiceId(ServiceOptionsOf(info, group, version, hasRegistry)) == info.name + ":" + version
    ensures var o := ServiceOptionsOf(info, group, version, hasRegistry);
      o.hasRegistry == hasRegistry &&
      o.interfaceName == (if info.Named? then info.name else info.interfaceName) &&
      (info.Described? && info.version.Some? ==> o.version == info.version.value) &&
      (info.Described? && info.group.Some? ==> o.group == info.group.value) &&
      ((info.Named? || info.group.None?) ==> o.group == group)
  {
  }

  /** The request's interface name, or else the part of its signature before the first ':'. */
  function WithInterface(req: ServerRequest): (r: ServerRequest)
  {
    if req.interfaceName.Some? && req.interfaceName.value != "" then req
    else req.(interfaceName := Some(Split(req.serverSignature, ':')[0]))
  }

  /** Only the interface name changes, it is set, and for a service's id without one it is the service's interface. */
  lemma WithInterfaceSpec(req: ServerRequest, o: ServiceOptions)
    ensures WithInterface(req).(interfaceName := req.interfaceName) == req
    ensures WithInterface(req).interfaceName.Some?
    ensures req.interfaceName.Some? && req.interfaceName.value != "" ==> WithInterface(req) == req
    ensures (req.serverSignature == ServiceId(o) && (req.interfaceName.None? || req.interfaceName == Some("")) &&
             ':' !in o.interfaceName && ':' !in o.version && ':' !in o.uniqueId) ==>
      WithInterface(req).interfaceName == Some(o.interfaceName)
  {
    if ':' !in o.interfaceName && ':' !in o.version && ':' !in o.uniqueId {
      ServiceIdSplits(o);
    }
  }

  /** The error message for a signature no service has. */
  function NotFoundMessage(id: string): string
  {
    "not found service: " + id
  }

  /**
   * What a request for an unknown service leaves: result code '02' and
   * an error reply with the 'not found service' message.
   */
  function NotFoundResult(meta: ResponseMeta, hasResponseType: bool, id: string, encodeStart: int, now: int)
    : (r: (ResponseMeta, Reply))
  {
    SendOutcome(meta.(resultCode := "02"), SendData(true, NotFoundMessage(id), Null), hasResponseType, [], encodeStart, now)
  }

  lemma NotFoundResultSpec(meta: ResponseMeta, hasResponseType: bool, id: string, encodeStart: int, now: int)
    ensures var (m, reply) := NotFoundResult(meta, hasResponseType, id, encodeStart, now);
      m.resultCode == "02" && reply.headers[":status"] == Number(500) &&
      reply.trailers["grpc-status"] == Number(2) && reply.trailers["grpc-message"] == Str("not found service: " + id) &&
      reply.body == []
  {
    SendOutcomeSpec(meta.(resultCode := "02"), SendData(true, NotFoundMessage(id), Null), hasResponseType, [], encodeStart, now);
  }

  /** An `RpcServer`. */
  class RpcServer {
    const group: string
    const version: string
    const hasRegistry: bool
    /** services by id */
    var services: map<string, RpcService>
    /** open connections by key */
    var connections: map<string, nat>
    var started: bool
    var publishPort: nat
    /** the ports listened on */
    var servers: seq<nat>

    /** A server with the given options or the defaults: port 12200, group 'SOFA', version '1.0'. */
    constructor(port: Option<nat>, group: Option<string>, version: Option<string>, hasRegistry: bool)
      ensures publishPort == (if port.Some? then port.value else DefaultPort)
      ensures this.group == (if group.Some? then group.value else DefaultGroup)
      ensures this.version == (if version.Some? then version.value else DefaultVersion)
      ensures this.hasRegistry == hasRegistry
      ensures services == map[] && connections == map[] && !started && servers == []
    {
      this.group := if group.Some? then group.value else DefaultGroup;
      this.version := if version.Some? then version.value else DefaultVersion;
      this.hasRegistry := hasRegistry;
      publishPort := if port.Some? then port.value else DefaultPort;
      services := map[];
      connections := map[];
      started := false;
      servers := [];
    }

    /**
     * `addService(info)`: a service without an interface name fails its
     * assertion; any other is stored under its id, replacing a service
     * of the same id.
     */
    method AddService(info: ServiceInfo) returns (err: Option<string>)
      modifies this
      ensures var o := ServiceOptionsOf(info, group, version, hasRegistry);
        if o.interfaceName == "" then
          err == Some("[RpcService] options.interfaceName is required") && services == old(services)
        else
          err.None? && ServiceId(o) in services && fresh(services[ServiceId(o)]) &&
          services[ServiceId(o)].options == o &&
          services == old(services)[ServiceId(o) := services[ServiceId(o)]]
      ensures connections == old(connections) && started == old(started) && publishPort == old(publishPort)
      ensures servers == old(servers)
    {
      var o := ServiceOptionsOf(info, group, version, hasRegistry);
      if o.interfaceName == "" {
        return Some("[RpcService] options.interfaceName is required");
      }
      var service := new RpcService(o);
      services := services[service.id := service];
      err := None;
    }

    /** `start()`: the first call marks the server started and listens on the publish port; later calls do nothing. */
    method Start()
      modifies this
      ensures started
      ensures servers == old(servers) + (if old(started) then [] else [old(publishPort)])
      ensures services == old(services) && connections == old(connections) && publishPort == old(publishPort)
    {
      if !started {
        started := true;
        var ports := [publishPort];
        var i := 0;
        while i < |ports|
          invariant 0 <= i <= |ports|
          invariant servers == old(servers) + ports[..i]
          invariant started && services == old(services) && connections == old(connections)
          invariant publishPort == old(publishPort)
        {
          servers := servers + [ports[i]];
          i := i + 1;
        }
      }
    }

    /** A server on `port` is listening on `realPort`: a publish port of 0 becomes the real port. */
    method OnListening(port: nat, realPort: nat)
      modifies this
      ensures publishPort == (if port == old(publishPort) && port == 0 then realPort else old(publishPort))
      ensures services == old(services) && connections == old(connections) && started == old(started)
      ensures servers == old(servers)
    {
      if port == publishPort && port == 0 {
        publishPort := realPort;
      }
    }

    /** `_handleSocket`: the connection is stored under its key. */
    method HandleSocket(key: string, conn: nat)
      modifies this
      ensures connections == old(connections)[key := conn]
      ensures services == old(services) && started == old(started) && publishPort == old(publishPort)
      ensures servers == old(servers)
    {
      connections := connections[key := conn];
    }

    /** A connection's 'close': its key goes. */
    method OnConnectionClose(key: string)
      modifies this
      ensures connections == old(connections) - {key}
      ensures services == old(services) && started == old(started) && publishPort == old(publishPort)
      ensures servers == old(servers)
    {
      connections := connections - {key};
    }

    /** `getConnections`: the number of open connections. */
    method GetConnections() returns (n: nat)
      ensures n == |connections.Keys|
    {
      n := |connections.Keys|;
    }

    /**
     * `_handleRequest(req, conn)`: the request's interface name is
     * defaulted, a response is made at `start`, and the service the
     * signature names is invoked; a signature no service has gets an error
     * reply. The other parameters are those of `RpcService.invoke`.
     */
    method HandleRequest(req: ServerRequest, remoteIp: string, hasResponseType: bool, streamOpen: bool, closed: bool,
                         outcome: MethodOutcome, encode: Value -> seq<byte>, start: int, encodeStart: int, now: int)
      returns (req': ServerRequest, res: GrpcResponse)
      requires forall v :: |encode(v)| <= MaxFrameLength
      ensures req' == WithInterface(req)
      ensures fresh(res) && res.hasResponseType == hasResponseType && res.streamOpen == streamOpen && res.closed == closed
      ensures var meta := InitialMeta(req', remoteIp, start);
        if req.serverSignature !in services then
          var (m, reply) := NotFoundResult(meta, hasResponseType, req.serverSignature, encodeStart, now);
          res.meta == m && res.sent == (if streamOpen then [reply] else [])
        else
          var service := services[req.serverSignature];
          var (m, reply) := InvokeResult(meta, closed, hasResponseType, service.id, service.returnTypes, req', outcome,
                                         encode, encodeStart, now);
          res.meta == m && res.sent == (if reply.Some? && streamOpen then [reply.value] else [])
    {
      req' := WithInterface(req);
      var id := req.serverSignature;
      res := new GrpcResponse(req', remoteIp, hasResponseType, streamOpen, closed, start);
      if id !in services {
        res.meta := res.meta.(resultCode := "02");
        res.Send(SendData(true, NotFoundMessage(id), Null), [], encodeStart, now);
        return;
      }
      var service := services[id];
      service.Invoke(req', res, outcome, encode, encodeStart, now);
    }
  }

  /** Adding a service twice under one id keeps one entry, the later service. */
  lemma AddServiceReplaces(services: map<string, RpcService>, id: string, first: RpcService, second: RpcService)
    ensures services[id := first][id := second] == services[id := second]
    ensures |services[id := first][id := second].Keys| == |services[id := second].Keys|
  {
  }
}
