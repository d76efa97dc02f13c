/**
 * The consumer of one service: its identity (`interface:version`, and the
 * key `id@group` of its address group), the normalisation of provider
 * URLs, the building of requests, and the result-code bookkeeping of
 * `invoke`.
 */
module Consumers {
  import opened Common
  import opened Requests
  import opened Metrics
  import opened Connections
  import opened Counters
  import opened Routing
  import opened Balancing
  import opened ConsistentHashing

  /**
   * The options of a consumer as given. `version`, `group` and
   * `responseTimeout` fall back to '1.0', 'SOFA' and 3000 when not given;
   * an empty `serverHost` or `targetAppName` is one not given.
   */
  datatype ConsumerOptions = ConsumerOptions(
    interfaceName: string,
    version: Option<string>,
    group: Option<string>,
    responseTimeout: Option<int>,
    serverHost: string,
    hasRegistry: bool,
    hasLogger: bool,
    hasConnectionManager: bool,
    targetAppName: string,
    errorAsNull: bool)

  const DefaultVersion: string := "1.0"
  const DefaultGroup: string := "SOFA"
  const DefaultResponseTimeout: int := 3000
  const DefaultPort: nat := 12200

  function Version(o: ConsumerOptions): string
  {
    if o.version.Some? then o.version.value else DefaultVersion
  }

  function Group(o: ConsumerOptions): string
  {
    if o.group.Some? then o.group.value else DefaultGroup
  }

  function ResponseTimeout(o: ConsumerOptions): int
  {
    if o.responseTimeout.Some? then o.responseTimeout.value else DefaultResponseTimeout
  }

  /** The constructor's assertions, in order: the first one that fails, with its message. */
  function OptionsError(o: ConsumerOptions): (r: Option<string>)
    ensures r.None? <==>
      o.interfaceName != "" && o.hasLogger && (o.serverHost != "" || o.hasRegistry) && o.hasConnectionManager
    ensures o.interfaceName == "" ==> r == Some("[RpcConsumer] options.interfaceName is required")
    ensures o.interfaceName != "" && !o.hasLogger ==> r == Some("[RpcConsumer] options.logger is required")
    ensures o.interfaceName != "" && o.hasLogger && o.serverHost == "" && !o.hasRegistry ==>
      r == Some("[RpcConsumer] options.registry or options.serverHost at least set one")
    ensures o.interfaceName != "" && o.hasLogger && (o.serverHost != "" || o.hasRegistry) && !o.hasConnectionManager ==>
      r == Some("[RpcConsumer] options.connectionManager is required")
  {
    if o.interfaceName == "" then Some("[RpcConsumer] options.interfaceName is required")
    else if !o.hasLogger then Some("[RpcConsumer] options.logger is required")
    else if o.serverHost == "" && !o.hasRegistry then Some("[RpcConsumer] options.registry or options.serverHost at least set one")
    else if !o.hasConnectionManager then Some("[RpcConsumer] options.connectionManager is required")
    else None
  }

  /** `id`: the service identity. */
  function Id(o: ConsumerOptions): string
  {
    o.interfaceName + ":" + Version(o)
  }

  /** The key of the consumer's address group. */
  function GroupKey(o: ConsumerOptions): string
  {
    Id(o) + "@" + Group(o)
  }

  /**
   * When the names hold no separator, the group key splits back at '@'
   * into the id and the group, and the id at ':' into interface and
   * version; with the defaults the key is `interface:1.0@SOFA`.
   */
  lemma GroupKeySplits(o: ConsumerOptions)
    requires '@' !in o.interfaceName && '@' !in Version(o) && '@' !in Group(o)
    requires ':' !in o.interfaceName && ':' !in Version(o)
    ensures Split(GroupKey(o), '@') == [Id(o), Group(o)]
    ensures Split(Id(o), ':') == [o.interfaceName, Version(o)]
    ensures o.version.None? && o.group.None? ==> GroupKey(o) == o.interfaceName + ":1.0@SOFA"
  {
    SplitTwo(Id(o), Group(o), '@');
    SplitTwo(o.interfaceName, Version(o), ':');
    if o.version.None? && o.group.None? {
      DefaultKeyText(o.interfaceName);
    }
  }

  lemma DefaultKeyText(name: string)
    ensures name + ":" + "1.0" + "@" + "SOFA" == name + ":1.0@SOFA"
  {
    assert ":" + "1.0" + "@" + "SOFA" == ":1.0@SOFA";
  }

  /**
   * `parseUrl(url)`: a URL without '://' is read as `bolt://url`; an
   * address without a port gets port 12200, also appended to its `host`.
   * `parse` is `url.parse`.
   */
  function ParseUrl(url: string, parse: string -> Address): (a: Address)
  {
    var parsed := parse(if HasSubstring(url, "://") then url else "bolt://" + url);
    if parsed.port.None? then parsed.(port := Some(DefaultPort), host := parsed.host + ":12200") else parsed
  }

  /**
   * Every parsed address has a port; one the URL gave is kept with the
   * rest of the parse, a missing one becomes 12200 and only the port and
   * the host change; a URL with a scheme is parsed as it is.
   */
  lemma ParseUrlSpec(url: string, parse: string -> Address)
    ensures ParseUrl(url, parse).port.Some?
    ensures var full := if HasSubstring(url, "://") then url else "bolt://" + url;
      var parsed := parse(full);
      (parsed.port.Some? ==> ParseUrl(url, parse) == parsed) &&
      (parsed.port.None? ==>
        ParseUrl(url, parse).port == Some(12200) &&
        ParseUrl(url, parse).host == parsed.host + ":12200" &&
        ParseUrl(url, parse).hostname == parsed.hostname &&
        ParseUrl(url, parse).protocol == parsed.protocol &&
        ParseUrl(url, parse).href == parsed.href)
    ensures HasSubstring(url, "://") ==> ParseUrl(url, parse).hostname == parse(url).hostname
  {
  }

  /** A URL parsed after the default scheme was added parses as if it had been written with it. */
  lemma ParseUrlAddsScheme(url: string, parse: string -> Address)
    requires !HasSubstring(url, "://")
    ensures ParseUrl(url, parse) == ParseUrl("bolt://" + url, parse)
  {
    HasSubstringAfter("bolt", "://", url);
    assert "bolt://" + url == "bolt" + "://" + url;
  }

  lemma HasSubstringAfter(a: string, sub: string, b: string)
    ensures HasSubstring(a + sub + b, sub)
    decreases |a|
  {
    var s := a + sub + b;
    if a == [] {
      assert s[..|sub|] == sub;
    } else {
      assert s[1..] == a[1..] + sub + b;
      HasSubstringAfter(a[1..], sub, b);
    }
  }

  /** The addresses of `serverHost`: its comma-separated URLs, each parsed. */
  function ServerHostAddresses(serverHost: string, parse: string -> Address): (addrs: seq<Address>)
  {
    var urls := Split(serverHost, ',');
    seq(|urls|, i requires 0 <= i < |urls| => ParseUrl(urls[i], parse))
  }

  /**
   * One address per comma-separated piece, in order; the pieces join back
   * to `serverHost`, and every address has a port.
   */
  lemma ServerHostAddressesSpec(serverHost: string, parse: string -> Address)
    ensures var urls := Split(serverHost, ',');
      |ServerHostAddresses(serverHost, parse)| == |urls| &&
      Join(urls, ',') == serverHost &&
      forall i :: 0 <= i < |urls| ==>
        ServerHostAddresses(serverHost, parse)[i] == ParseUrl(urls[i], parse) &&
        ServerHostAddresses(serverHost, parse)[i].port.Some?
  {
    JoinSplit(serverHost, ',');
    var urls := Split(serverHost, ',');
    forall i | 0 <= i < |urls|
      ensures ServerHostAddresses(serverHost, parse)[i].port.Some?
    {
      ParseUrlSpec(urls[i], parse);
    }
  }

  /** The per-call options of `invoke`; a `responseTimeout` of 0 is one not given. */
  datatype InvokeOptions = InvokeOptions(responseTimeout: int, requestProps: Value, codecType: Value)

  /** The timeout a call gets: its own, or the consumer's. */
  function CallTimeout(o: ConsumerOptions, opts: InvokeOptions): int
  {
    if opts.responseTimeout != 0 then opts.responseTimeout else ResponseTimeout(o)
  }

  /** `createRequest(method, args, options)`. */
  function CreateRequest(o: ConsumerOptions, methodName: string, args: Option<seq<Value>>,
                         opts: InvokeOptions, now: int): (r: Result<RpcRequest>)
  {
    var app := if o.targetAppName == "" then Undefined else Str(o.targetAppName);
    NewRequest(RequestData(app, Id(o), Undefined, methodName, args, CallTimeout(o, opts),
      opts.codecType, opts.requestProps, Undefined), now)
  }

  /**
   * A request is built exactly when the method and the arguments are
   * given and a non-zero timeout results; it is signed with the consumer's
   * id and carries the call's timeout, 3000 when neither side gives one.
   */
  lemma CreateRequestSpec(o: ConsumerOptions, methodName: string, args: Option<seq<Value>>,
                          opts: InvokeOptions, now: int)
    ensures CreateRequest(o, methodName, args, opts, now).Ok? <==>
      methodName != "" && args.Some? && CallTimeout(o, opts) != 0
    ensures CreateRequest(o, methodName, args, opts, now).Ok? ==>
      var req := CreateRequest(o, methodName, args, opts, now).value;
      req.serverSignature == Id(o) && req.methodName == methodName && req.args == args.value &&
      req.timeout == CallTimeout(o, opts) && req.meta.timeout == req.timeout && req.meta.resultCode == "00"
    ensures opts.responseTimeout == 0 && o.responseTimeout.None? ==> CallTimeout(o, opts) == 3000
  {
    var app := if o.targetAppName == "" then Undefined else Str(o.targetAppName);
    NewRequestSpec(RequestData(app, Id(o), Undefined, methodName, args, CallTimeout(o, opts),
      opts.codecType, opts.requestProps, Undefined), now);
  }

  /**
   * What the connection made of a request: the result code and response
   * time it left in `meta`, and the response's error or value.
   */
  datatype Answer = Answer(resultCode: string, rt: Option<nat>, error: Option<Value>, appResponse: Value)

  /** How `invoke` ends: with a value, or by throwing an error. */
  datatype Outcome = Returned(value: Value) | Thrown(error: Value)

  /** The error `invoke` throws when no connection is found. */
  function NoProvider(o: ConsumerOptions, methodName: string): Value
  {
    Failure("RpcNoProviderError", "No provider of " + Id(o) + "@" + Group(o) + ":" + methodName + "() found!")
  }

  /**
   * The body of `invoke` once the request is routed: with no connection
   * the request is marked '04' and fails; otherwise it takes the
   * connection's answer. A failure turns a still-successful code '00'
   * into '01', and is swallowed as `null` under `errorAsNull`.
   */
  function Settle(o: ConsumerOptions, req: RpcRequest, connected: bool, answer: Answer): (r: (RpcRequest, Outcome))
  {
    var req' := if !connected then req.(meta := req.meta.(resultCode := "04"))
      else req.(meta := req.meta.(resultCode := answer.resultCode, rt := answer.rt));
    var failure := if !connected then Some(NoProvider(o, req.methodName)) else answer.error;
    if failure.None? then (req', Returned(answer.appResponse))
    else
      var code := if req'.meta.resultCode == "00" then "01" else req'.meta.resultCode;
      (req'.(meta := req'.meta.(resultCode := code)), if o.errorAsNull then Returned(Null) else Thrown(failure.value))
  }

  /**
   * The result codes of `invoke`: '04' without a provider; the
   * connection's code on success; on failure '01' in place of '00' and any
   * other code kept. A failed call never ends with code '00', and it
   * throws unless `errorAsNull`, which returns `null`. Only the result
   * code and the response time of the request change.
   */
  lemma SettleSpec(o: ConsumerOptions, req: RpcRequest, connected: bool, answer: Answer)
    ensures var (final, outcome) := Settle(o, req, connected, answer);
      final == req.(meta := final.meta) &&
      final.meta == req.meta.(resultCode := final.meta.resultCode, rt := final.meta.rt) &&
      (!connected ==>
        final.meta.resultCode == "04" && final.meta.rt == req.meta.rt &&
        outcome == (if o.errorAsNull then Returned(Null) else Thrown(NoProvider(o, req.methodName)))) &&
      (connected && answer.error.None? ==>
        final.meta.resultCode == answer.resultCode && final.meta.rt == answer.rt &&
        outcome == Returned(answer.appResponse)) &&
      (connected && answer.error.Some? ==>
        final.meta.resultCode == (if answer.resultCode == "00" then "01" else answer.resultCode) &&
        outcome == (if o.errorAsNull then Returned(Null) else Thrown(answer.error.value)))
    ensures var (final, outcome) := Settle(o, req, connected, answer);
      (!connected || answer.error.Some?) ==> final.meta.resultCode != "00"
  {
  }

  /** A consumer bound to its address group (with its balancer) and to the shared health counters. */
  class RpcConsumer {
    const options: ConsumerOptions
    const router: Router
    const counters: CounterRegistry

    ghost predicate Valid()
      reads this, router, router.group, router.balancer, router.balancer.roundRobin, router.balancer.ring,
        counters, counters.cache.Values, counters.scheduler
    {
      OptionsError(options).None? &&
      router.Valid() && router.group.key == GroupKey(options) &&
      counters.Valid() && counters.scheduler.Valid()
    }

    constructor(options: ConsumerOptions, router: Router, counters: CounterRegistry)
      requires OptionsError(options).None?
      requires router.Valid() && router.group.key == GroupKey(options)
      requires counters.Valid() && counters.scheduler.Valid()
      ensures Valid()
      ensures this.options == options && this.router == router && this.counters == counters
    {
      this.options := options;
      this.router := router;
      this.counters := counters;
    }

    /** `_init()` with a `serverHost`: the group takes the addresses of its URLs. */
    method InitFromServerHost(parse: string -> Address, u: real)
      requires Valid() && options.serverHost != "" && 0.0 <= u < 1.0
      modifies router.group, router.balancer, router.balancer.roundRobin, router.balancer.ring
      ensures Valid()
      ensures router.group.State() == Addressing.AssignList(old(router.group.State()),
        ServerHostAddresses(options.serverHost, parse), router.group.settings, router.group.connectionManager.connections)
    {
      router.SetAddressList(ServerHostAddresses(options.serverHost, parse), u);
    }

    /**
     * `invoke(method, args, opts)`: builds the request, routes it through
     * the address group (`now`, `u`, `draws`, `stringify`, `supplied` and
     * `ready` as for `getConnection`), settles it with the connection's
     * `answer`, and finally counts it on the health counter of the group
     * that routed it. A request that cannot be built fails before any of
     * this.
     */
    method Invoke(methodName: string, args: Option<seq<Value>>, opts: InvokeOptions, now: int,
                  u: real, draws: seq<real>, stringify: Value -> string,
                  supplied: seq<Address> -> Option<Address>, ready: bool, answer: Answer)
      returns (outcome: Outcome, final: Option<RpcRequest>, address: Option<Address>, connected: bool)
      requires Valid() && 0.0 <= u < 1.0 && |router.group.addressList| <= |draws|
      modifies router.group.connectionManager, router.balancer.roundRobin
      modifies counters, counters.scheduler, counters.cache.Values
      ensures Valid()
      ensures CreateRequest(options, methodName, args, opts, now).Err? ==>
        final.None? && outcome == Thrown(Failure("AssertionError", CreateRequest(options, methodName, args, opts, now).error)) &&
        address.None? && !connected
      ensures CreateRequest(options, methodName, args, opts, now).Ok? ==>
        (connected <==> address.Some? && Obtains(old(router.group.connectionManager.connections), address.value.host, ready)) &&
        (old(router.group.addressList) == [] ==> address.None?) &&
        (|old(router.group.addressList)| == 1 ==> address == Some(old(router.group.addressList)[0])) &&
        (!router.balancer.kind.Supplied? && (forall h :: h in old(router.group.weightMap) ==> old(router.group.weightMap)[h] >= 0.0) ==>
          (address.Some? <==> old(router.group.addressList) != []) &&
          (address.Some? ==> address.value in old(router.group.addressList)))
      ensures CreateRequest(options, methodName, args, opts, now).Ok? ==>
        final.Some? && final.value.meta.connectionGroup == Some(router.group.key) &&
        var routed := CreateRequest(options, methodName, args, opts, now).value;
        (final.value, outcome) ==
          Settle(options, routed.(meta := routed.meta.(connectionGroup := Some(router.group.key))), connected, answer)
      ensures final.Some? ==>
        var before := old(counters.BucketsOf(router.group.key));
        router.group.key in counters.cache && |before| > 0 &&
        counters.cache[router.group.key].buckets ==
          before[|before| - 1 := Record(before[|before| - 1], final.value.meta.resultCode, final.value.meta.rt)]
    {
      var created := CreateRequest(options, methodName, args, opts, now);
      if created.Err? {
        return Thrown(Failure("AssertionError", created.error)), None, None, false;
      }
      var settled;
      outcome, settled, address, connected := Call(created.value, now, u, draws, stringify, supplied, ready, answer);
      final := Some(settled);
    }

    /** `invoke` once its request is built: routing, then the `catch` and `finally`. */
    method Call(request: RpcRequest, now: int, u: real, draws: seq<real>, stringify: Value -> string,
                supplied: seq<Address> -> Option<Address>, ready: bool, answer: Answer)
      returns (outcome: Outcome, final: RpcRequest, address: Option<Address>, connected: bool)
      requires Valid() && 0.0 <= u < 1.0 && |router.group.addressList| <= |draws|
      modifies router.group.connectionManager, router.balancer.roundRobin
      modifies counters, counters.scheduler, counters.cache.Values
      ensures Valid()
      ensures connected <==> address.Some? && Obtains(old(router.group.connectionManager.connections), address.value.host, ready)
      ensures old(router.group.addressList) == [] ==> address.None?
      ensures |old(router.group.addressList)| == 1 ==> address == Some(old(router.group.addressList)[0])
      ensures !router.balancer.kind.Supplied? && (forall h :: h in old(router.group.weightMap) ==> old(router.group.weightMap)[h] >= 0.0) ==>
        (address.Some? <==> old(router.group.addressList) != []) && (address.Some? ==> address.value in old(router.group.addressList))
      ensures !connected ==>
        final.meta.resultCode == "04" &&
        outcome == (if options.errorAsNull then Returned(Null) else Thrown(NoProvider(options, request.methodName)))
      ensures final.meta.connectionGroup == Some(router.group.key)
      ensures (final, outcome) ==
        Settle(options, request.(meta := request.meta.(connectionGroup := Some(router.group.key))), connected, answer)
      ensures var before := old(counters.BucketsOf(router.group.key));
        router.group.key in counters.cache && |before| > 0 &&
        counters.cache[router.group.key].buckets ==
          before[|before| - 1 := Record(before[|before| - 1], final.meta.resultCode, final.meta.rt)]
    {
      ghost var key := router.group.key;
      ghost var before := counters.BucketsOf(key);
      var routed;
      routed, address, connected := Route(request, now, u, draws, stringify, supplied, ready);
      assert counters.BucketsOf(key) == before;
      outcome, final := Complete(routed, connected, answer);
    }

    /** `getConnection(req)` as `invoke` sees it: the routed request, the address, and whether a connection came back. */
    method Route(request: RpcRequest, now: int, u: real, draws: seq<real>, stringify: Value -> string,
                 supplied: seq<Address> -> Option<Address>, ready: bool)
      returns (routed: RpcRequest, address: Option<Address>, connected: bool)
      requires Valid() && 0.0 <= u < 1.0 && |router.group.addressList| <= |draws|
      modifies router.group.connectionManager, router.balancer.roundRobin
      ensures Valid() && counters.cache == old(counters.cache)
      ensures routed == request.(meta := request.meta.(connectionGroup := Some(router.group.key)))
      ensures connected <==> address.Some? && Obtains(old(router.group.connectionManager.connections), address.value.host, ready)
      ensures router.group.addressList == [] ==> address.None?
      ensures |router.group.addressList| == 1 ==> address == Some(router.group.addressList[0])
      ensures !router.balancer.kind.Supplied? && (forall h :: h in router.group.weightMap ==> router.group.weightMap[h] >= 0.0) ==>
        (address.Some? <==> router.group.addressList != []) && (address.Some? ==> address.value in router.group.addressList)
    {
      var conn;
      routed, address, conn := router.GetConnection(request, now, u, draws, stringify, supplied, ready);
      assert counters.cache == old(counters.cache);
      connected := conn.Some?;
    }

    /** The `catch` and `finally` of `invoke` for a routed request. */
    method Complete(routed: RpcRequest, connected: bool, answer: Answer) returns (outcome: Outcome, final: RpcRequest)
      requires Valid() && routed.meta.connectionGroup == Some(router.group.key)
      modifies counters, counters.scheduler, counters.cache.Values
      ensures Valid()
      ensures (final, outcome) == Settle(options, routed, connected, answer)
      ensures final.meta.connectionGroup == Some(router.group.key)
      ensures !connected ==>
        final.meta.resultCode == "04" &&
        outcome == (if options.errorAsNull then Returned(Null) else Thrown(NoProvider(options, routed.methodName)))
      ensures var before := old(counters.BucketsOf(router.group.key));
        router.group.key in counters.cache && |before| > 0 &&
        counters.cache[router.group.key].buckets ==
          before[|before| - 1 := Record(before[|before| - 1], final.meta.resultCode, final.meta.rt)]
    {
      var settled := Settle(options, routed, connected, answer);
      SettleSpec(options, routed, connected, answer);
      outcome, final := settled.1, settled.0;
      UpdateHealth(router.group.key, final.meta.resultCode, final.meta.rt);
    }

    /** `HealthCounter.getInstance(key).update(meta)`: the call is counted on the counter of `key`, made if missing. */
    method UpdateHealth(key: string, code: string, rt: Option<nat>)
      requires key != "" && counters.Valid() && counters.scheduler.Valid()
      modifies counters, counters.scheduler, counters.cache.Values
      ensures counters.Valid() && counters.scheduler.Valid()
      ensures var before := old(counters.BucketsOf(key));
        key in counters.cache && |before| > 0 &&
        counters.cache[key].buckets == before[|before| - 1 := Record(before[|before| - 1], code, rt)]
    {
      counters.Count(key, code, rt);
    }

    /** `close()`: the address group is closed. */
    method Close()
      requires Valid()
      modifies router.group
      ensures Valid()
      ensures router.group.addressList == [] && router.group.allAddressList == [] && router.group.closed
    {
      router.Close();
    }
  }
}
