/**
 * The client: one consumer per service key, cached; the middleware list;
 * and shutting down.
 */
module Clients {
  import opened Common
  import opened Scheduling
  import opened Consumers

  /**
   * `formatKey(options)`: `interface:version@group`, then `@serverHost`
   * when a server host is given and `@targetAppName` when an application
   * is named.
   */
  function FormatKey(o: ConsumerOptions): string
  {
    var key := GroupKey(o);
    var key := if o.serverHost != "" then key + "@" + o.serverHost else key;
    if o.targetAppName != "" then key + "@" + o.targetAppName else key
  }

  /** The '@'-separated pieces of a cache key, as `formatKey` lays them out. */
  function KeyPieces(o: ConsumerOptions): seq<string>
  {
    [Id(o), Group(o)] + (if o.serverHost != "" then [o.serverHost] else [])
      + (if o.targetAppName != "" then [o.targetAppName] else [])
  }

  /**
   * The key starts with the consumer's group key, and when no name holds
   * an '@' it splits back at '@' into the id, the group, and the server
   * host and application that were given.
   */
  lemma FormatKeySplits(o: ConsumerOptions)
    requires '@' !in o.interfaceName && '@' !in Version(o) && '@' !in Group(o)
    requires '@' !in o.serverHost && '@' !in o.targetAppName
    ensures FormatKey(o)[..|GroupKey(o)|] == GroupKey(o)
    ensures Split(FormatKey(o), '@') == KeyPieces(o)
  {
    var id, group, host, app := Id(o), Group(o), o.serverHost, o.targetAppName;
    var g := GroupKey(o);
    var tail := (if host != "" then "@" + host else "") + (if app != "" then "@" + app else "");
    assert FormatKey(o) == g + tail;
    assert (g + tail)[..|g|] == g;
    if host != "" && app != "" {
      assert FormatKey(o) == id + "@" + group + "@" + host + "@" + app;
      assert KeyPieces(o) == [id, group, host, app];
      SplitFour(id, group, host, app, '@');
    } else if host != "" || app != "" {
      var name := if host != "" then host else app;
      assert FormatKey(o) == id + "@" + group + "@" + name;
      assert KeyPieces(o) == [id, group, name];
      SplitThree(id, group, name, '@');
    } else {
      assert KeyPieces(o) == [id, group];
      SplitTwo(id, group, '@');
    }
  }

  /**
   * The key does not tell a server host from an application name: options
   * naming only a server host `x` and options naming only an application
   * `x` share one cache entry.
   */
  lemma FormatKeyConflatesHostAndApp(o: ConsumerOptions, x: string)
    requires x != ""
    ensures FormatKey(o.(serverHost := x, targetAppName := "")) == FormatKey(o.(serverHost := "", targetAppName := x))
  {
  }

  /**
   * The cache step of `createConsumer`: the consumer handed back and the
   * cache afterwards. With the cache on (`cache`, true unless the options
   * turn it off) a consumer cached under the options' key is reused;
   * otherwise `built`, the consumer the consumer class makes of the
   * options, is stored under the key, replacing any cached one. Building
   * fails when the options fail the consumer's assertions.
   */
  function CacheLookup(consumers: map<string, RpcConsumer>, o: ConsumerOptions, cache: bool, built: RpcConsumer)
    : (r: (Result<RpcConsumer>, map<string, RpcConsumer>))
  {
    var key := FormatKey(o);
    if cache && key in consumers then (Ok(consumers[key]), consumers)
    else if OptionsError(o).Some? then (Err(OptionsError(o).value), consumers)
    else (Ok(built), consumers[key := built])
  }

  /**
   * A successful lookup leaves its consumer under the key, and asking
   * again with the cache on returns that same consumer and changes
   * nothing, whichever consumer would be built the second time; with the
   * cache off every call stores its new consumer.
   */
  lemma CacheLookupTwice(consumers: map<string, RpcConsumer>, o: ConsumerOptions, cache: bool,
                         built: RpcConsumer, built': RpcConsumer)
    ensures var (r, after) := CacheLookup(consumers, o, cache, built);
      r.Ok? ==>
        FormatKey(o) in after && after[FormatKey(o)] == r.value &&
        CacheLookup(after, o, true, built') == (r, after)
    ensures OptionsError(o).None? ==> CacheLookup(consumers, o, false, built).1 == consumers[FormatKey(o) := built]
    ensures OptionsError(o).Some? ==> CacheLookup(consumers, o, cache, built).1 == consumers
  {
  }

  /** What `use` is given: one middleware, or an array of them. */
  datatype Middleware = One(mw: Value) | Many(mws: seq<Value>)

  class RpcClient {
    /** `_consumerCache`: cache key -> consumer */
    var consumerCache: map<string, RpcConsumer>
    var middlewares: seq<Value>
    const scheduler: Scheduler

    constructor(scheduler: Scheduler)
      ensures consumerCache == map[] && middlewares == [] && this.scheduler == scheduler
    {
      consumerCache := map[];
      middlewares := [];
      this.scheduler := scheduler;
    }

    /** `createConsumer(options)`, whose cache step is `CacheLookup`. */
    method CreateConsumer(o: ConsumerOptions, cache: bool, built: RpcConsumer) returns (r: Result<RpcConsumer>)
      requires OptionsError(o).None? ==> built.options == o
      modifies this
      ensures middlewares == old(middlewares)
      ensures (r, consumerCache) == CacheLookup(old(consumerCache), o, cache, built)
    {
      var key := FormatKey(o);
      if cache && key in consumerCache {
        return Ok(consumerCache[key]);
      }
      var error := OptionsError(o);
      if error.Some? {
        return Err(error.value);
      }
      consumerCache := consumerCache[key := built];
      r := Ok(built);
    }

    /** The 'close' listener of the consumer stored under `key`: the key leaves the cache, whatever it holds now. */
    method OnConsumerClose(key: string)
      modifies this
      ensures consumerCache == old(consumerCache) - {key}
      ensures middlewares == old(middlewares)
    {
      consumerCache := consumerCache - {key};
    }

    /** `use(mw)`: an array is appended element by element, anything else as one middleware. */
    method Use(mw: Middleware)
      modifies this
      ensures middlewares == old(middlewares) + (if mw.Many? then mw.mws else [mw.mw])
      ensures consumerCache == old(consumerCache)
    {
      if mw.Many? {
        middlewares := middlewares + mw.mws;
      } else {
        middlewares := middlewares + [mw.mw];
      }
    }

    /** `close()`: the shared scheduler stops every timer and the consumer cache is emptied. */
    method Close()
      requires scheduler.Valid()
      modifies this, scheduler
      ensures scheduler.Valid() && scheduler.timers == map[] && scheduler.listeners == map[]
      ensures consumerCache == map[] && middlewares == old(middlewares)
    {
      scheduler.Clear();
      consumerCache := map[];
    }
  }
}
