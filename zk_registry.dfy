/**
 * The ZooKeeper registry: where a service's providers and consumers live
 * in the tree, which errors registering and unregistering pass over, and
 * the table of subscriptions by interface with their listeners.
 */
module ZkRegistry {
  import opened Common
  import opened Services

  /** The ZooKeeper error names and codes registering and unregistering pass over. */
  const NodeExists: string := "NODE_EXISTS"
  const NodeExistsCode: int := -110
  const NoNode: string := "NO_NODE"
  const NoNodeCode: int := -101

  /**
   * The `address` option split into the client's address and the root
   * path: a '/' past the first character starts the root, which is made to
   * end in '/'; otherwise the whole is the address and the root is '/'.
   */
  function SplitAddress(address: string): (r: (string, string))
  {
    var idx := IndexOfChar(address, '/');
    if idx.Some? && idx.value > 0 then
      var root := address[idx.value..];
      (address[..idx.value], if EndsWith(root, "/") then root else root + "/")
    else (address, "/")
  }

  /**
   * The root starts and ends with '/'; with a root in the address the
   * client's address is the part before it and holds no '/', and the root
   * is the rest, with a '/' added only when it lacked one.
   */
  lemma SplitAddressSpec(address: string)
    ensures var (client, root) := SplitAddress(address);
      |root| >= 1 && root[0] == '/' && root[|root| - 1] == '/'
    ensures var (client, root) := SplitAddress(address);
      ('/' !in address || address[0] == '/') ==> client == address && root == "/"
    ensures var (client, root) := SplitAddress(address);
      ('/' in address && address[0] != '/') ==>
        '/' !in client && client != "" &&
        (address == client + root || address + "/" == client + root)
  {
    var idx := IndexOfChar(address, '/');
    if idx.Some? && idx.value > 0 {
      var root := address[idx.value..];
      assert address == address[..idx.value] + root;
      if !EndsWith(root, "/") {
        assert address + "/" == address[..idx.value] + (root + "/");
      }
    }
  }

  /** `_buildProviderPath`: root + 'sofa-rpc/' + interface + '/providers'. */
  function ProviderPath(root: string, interfaceName: string): (p: string)
  {
    root + "sofa-rpc/" + interfaceName + "/providers"
  }

  /** `_buildConsumerPath`: root + 'sofa-rpc/' + interface + '/consumers'. */
  function ConsumerPath(root: string, interfaceName: string): (p: string)
  {
    root + "sofa-rpc/" + interfaceName + "/consumers"
  }

  /** Both paths lie under the interface's directory; they differ from each other, and between interfaces. */
  lemma PathsSpec(root: string, a: string, b: string)
    ensures var dir := root + "sofa-rpc/" + a;
      ProviderPath(root, a) == dir + "/providers" && ConsumerPath(root, a) == dir + "/consumers"
    ensures ProviderPath(root, a) != ConsumerPath(root, b)
    ensures ProviderPath(root, a) == ProviderPath(root, b) <==> a == b
  {
    var p := ProviderPath(root, a);
    var c := ConsumerPath(root, b);
    if |p| == |c| {
      assert p[|p| - 10..] == "/providers";
      assert c[|c| - 10..] == "/consumers";
      assert p[|p| - 4] == 'd' && c[|c| - 4] == 'm';
    }
    if ProviderPath(root, a) == ProviderPath(root, b) {
      var prefix := root + "sofa-rpc/";
      assert ProviderPath(root, a) == prefix + (a + "/providers");
      assert ProviderPath(root, b) == prefix + (b + "/providers");
      assert |a| == |b|;
      assert (prefix + (a + "/providers"))[|prefix|..] == a + "/providers";
      assert (prefix + (b + "/providers"))[|prefix|..] == b + "/providers";
      assert (a + "/providers")[..|a|] == a;
      assert (b + "/providers")[..|b|] == b;
    }
  }

  /** A ZooKeeper error: its name and code. */
  datatype ZkError = ZkError(name: string, code: int)

  /** The checks `register` and `unRegister` make of the registration: an interface name and a URL. */
  function CheckConfig(config: map<string, Value>, op: string): (r: Result<(string, string)>)
  {
    if "interfaceName" !in config || !Truthy(config["interfaceName"]) then
      Err("[ZookeeperRegistry] " + op + "(config) config.interfaceName is required")
    else if "url" !in config || !Truthy(config["url"]) then
      Err("[ZookeeperRegistry] " + op + "(config) config.url is required")
    else Ok((JsString(config["interfaceName"]), JsString(config["url"])))
  }

  /** The node a registration is stored as: the provider path, '/', then the URL encoded by `encode`. */
  function NodePath(root: string, interfaceName: string, url: string, encode: string -> string): (p: string)
  {
    ProviderPath(root, interfaceName) + "/" + encode(url)
  }

  /**
   * `register(config)`: the node's path when its creation succeeded or
   * found the node already there; any other error of `create` (given) is
   * passed on.
   */
  function Register(root: string, config: map<string, Value>, encode: string -> string, createError: Option<ZkError>)
    : (r: Result<string>)
  {
    match CheckConfig(config, "register")
    case Err(e) => Err(e)
    case Ok((interfaceName, url)) =>
      if createError.None? || (createError.value.name == NodeExists && createError.value.code == NodeExistsCode) then
        Ok(NodePath(root, interfaceName, url, encode))
      else Err(createError.value.name)
  }

  /** `unRegister(config)`: the same, passing over a missing node instead. */
  function UnRegister(root: string, config: map<string, Value>, encode: string -> string, removeError: Option<ZkError>)
    : (r: Result<string>)
  {
    match CheckConfig(config, "unRegister")
    case Err(e) => Err(e)
    case Ok((interfaceName, url)) =>
      if removeError.None? || (removeError.value.name == NoNode && removeError.value.code == NoNodeCode) then
        Ok(NodePath(root, interfaceName, url, encode))
      else Err(removeError.value.name)
  }

  /**
   * For a registration with an interface and a URL, `register` succeeds
   * exactly when `create` did or failed with NODE_EXISTS (-110), and
   * `unRegister` exactly when `remove` did or failed with NO_NODE (-101);
   * both name the same node.
   */
  lemma RegisterSpec(root: string, config: map<string, Value>, encode: string -> string, e: Option<ZkError>)
    requires CheckConfig(config, "register").Ok?
    ensures Register(root, config, encode, e).Ok? <==> e.None? || e.value == ZkError("NODE_EXISTS", -110)
    ensures UnRegister(root, config, encode, e).Ok? <==> e.None? || e.value == ZkError("NO_NODE", -101)
    ensures Register(root, config, encode, None) == UnRegister(root, config, encode, None)
    ensures e.Some? && e.value.name != "NODE_EXISTS" ==> Register(root, config, encode, e) == Err(e.value.name)
  {
  }

  /** A registration without an interface name or URL fails its assertion, whatever ZooKeeper does. */
  lemma RegisterNeedsConfig(root: string, config: map<string, Value>, encode: string -> string, e: Option<ZkError>)
    requires "url" !in config || "interfaceName" !in config
    ensures Register(root, config, encode, e).Err? && UnRegister(root, config, encode, e).Err?
  {
  }

  /** `events.removeListener`: the most recently added instance of the listener goes. */
  function RemoveLast(listeners: seq<nat>, listener: nat): (r: seq<nat>)
  {
    if listeners == [] then []
    else if listeners[|listeners| - 1] == listener then listeners[..|listeners| - 1]
    else RemoveLast(listeners[..|listeners| - 1], listener) + [listeners[|listeners| - 1]]
  }

  /** Exactly one instance goes when there is one, and nothing otherwise. */
  lemma {:induction false} RemoveLastSpec(listeners: seq<nat>, listener: nat)
    ensures multiset(RemoveLast(listeners, listener)) ==
      multiset(listeners) - multiset{listener}
    ensures listener !in listeners ==> RemoveLast(listeners, listener) == listeners
    decreases |listeners|
  {
    if listeners != [] {
      var init := listeners[..|listeners| - 1];
      var last := listeners[|listeners| - 1];
      assert listeners == init + [last];
      if last != listener {
        RemoveLastSpec(init, listener);
      }
    }
  }

  /** The listeners of an interface, none when it has no entry. */
  function ListenersOf(listeners: map<string, seq<nat>>, interfaceName: string): seq<nat>
  {
    if interfaceName in listeners then listeners[interfaceName] else []
  }

  /** The subscription table: the cached address lists, the listeners and the watched provider paths. */
  datatype Subscriptions = Subscriptions(
    cache: map<string, Option<seq<string>>>,
    listeners: map<string, seq<nat>>,
    watched: set<string>)

  /**
   * `subscribe`: a first subscriber for an interface makes a null entry and
   * starts watching its providers; a later one receives the cached list if
   * there is one; either way the listener is added.
   */
  function Subscribe(s: Subscriptions, root: string, interfaceName: string, listener: nat)
    : (r: (Subscriptions, Option<seq<string>>))
  {
    var listeners := s.listeners[interfaceName := ListenersOf(s.listeners, interfaceName) + [listener]];
    if interfaceName !in s.cache then
      (Subscriptions(s.cache[interfaceName := None], listeners, s.watched + {ProviderPath(root, interfaceName)}), None)
    else (s.(listeners := listeners), s.cache[interfaceName])
  }

  /**
   * `unSubscribe`: the listener goes (or all of them); when none is left,
   * the entry and the watch go too.
   */
  function UnSubscribe(s: Subscriptions, root: string, interfaceName: string, listener: Option<nat>): (r: Subscriptions)
  {
    var left := if listener.Some? then RemoveLast(ListenersOf(s.listeners, interfaceName), listener.value) else [];
    if left == [] then
      Subscriptions(s.cache - {interfaceName}, s.listeners - {interfaceName}, s.watched - {ProviderPath(root, interfaceName)})
    else s.(listeners := s.listeners[interfaceName := left])
  }

  /** The watch's callback: the decoded children become the interface's list, delivered to its listeners in order. */
  function OnProviders(s: Subscriptions, interfaceName: string, children: seq<string>, decode: string -> string)
    : (r: (Subscriptions, seq<nat>, seq<string>))
  {
    var addresses := seq(|children|, i requires 0 <= i < |children| => decode(children[i]));
    (s.(cache := s.cache[interfaceName := Some(addresses)]), ListenersOf(s.listeners, interfaceName), addresses)
  }

  /**
   * A first subscriber gets nothing until the watch fires; a later one
   * gets the cached list, even an empty one; the listener is always
   * added last, and only a first subscription starts a watch.
   */
  lemma SubscribeSpec(s: Subscriptions, root: string, interfaceName: string, listener: nat)
    ensures var (s', delivery) := Subscribe(s, root, interfaceName, listener);
      interfaceName in s'.cache && ListenersOf(s'.listeners, interfaceName) == ListenersOf(s.listeners, interfaceName) + [listener] &&
      (interfaceName !in s.cache ==> delivery.None? && s'.cache[interfaceName].None? &&
                                     s'.watched == s.watched + {ProviderPath(root, interfaceName)}) &&
      (interfaceName in s.cache ==> delivery == s.cache[interfaceName] && s'.cache == s.cache && s'.watched == s.watched)
    ensures var (s', delivery) := Subscribe(s, root, interfaceName, listener);
      forall other :: other != interfaceName ==>
        ListenersOf(s'.listeners, other) == ListenersOf(s.listeners, other) &&
        (other in s'.cache <==> other in s.cache)
  {
  }

  /**
   * After `unSubscribe` the interface keeps an entry only while listeners
   * remain; the one removed is a single instance of the listener; other
   * interfaces keep theirs.
   */
  lemma UnSubscribeSpec(s: Subscriptions, root: string, interfaceName: string, listener: Option<nat>)
    ensures var s' := UnSubscribe(s, root, interfaceName, listener);
      (interfaceName in s'.cache || interfaceName in s'.listeners) ==> ListenersOf(s'.listeners, interfaceName) != []
    ensures var s' := UnSubscribe(s, root, interfaceName, listener);
      listener.Some? ==>
        multiset(ListenersOf(s'.listeners, interfaceName)) == multiset(ListenersOf(s.listeners, interfaceName)) - multiset{listener.value}
    ensures var s' := UnSubscribe(s, root, interfaceName, listener);
      listener.None? ==> interfaceName !in s'.cache && ProviderPath(root, interfaceName) !in s'.watched
    ensures var s' := UnSubscribe(s, root, interfaceName, listener);
      forall other :: other != interfaceName ==>
        ListenersOf(s'.listeners, other) == ListenersOf(s.listeners, other) &&
        (other in s'.cache <==> other in s.cache) && (other in s'.cache ==> s'.cache[other] == s.cache[other])
  {
    if listener.Some? {
      RemoveLastSpec(ListenersOf(s.listeners, interfaceName), listener.value);
    }
  }

  /** The first subscription of an interface, undone by its listener's unsubscription, leaves the table as it was. */
  lemma {:induction false} SubscribeThenUnSubscribe(s: Subscriptions, root: string, interfaceName: string, listener: nat)
    requires interfaceName !in s.cache && interfaceName !in s.listeners
    requires ProviderPath(root, interfaceName) !in s.watched
    ensures UnSubscribe(Subscribe(s, root, interfaceName, listener).0, root, interfaceName, Some(listener)) == s
  {
    var s1 := Subscribe(s, root, interfaceName, listener).0;
    assert ListenersOf(s1.listeners, interfaceName) == [listener];
    assert RemoveLast([listener], listener) == [];
    var s2 := UnSubscribe(s1, root, interfaceName, Some(listener));
    assert s2.cache == s.cache;
    assert s2.listeners == s.listeners;
    assert s2.watched == s.watched;
  }

  /** The constructor's assertion message for a missing address. */
  const AddressRequiredError: string := "[ZookeeperRegistry] options.address is required"

  /** The `ZookeeperRegistry` with its subscription table. */
  class ZookeeperRegistry {
    /** the ZooKeeper client's address */
    const clientAddress: string
    const rootPath: string
    var subscriptions: Subscriptions

    /**
     * `new ZookeeperRegistry(options)`: an empty address fails the
     * constructor's assertion; any other is split into the client's address
     * and the root path.
     */
    static method Create(address: string) returns (r: Result<ZookeeperRegistry>)
      ensures r.Err? <==> address == ""
      ensures r.Err? ==> r.error == AddressRequiredError
      ensures r.Ok? ==>
        fresh(r.value) && (r.value.clientAddress, r.value.rootPath) == SplitAddress(address) &&
        r.value.subscriptions == Subscriptions(map[], map[], {})
    {
      if address == "" {
        return Err(AddressRequiredError);
      }
      var registry := new ZookeeperRegistry(address);
      r := Ok(registry);
    }

    /** The rest of the constructor, once the address has passed the assertion. */
    constructor(address: string)
      requires address != ""
      ensures (clientAddress, rootPath) == SplitAddress(address)
      ensures subscriptions == Subscriptions(map[], map[], {})
    {
      var idx := IndexOfChar(address, '/');
      if idx.Some? && idx.value > 0 {
        clientAddress := address[..idx.value];
        var root := address[idx.value..];
        if !EndsWith(root, "/") {
          root := root + "/";
        }
        rootPath := root;
      } else {
        clientAddress := address;
        rootPath := "/";
      }
      subscriptions := Subscriptions(map[], map[], {});
    }

    /** `subscribe(config, listener)`, returning the cached list handed to the listener at once, if any. */
    method DoSubscribe(interfaceName: string, listener: nat) returns (r: Result<Option<seq<string>>>)
      modifies this
      ensures interfaceName == "" ==> r.Err? && subscriptions == old(subscriptions)
      ensures interfaceName != "" ==>
        var (s', delivery) := Subscribe(old(subscriptions), rootPath, interfaceName, listener);
        subscriptions == s' && r == Ok(delivery)
    {
      if interfaceName == "" {
        return Err("[ZookeeperRegistry] subscribe(config, listener) config.interfaceName is required");
      }
      var s := subscriptions;
      var listeners := s.listeners[interfaceName := ListenersOf(s.listeners, interfaceName) + [listener]];
      if interfaceName !in s.cache {
        subscriptions := Subscriptions(s.cache[interfaceName := None], listeners, s.watched + {ProviderPath(rootPath, interfaceName)});
        r := Ok(None);
      } else {
        subscriptions := s.(listeners := listeners);
        r := Ok(s.cache[interfaceName]);
      }
    }

    /** `unSubscribe(config, listener)`. */
    method DoUnSubscribe(interfaceName: string, listener: Option<nat>) returns (r: Result<()>)
      modifies this
      ensures interfaceName == "" ==> r.Err? && subscriptions == old(subscriptions)
      ensures interfaceName != "" ==> r.Ok? && subscriptions == UnSubscribe(old(subscriptions), rootPath, interfaceName, listener)
    {
      if interfaceName == "" {
        return Err("[ZookeeperRegistry] unSubscribe(config, listener) config.interfaceName is required");
      }
      subscriptions := UnSubscribe(subscriptions, rootPath, interfaceName, listener);
      r := Ok(());
    }

    /** The watch on an interface's providers fired with `children`: the listeners to call, in order, and the list they get. */
    method OnChildren(interfaceName: string, children: seq<string>, decode: string -> string)
      returns (notified: seq<nat>, addresses: seq<string>)
      modifies this
      ensures (subscriptions, notified, addresses) == OnProviders(old(subscriptions), interfaceName, children, decode)
    {
      var list: seq<string> := [];
      var i := 0;
      while i < |children|
        invariant 0 <= i <= |children|
        invariant |list| == i && forall j :: 0 <= j < i ==> list[j] == decode(children[j])
      {
        list := list + [decode(children[i])];
        i := i + 1;
      }
      assert list == seq(|children|, j requires 0 <= j < |children| => decode(children[j]));
      subscriptions := subscriptions.(cache := subscriptions.cache[interfaceName := Some(list)]);
      notified := ListenersOf(subscriptions.listeners, interfaceName);
      addresses := list;
    }
  }
}
