/**
 * An address group together with its balancer, as `address_group.js`
 * wires them: the group creates its balancer from its `loadbalancerClass`
 * option, every assignment of the address list goes through the
 * balancer's `reset`, and `getConnection` asks the balancer for an address
 * and the connection table for a connection to it.
 */
module Routing {
  import opened Common
  import opened Connections
  import opened Metrics
  import opened Addressing
  import opened ConsistentHashing
  import opened RandomBalancing
  import opened RoundRobinBalancing
  import opened Balancing
  import opened Requests

  class Router {
    const group: AddressGroup
    const balancer: LoadBalancer

    /** The balancer was last reset with the group's active list (a closed group has emptied its list). */
    ghost predicate Valid()
      reads this, group, balancer, balancer.roundRobin, balancer.ring
    {
      group.Valid() && balancer.Valid() &&
      (balancer.active == group.addressList || (group.closed && group.addressList == []))
    }

    constructor(group: AddressGroup, balancer: LoadBalancer)
      requires group.Valid() && balancer.Valid() && balancer.active == group.addressList
      ensures Valid() && this.group == group && this.balancer == balancer
    {
      this.group := group;
      this.balancer := balancer;
    }

    /**
     * `new AddressGroup(options)`: the group and the balancer its
     * `loadbalancerClass` option names; an option the factory refuses is an
     * error.
     */
    static method Create(key: string, settings: Settings, connectionManager: ConnectionManager,
                         option: ClassOption, md5: string -> Digest) returns (r: Result<Router>)
      requires key != "" && settings.pool.capacityPerConnection > 0
      ensures r.Err? <==> Resolve(option).Err?
      ensures r.Err? ==> r.error == Resolve(option).error
      ensures r.Ok? ==>
        fresh(r.value) && fresh(r.value.group) && fresh(r.value.balancer) && r.value.Valid() &&
        r.value.balancer.kind == Resolve(option).value &&
        r.value.group.key == key && r.value.group.connectionManager == connectionManager &&
        r.value.group.State() == GroupState([], [], map[], map[], 0, false, settings.pool.initConnectionSize) &&
        !r.value.group.closed
    {
      var kind := Resolve(option);
      if kind.Err? {
        return Err(kind.error);
      }
      var group := new AddressGroup(key, settings, connectionManager);
      var balancer := new LoadBalancer(kind.value, md5);
      var router := new Router(group, balancer);
      r := Ok(router);
    }

    /** The `addressList` setter: the group settles on an active list, and the balancer is reset with it. */
    method SetAddressList(val: seq<Address>, u: real)
      requires Valid() && 0.0 <= u < 1.0
      modifies group, balancer, balancer.roundRobin, balancer.ring
      ensures Valid()
      ensures group.State() == AssignList(old(group.State()), val, group.settings, group.connectionManager.connections)
      ensures balancer.active == group.addressList
      ensures balancer.roundRobin != null ==> balancer.roundRobin.offset == RandomBalancing.Draw(u, |group.addressList| as real)
      ensures balancer.ring != null ==> balancer.ring.virtualNodes == Ring(group.addressList, balancer.ring.md5)
      ensures group.closed == old(group.closed)
    {
      group.SetAddressList(val);
      balancer.Reset(group.addressList, u);
    }

    /**
     * `_onNext(hc)`: the group's window handler; whenever it reassigns the
     * list the balancer is reset with the new active list.
     */
    method OnNext(hc: HealthCounts, u: real) returns (resets: seq<string>, heartbeats: seq<string>)
      requires Valid() && 0.0 <= u < 1.0
      modifies group, balancer, balancer.roundRobin, balancer.ring
      ensures Valid()
      ensures NextOutcome(group.State(), resets, heartbeats) ==
        AfterWindow(old(group.State()), hc, group.settings, group.connectionManager.connections)
      ensures WindowReassigns(old(group.State()), hc, group.settings, group.connectionManager.connections) ==>
        balancer.active == group.addressList
      ensures !WindowReassigns(old(group.State()), hc, group.settings, group.connectionManager.connections) ==>
        balancer.active == old(balancer.active)
      ensures group.closed == old(group.closed)
    {
      var reassigned;
      resets, heartbeats, reassigned := group.OnNext(hc);
      if reassigned {
        balancer.Reset(group.addressList, u);
      }
    }

    /** One round of `_retryFaultAddresses`, resetting the balancer when the refresh reassigns the list. */
    method RetryFaultAddresses(pending: seq<Address>, ready: seq<bool>, now: int, u: real) returns (connected: seq<bool>)
      requires Valid() && 0.0 <= u < 1.0
      requires |ready| == |pending|
      requires HostsOf(pending) == group.faultAddressMap.Keys
      requires forall a :: a in pending ==> group.faultAddressMap[a.host] == a
      modifies group, group.connectionManager, balancer, balancer.roundRobin, balancer.ring
      ensures Valid()
      ensures old(group.faultAddressMap) == map[] ==> connected == [] && group.State() == old(group.State())
      ensures old(group.faultAddressMap) != map[] ==>
        |connected| == |pending| &&
        var outcome := ConnectOutcomes(old(group.weightMap), old(group.faultAddressMap), pending, connected);
        var st := old(group.State()).(weights := outcome.0, fault := outcome.1);
        group.State() == if outcome.1 == map[] then st else Refreshed(st, group.settings, group.connectionManager.connections)
      ensures group.closed == old(group.closed)
    {
      var reassigned;
      connected, reassigned := group.RetryFaultAddresses(pending, ready, now);
      if reassigned {
        balancer.Reset(group.addressList, u);
      }
    }

    /**
     * `getConnection(req)`: the request is marked with the group's key, the
     * balancer picks an address of the active list (weights read as
     * `getWeight` reads them at time `now`), and a connection to it is
     * taken from the table or created; `ready` is whether a new connection
     * becomes ready.
     */
    method GetConnection(req: RpcRequest, now: int, u: real, draws: seq<real>, stringify: Value -> string,
                         supplied: seq<Address> -> Option<Address>, ready: bool)
      returns (routed: RpcRequest, address: Option<Address>, conn: Option<Connection>)
      requires Valid() && 0.0 <= u < 1.0 && |group.addressList| <= |draws|
      modifies group.connectionManager, balancer.roundRobin
      ensures Valid()
      ensures routed == req.(meta := req.meta.(connectionGroup := Some(group.key)))
      ensures group.addressList == [] ==> address == None
      ensures |group.addressList| == 1 ==> address == Some(group.addressList[0])
      ensures !balancer.kind.Supplied? && (forall h :: h in group.weightMap ==> group.weightMap[h] >= 0.0) ==>
        (address.Some? <==> group.addressList != []) && (address.Some? ==> address.value in group.addressList)
      ensures var weight := GroupWeight(old(group.State()), group.settings, old(group.connectionManager.connections), now);
        var list := group.addressList;
        |list| > 1 ==> match balancer.kind
          case RandomKind => address == Choice(list, weight, u)
          case ConsistentHashKind =>
            address == Selected(balancer.ring.virtualNodes, balancer.ring.sortKeys, balancer.ring.md5, stringify, req.args)
          case RoundRobinKind =>
            address.Some? &&
            Picked(list, weight, draws, u, old(balancer.roundRobin.State()), address.value, balancer.roundRobin.State())
          case Supplied(_) => address == supplied(list)
      ensures address.None? ==> conn.None? && group.connectionManager.connections == old(group.connectionManager.connections)
      ensures address.Some? ==>
        (conn.Some? <==> Obtains(old(group.connectionManager.connections), address.value.host, ready)) &&
        group.connectionManager.connections ==
          AfterCreateAndGet(old(group.connectionManager.connections), address.value, ready, now)
      ensures conn.Some? ==>
        address.Some? && conn.value.isConnected &&
        address.value.host in group.connectionManager.connections &&
        group.connectionManager.connections[address.value.host] == conn.value
    {
      routed := req.(meta := req.meta.(connectionGroup := Some(group.key)));
      var st := group.State();
      var settings := group.settings;
      var conns := group.connectionManager.connections;
      var weight := GroupWeight(st, settings, conns, now);
      if forall h :: h in st.weights ==> st.weights[h] >= 0.0 {
        assert forall a: Address :: weight(a) >= 0.0;
      }
      address := balancer.Select(group.addressList, weight, u, draws, req.args, stringify, supplied);
      if address.None? {
        return routed, None, None;
      }
      conn := group.connectionManager.CreateAndGet(address.value, ready, now);
    }

    /** `close()` of the group; the balancer keeps its state. */
    method Close()
      requires Valid()
      modifies group
      ensures Valid()
      ensures group.weightMap == map[] && group.faultAddressMap == map[]
      ensures group.allAddressList == [] && group.addressList == [] && group.closed
    {
      group.Close();
    }
  }
}
