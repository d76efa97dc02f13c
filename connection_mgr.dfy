/**
 * The client's connection table: at most one connection per host
 * (`host` is 'hostname:port'). Connections themselves — sockets, protocol
 * and the per-connection breaker — live outside this model; a table entry
 * keeps only what the routing logic reads from a connection.
 */
module Connections {
  import opened Common
  import opened Metrics

  /**
   * What the router sees of a connection: whether it is connected, the last
   * health snapshot of its breaker, and when it last carried a call.
   */
  datatype Connection = Connection(
    address: Address,
    isConnected: bool,
    latestHealthCount: Option<HealthCounts>,
    lastInvokeTime: int)

  /** `get(address)` on a table: the entry for the host, if it is connected. */
  function Live(connections: map<string, Connection>, host: string): (r: Option<Connection>)
    ensures r.Some? <==> host in connections && connections[host].isConnected
    ensures r.Some? ==> r.value == connections[host]
  {
    if host in connections && connections[host].isConnected then Some(connections[host]) else None
  }

  /**
   * Whether `createAndGet` gives a connection to `host`: its entry is
   * already connected, or the new connection becomes ready.
   */
  predicate Obtains(connections: map<string, Connection>, host: string, ready: bool)
  {
    ready || (host in connections && connections[host].isConnected)
  }

  /**
   * The table after `createAndGet(address)`: the host's entry, created
   * (not connected, stamped `now`) when missing, is connected when ready
   * and removed when it stays unconnected.
   */
  function AfterCreateAndGet(connections: map<string, Connection>, address: Address, ready: bool, now: int)
    : (t: map<string, Connection>)
    ensures address.host in t <==> Obtains(connections, address.host, ready)
    ensures address.host in t ==> t[address.host].isConnected
    ensures address.host in t && address.host in connections ==>
      t[address.host] == connections[address.host].(isConnected := true)
    ensures address.host in t && address.host !in connections ==> t[address.host] == Connection(address, true, None, now)
    ensures forall h :: h != address.host ==> (h in t <==> h in connections)
    ensures forall h :: h != address.host && h in t ==> t[h] == connections[h]
  {
    var conn := if address.host in connections then connections[address.host] else Connection(address, false, None, now);
    if conn.isConnected then connections
    else if ready then connections[address.host := conn.(isConnected := true)]
    else connections - {address.host}
  }

  /**
   * `createAndGet` for each address in turn, `ready[i]` for the i-th: which
   * calls gave a connection, and the table at the end.
   */
  function ConnectEach(connections: map<string, Connection>, addrs: seq<Address>, ready: seq<bool>, now: int)
    : (r: (seq<bool>, map<string, Connection>))
    requires |ready| == |addrs|
    ensures |r.0| == |addrs|
    decreases |addrs|
  {
    if addrs == [] then ([], connections)
    else
      var rest := ConnectEach(AfterCreateAndGet(connections, addrs[0], ready[0], now), addrs[1..], ready[1..], now);
      ([Obtains(connections, addrs[0].host, ready[0])] + rest.0, rest.1)
  }

  /**
   * One more call in the run: if the calls so far gave `done` and leave the
   * rest of the run from `table` to match the whole run, so does the next.
   */
  lemma ConnectEachStep(start: map<string, Connection>, addrs: seq<Address>, ready: seq<bool>, now: int,
                        i: nat, table: map<string, Connection>, done: seq<bool>)
    requires |ready| == |addrs| && i < |addrs|
    requires var r := ConnectEach(table, addrs[i..], ready[i..], now);
      (done + r.0, r.1) == ConnectEach(start, addrs, ready, now)
    ensures var r := ConnectEach(AfterCreateAndGet(table, addrs[i], ready[i], now), addrs[i + 1..], ready[i + 1..], now);
      (done + [Obtains(table, addrs[i].host, ready[i])] + r.0, r.1) == ConnectEach(start, addrs, ready, now)
  {
    assert addrs[i..][0] == addrs[i] && addrs[i..][1..] == addrs[i + 1..];
    assert ready[i..][0] == ready[i] && ready[i..][1..] == ready[i + 1..];
    var rest := ConnectEach(AfterCreateAndGet(table, addrs[i], ready[i], now), addrs[i + 1..], ready[i + 1..], now);
    assert ConnectEach(table, addrs[i..], ready[i..], now) == ([Obtains(table, addrs[i].host, ready[i])] + rest.0, rest.1);
    assert done + ([Obtains(table, addrs[i].host, ready[i])] + rest.0) == done + [Obtains(table, addrs[i].host, ready[i])] + rest.0;
  }

  /** A connected entry stays connected whatever is connected after it. */
  lemma {:induction false} ConnectEachKeepsConnected(connections: map<string, Connection>, addrs: seq<Address>,
                                                     ready: seq<bool>, now: int, h: string)
    requires |ready| == |addrs|
    requires h in connections && connections[h].isConnected
    ensures var t := ConnectEach(connections, addrs, ready, now).1;
      h in t && t[h].isConnected
    decreases |addrs|
  {
    if addrs != [] {
      ConnectEachKeepsConnected(AfterCreateAndGet(connections, addrs[0], ready[0], now), addrs[1..], ready[1..], now, h);
    }
  }

  /**
   * A ready connection is always obtained, and a host that got a
   * connection is connected in the final table.
   */
  lemma {:induction false} ConnectEachLive(connections: map<string, Connection>, addrs: seq<Address>, ready: seq<bool>, now: int)
    requires |ready| == |addrs|
    ensures var r := ConnectEach(connections, addrs, ready, now);
      (forall i :: 0 <= i < |addrs| && ready[i] ==> r.0[i]) &&
      (forall i :: 0 <= i < |addrs| && r.0[i] ==> addrs[i].host in r.1 && r.1[addrs[i].host].isConnected)
    decreases |addrs|
  {
    if addrs != [] {
      var t := AfterCreateAndGet(connections, addrs[0], ready[0], now);
      var r := ConnectEach(connections, addrs, ready, now);
      var rest := ConnectEach(t, addrs[1..], ready[1..], now);
      ConnectEachLive(t, addrs[1..], ready[1..], now);
      if r.0[0] {
        ConnectEachKeepsConnected(t, addrs[1..], ready[1..], now, addrs[0].host);
      }
      forall i | 0 < i < |addrs|
        ensures r.0[i] == rest.0[i - 1] && addrs[i] == addrs[1..][i - 1] && ready[i] == ready[1..][i - 1]
      {
      }
    }
  }

  /**
   * The first call for a host gives a connection exactly when its entry
   * was already connected or the new connection becomes ready.
   */
  lemma {:induction false} ConnectEachFirst(connections: map<string, Connection>, addrs: seq<Address>, ready: seq<bool>, now: int)
    requires |ready| == |addrs|
    ensures var r := ConnectEach(connections, addrs, ready, now);
      forall i :: 0 <= i < |addrs| && (forall j :: 0 <= j < i ==> addrs[j].host != addrs[i].host) ==>
        (r.0[i] <==> Obtains(connections, addrs[i].host, ready[i]))
    decreases |addrs|
  {
    if addrs != [] {
      var t := AfterCreateAndGet(connections, addrs[0], ready[0], now);
      var r := ConnectEach(connections, addrs, ready, now);
      var rest := ConnectEach(t, addrs[1..], ready[1..], now);
      ConnectEachFirst(t, addrs[1..], ready[1..], now);
      forall i | 0 < i < |addrs| && (forall j :: 0 <= j < i ==> addrs[j].host != addrs[i].host)
        ensures r.0[i] <==> Obtains(connections, addrs[i].host, ready[i])
      {
        assert r.0[i] == rest.0[i - 1] && addrs[i] == addrs[1..][i - 1] && ready[i] == ready[1..][i - 1];
        assert forall j :: 0 <= j < i - 1 ==> addrs[1..][j].host != addrs[1..][i - 1].host by {
          forall j | 0 <= j < i - 1 ensures addrs[1..][j].host != addrs[1..][i - 1].host {
            assert addrs[1..][j] == addrs[j + 1];
          }
        }
        assert addrs[0].host != addrs[i].host;
      }
    }
  }

  /** Hosts none of the addresses name keep their entries, or their absence. */
  lemma {:induction false} ConnectEachOthers(connections: map<string, Connection>, addrs: seq<Address>, ready: seq<bool>,
                                             now: int, h: string)
    requires |ready| == |addrs|
    requires forall i :: 0 <= i < |addrs| ==> addrs[i].host != h
    ensures var t := ConnectEach(connections, addrs, ready, now).1;
      (h in t <==> h in connections) && (h in t ==> t[h] == connections[h])
    decreases |addrs|
  {
    if addrs != [] {
      assert addrs[0].host != h;
      assert forall i :: 0 <= i < |addrs| - 1 ==> addrs[1..][i].host != h by {
        forall i | 0 <= i < |addrs| - 1 ensures addrs[1..][i].host != h {
          assert addrs[1..][i] == addrs[i + 1];
        }
      }
      ConnectEachOthers(AfterCreateAndGet(connections, addrs[0], ready[0], now), addrs[1..], ready[1..], now, h);
    }
  }

  class ConnectionManager {
    /** host -> connection */
    var connections: map<string, Connection>

    constructor()
      ensures connections == map[]
    {
      connections := map[];
    }

    /** `get(address)`: a connection only for a host with a connected entry. */
    function Get(address: Address): (r: Option<Connection>)
      reads this
      ensures r.Some? <==> address.host in connections && connections[address.host].isConnected
      ensures r.Some? ==> r.value == connections[address.host]
    {
      Live(connections, address.host)
    }

    /**
     * `createAndGet(address)`: the host's entry, created (not yet connected,
     * stamped `now`) and stored first if there is none; an entry that is not
     * connected yet is awaited, and `ready` is whether that succeeds. A
     * failure removes the entry and gives no connection; it is not an error.
     */
    method CreateAndGet(address: Address, ready: bool, now: int) returns (r: Option<Connection>)
      modifies this
      ensures var conn := if address.host in old(connections) then old(connections)[address.host]
                         else Connection(address, false, None, now);
        if conn.isConnected then r == Some(conn) && connections == old(connections)[address.host := conn]
        else if ready then r == Some(conn.(isConnected := true)) && connections == old(connections)[address.host := r.value]
        else r == None && connections == old(connections) - {address.host}
      ensures r.Some? ==> address.host in connections && connections[address.host] == r.value && r.value.isConnected
      ensures forall h :: h != address.host ==> (h in connections <==> h in old(connections))
      ensures forall h :: h != address.host && h in connections ==> connections[h] == old(connections)[h]
      ensures r.Some? <==> Obtains(old(connections), address.host, ready)
      ensures connections == AfterCreateAndGet(old(connections), address, ready, now)
    {
      var conn: Connection;
      if address.host in connections {
        conn := connections[address.host];
      } else {
        conn := Connection(address, false, None, now);
        connections := connections[address.host := conn];
      }
      if !conn.isConnected {
        if !ready {
          connections := connections - {address.host};
          return None;
        }
        conn := conn.(isConnected := true);
        connections := connections[address.host := conn];
      }
      r := Some(conn);
    }

    /** The 'close' event of a connection: its host's entry is dropped. */
    method OnClose(host: string)
      modifies this
      ensures connections == old(connections) - {host}
    {
      connections := connections - {host};
    }
  }
}
