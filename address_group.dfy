/**
 * The routing state of one service: the full and the active address list,
 * a weight per active host (100 is full weight, 0 is isolated), the fault
 * map, the avalanche-guard switch and the connection-pool size. Assigning a
 * list picks the active addresses and rebuilds the maps; every metric window
 * the weights are regulated against the group's average.
 */
module Addressing {
  import opened Common
  import opened Config
  import opened Metrics
  import opened Connections

  /** `DEFAULT_WEIGHT` */
  const DefaultWeight: real := 100.0

  /** What a group reads but never changes: its fault-tolerance and pool settings, and `_maxIdleWindow`. */
  datatype Settings = Settings(ft: FaultToleranceConfig, pool: PoolConfig, maxIdleWindow: nat)

  /** The group's fields, as a value. */
  datatype GroupState = GroupState(
    all: seq<Address>,
    active: seq<Address>,
    fault: map<string, Address>,
    weights: map<string, real>,
    maxIsolated: int,
    degradeFlag: bool,
    poolSize: nat)

  function HostsOf(s: seq<Address>): set<string>
  {
    set a | a in s :: a.host
  }

  lemma HostsOfSnoc(s: seq<Address>, a: Address)
    ensures HostsOf(s + [a]) == HostsOf(s) + {a.host}
  {
    assert forall x :: x in s + [a] <==> x in s || x == a;
  }

  /** The hosts of a non-empty list: those of all but its last address, and the last one's. */
  lemma HostsOfLast(s: seq<Address>)
    requires s != []
    ensures HostsOf(s) == HostsOf(s[..|s| - 1]) + {s[|s| - 1].host}
  {
    assert s == s[..|s| - 1] + [s[|s| - 1]];
    HostsOfSnoc(s[..|s| - 1], s[|s| - 1]);
  }

  // ---------------------------------------------------------------------------
  // Health and elastic selection
  // ---------------------------------------------------------------------------

  /** What `checkHealthy` reads: the two maps and the hosts with a pool entry. */
  datatype View = View(fault: map<string, Address>, weights: map<string, real>, pooled: set<string>)

  predicate Unhealthy(v: View, host: string)
  {
    host in v.fault || (host in v.weights && v.weights[host] < DefaultWeight)
  }

  /**
   * `checkHealthy`: -1 for a faulty or down-weighted host, 1 for a host with
   * a pool entry that is not unhealthy, 0 for one not connected yet.
   */
  function Health(v: View, host: string): (r: int)
    ensures -1 <= r <= 1
    ensures r == -1 <==> Unhealthy(v, host)
    ensures r == 1 <==> host in v.pooled && !Unhealthy(v, host)
    ensures r == 0 <==> host !in v.pooled && !Unhealthy(v, host)
  {
    if host in v.pooled && !Unhealthy(v, host) then 1
    else if Unhealthy(v, host) then -1
    else 0
  }

  /**
   * A host that has just joined the list: it is not among the hosts of the
   * previous full list (`known`), and nothing is recorded against it.
   */
  predicate IsNew(v: View, known: set<string>, host: string)
  {
    host !in known && Health(v, host) == 0
  }

  /**
   * The rank the elastic choice gives a host: a new host ranks with the
   * healthy ones, any other host by its health.
   */
  function Rank(v: View, known: set<string>, host: string): (r: int)
    ensures -1 <= r <= 1
    ensures r == 1 <==> Health(v, host) == 1 || IsNew(v, known, host)
    ensures r == 0 <==> Health(v, host) == 0 && host in known
    ensures r == -1 <==> Health(v, host) == -1
  {
    if IsNew(v, known, host) then 1 else Health(v, host)
  }

  /** The addresses of `s` of rank `t`, in list order. */
  function Tier(s: seq<Address>, t: int, v: View, known: set<string>): (r: seq<Address>)
    ensures |r| <= |s|
  {
    if s == [] then []
    else (if Rank(v, known, s[0].host) == t then [s[0]] else []) + Tier(s[1..], t, v, known)
  }

  /** A tier holds exactly the addresses of the list with that rank. */
  lemma {:induction false} TierMembers(s: seq<Address>, t: int, v: View, known: set<string>)
    ensures forall a :: a in Tier(s, t, v, known) <==> a in s && Rank(v, known, a.host) == t
  {
    if s != [] {
      TierMembers(s[1..], t, v, known);
      assert forall a :: a in s <==> a == s[0] || a in s[1..];
    }
  }

  /**
   * The list reordered healthy and new hosts first, then hosts of unknown
   * health, then unhealthy ones; list order within each.
   */
  function Prioritized(s: seq<Address>, v: View, known: set<string>): (r: seq<Address>)
    ensures |r| == |s|
  {
    TiersLength(s, v, known);
    Tier(s, 1, v, known) + Tier(s, 0, v, known) + Tier(s, -1, v, known)
  }

  lemma TiersPartition(s: seq<Address>, v: View, known: set<string>)
    ensures multiset(Tier(s, 1, v, known)) + multiset(Tier(s, 0, v, known)) + multiset(Tier(s, -1, v, known))
      == multiset(s)
  {
    forall x
      ensures (multiset(Tier(s, 1, v, known)) + multiset(Tier(s, 0, v, known)) + multiset(Tier(s, -1, v, known)))[x]
        == multiset(s)[x]
    {
      TierCount(s, 1, v, known, x);
      TierCount(s, 0, v, known, x);
      TierCount(s, -1, v, known, x);
    }
  }

  /** An address occurs in its own tier as often as in the list, and in no other tier. */
  lemma {:induction false} TierCount(s: seq<Address>, t: int, v: View, known: set<string>, x: Address)
    ensures multiset(Tier(s, t, v, known))[x] == if Rank(v, known, x.host) == t then multiset(s)[x] else 0
  {
    if s != [] {
      TierCount(s[1..], t, v, known, x);
      assert s == [s[0]] + s[1..];
      var head: seq<Address> := if Rank(v, known, s[0].host) == t then [s[0]] else [];
      assert Tier(s, t, v, known) == head + Tier(s[1..], t, v, known);
    }
  }

  lemma TiersLength(s: seq<Address>, v: View, known: set<string>)
    ensures |Tier(s, 1, v, known)| + |Tier(s, 0, v, known)| + |Tier(s, -1, v, known)| == |s|
  {
    TiersPartition(s, v, known);
    assert |multiset(s)| == |s|;
  }

  /** Reordering by rank keeps every address. */
  lemma PrioritizedPermutes(s: seq<Address>, v: View, known: set<string>)
    ensures multiset(Prioritized(s, v, known)) == multiset(s)
  {
    TiersPartition(s, v, known);
  }

  /**
   * Reordering by rank orders the addresses best first: a healthy or new
   * address is preceded only by healthy or new ones, and one of unknown
   * health only by addresses that are not unhealthy.
   */
  lemma PrioritizedOrdered(s: seq<Address>, v: View, known: set<string>, i: nat, j: nat)
    requires i < j < |Prioritized(s, v, known)|
    ensures var p := Prioritized(s, v, known);
      Rank(v, known, p[i].host) >= Rank(v, known, p[j].host) &&
      ((Health(v, p[j].host) == 1 || IsNew(v, known, p[j].host)) ==>
        Health(v, p[i].host) == 1 || IsNew(v, known, p[i].host)) &&
      (Health(v, p[j].host) >= 0 ==> Health(v, p[i].host) >= 0)
  {
    PrioritizedRankAt(s, v, known, i);
    PrioritizedRankAt(s, v, known, j);
  }

  lemma PrioritizedRankAt(s: seq<Address>, v: View, known: set<string>, i: nat)
    requires i < |Prioritized(s, v, known)|
    ensures var n1, n0 := |Tier(s, 1, v, known)|, |Tier(s, 0, v, known)|;
      Rank(v, known, Prioritized(s, v, known)[i].host) == if i < n1 then 1 else if i < n1 + n0 then 0 else -1
  {
    var p := Prioritized(s, v, known);
    var n1, n0 := |Tier(s, 1, v, known)|, |Tier(s, 0, v, known)|;
    if i < n1 {
      TierMembers(s, 1, v, known);
      assert p[i] == Tier(s, 1, v, known)[i];
    } else if i < n1 + n0 {
      TierMembers(s, 0, v, known);
      assert p[i] == Tier(s, 0, v, known)[i - n1];
    } else {
      TierMembers(s, -1, v, known);
      assert p[i] == Tier(s, -1, v, known)[i - n1 - n0];
    }
  }

  /**
   * Whether elastic control applies to a list of `n` addresses: it is
   * switched on, the list has at least `minAddressCount` addresses, and more
   * than `enableThreshold` when one is set.
   */
  predicate NeedElastic(cfg: PoolConfig, n: nat)
  {
    cfg.elasticControl && n >= cfg.minAddressCount &&
    (cfg.enableThreshold.None? || n > cfg.enableThreshold.value)
  }

  function Min(a: int, b: int): int { if a <= b then a else b }

  function Max(a: int, b: int): int { if a >= b then a else b }

  /** How many of `n` addresses are made active under a pool of `poolSize`. */
  function ActiveCount(cfg: PoolConfig, poolSize: nat, n: nat): (r: nat)
    ensures r <= n
    ensures NeedElastic(cfg, n) ==> r <= poolSize && r <= cfg.maxAddressCount
    ensures !NeedElastic(cfg, n) ==> r == n
  {
    if NeedElastic(cfg, n) then Min(Min(poolSize, cfg.maxAddressCount), n) else n
  }

  /**
   * `reset(all)`: the active list. Without elastic control every address;
   * with it, the first `ActiveCount` addresses in rank order, where `known`
   * holds the hosts of the full list being replaced.
   */
  function ChooseActive(all: seq<Address>, poolSize: nat, cfg: PoolConfig, v: View, known: set<string>)
    : (r: seq<Address>)
    ensures |r| == ActiveCount(cfg, poolSize, |all|)
  {
    if NeedElastic(cfg, |all|) then Prioritized(all, v, known)[..ActiveCount(cfg, poolSize, |all|)] else all
  }

  /**
   * The active list is drawn from the full list; with few addresses it is
   * the full list, and it never holds more than the pool or the maximum.
   */
  lemma ChooseActiveDrawsFromAll(all: seq<Address>, poolSize: nat, cfg: PoolConfig, v: View, known: set<string>)
    ensures multiset(ChooseActive(all, poolSize, cfg, v, known)) <= multiset(all)
    ensures !NeedElastic(cfg, |all|) ==> ChooseActive(all, poolSize, cfg, v, known) == all
    ensures NeedElastic(cfg, |all|) ==>
      |ChooseActive(all, poolSize, cfg, v, known)| == Min(Min(poolSize, cfg.maxAddressCount), |all|)
  {
    if NeedElastic(cfg, |all|) {
      var p := Prioritized(all, v, known);
      var k := ActiveCount(cfg, poolSize, |all|);
      assert ChooseActive(all, poolSize, cfg, v, known) == p[..k];
      PrioritizedPermutes(all, v, known);
      PrefixSubMultiset(p, k);
    }
  }

  lemma PrefixSubMultiset<T>(s: seq<T>, k: nat)
    requires k <= |s|
    ensures multiset(s[..k]) <= multiset(s)
  {
    assert s == s[..k] + s[k..];
  }

  /**
   * Better-ranked addresses are preferred. An address left out never ranks
   * above one chosen: while a healthy or new address is left out, every
   * chosen address is healthy or new, and while an address that is not
   * unhealthy is left out, no unhealthy address is chosen.
   */
  lemma ChooseActivePrefersHealthy(all: seq<Address>, poolSize: nat, cfg: PoolConfig, v: View, known: set<string>)
    requires NeedElastic(cfg, |all|)
    ensures forall x, y ::
      (x in ChooseActive(all, poolSize, cfg, v, known) && y in all && y !in ChooseActive(all, poolSize, cfg, v, known)) ==>
      Rank(v, known, y.host) <= Rank(v, known, x.host) &&
      ((Health(v, y.host) == 1 || IsNew(v, known, y.host)) ==> Health(v, x.host) == 1 || IsNew(v, known, x.host)) &&
      (Health(v, y.host) >= 0 ==> Health(v, x.host) >= 0)
  {
    var p := Prioritized(all, v, known);
    var k := ActiveCount(cfg, poolSize, |all|);
    var r := ChooseActive(all, poolSize, cfg, v, known);
    PrioritizedPermutes(all, v, known);
    forall x, y | x in r && y in all && y !in r
      ensures Rank(v, known, y.host) <= Rank(v, known, x.host)
    {
      var i :| 0 <= i < k && r[i] == x;
      assert y in multiset(p);
      var j :| 0 <= j < |p| && p[j] == y;
      PrioritizedOrdered(all, v, known, i, j);
    }
  }

  /**
   * When the pool can hold every healthy and every new address, all of them
   * stay active: a refresh keeps the addresses that are already connected.
   */
  lemma ChooseActiveKeepsHealthy(all: seq<Address>, poolSize: nat, cfg: PoolConfig, v: View, known: set<string>)
    requires NeedElastic(cfg, |all|)
    requires |Tier(all, 1, v, known)| <= ActiveCount(cfg, poolSize, |all|)
    ensures forall a :: a in all && (Health(v, a.host) == 1 || IsNew(v, known, a.host)) ==>
      a in ChooseActive(all, poolSize, cfg, v, known)
  {
    var k := ActiveCount(cfg, poolSize, |all|);
    var t1 := Tier(all, 1, v, known);
    var p := Prioritized(all, v, known);
    TierMembers(all, 1, v, known);
    assert p[..|t1|] == t1;
    forall a | a in all && (Health(v, a.host) == 1 || IsNew(v, known, a.host))
      ensures a in ChooseActive(all, poolSize, cfg, v, known)
    {
      var i :| 0 <= i < |t1| && t1[i] == a;
      assert p[..k][i] == a;
    }
  }

  /**
   * A healthy or new address at the head of the list is the first active
   * address whenever the pool allows any: a host put first in a new list
   * is used even when connected hosts could fill the pool.
   */
  lemma ChooseActiveTakesHead(all: seq<Address>, poolSize: nat, cfg: PoolConfig, v: View, known: set<string>)
    requires |all| > 0 && (Health(v, all[0].host) == 1 || IsNew(v, known, all[0].host))
    requires ActiveCount(cfg, poolSize, |all|) > 0
    ensures ChooseActive(all, poolSize, cfg, v, known)[0] == all[0]
  {
    if NeedElastic(cfg, |all|) {
      assert Tier(all, 1, v, known)[0] == all[0];
      assert Prioritized(all, v, known)[0] == all[0];
    }
  }

  // ---------------------------------------------------------------------------
  // Assigning an address list
  // ---------------------------------------------------------------------------

  /** The weight map rebuilt for an active list: old weights kept, new hosts at 100. */
  function KeepWeights(active: seq<Address>, weights: map<string, real>): map<string, real>
  {
    if active == [] then map[]
    else
      var a := active[|active| - 1];
      KeepWeights(active[..|active| - 1], weights)[a.host := if a.host in weights then weights[a.host] else DefaultWeight]
  }

  /** The fault map rebuilt for an active list: only active hosts that were faulty. */
  function KeepFaults(active: seq<Address>, fault: map<string, Address>): map<string, Address>
  {
    if active == [] then map[]
    else
      var a := active[|active| - 1];
      var m := KeepFaults(active[..|active| - 1], fault);
      if a.host in fault then m[a.host := a] else m
  }

  lemma {:induction false} KeepWeightsSpec(active: seq<Address>, weights: map<string, real>)
    ensures KeepWeights(active, weights).Keys == HostsOf(active)
    ensures forall h :: h in KeepWeights(active, weights) ==>
      KeepWeights(active, weights)[h] == if h in weights then weights[h] else DefaultWeight
  {
    if active != [] {
      var init, a := active[..|active| - 1], active[|active| - 1];
      KeepWeightsSpec(init, weights);
      assert active == init + [a];
      HostsOfSnoc(init, a);
    }
  }

  lemma {:induction false} KeepFaultsSpec(active: seq<Address>, fault: map<string, Address>)
    ensures KeepFaults(active, fault).Keys == HostsOf(active) * fault.Keys
    ensures forall h :: h in KeepFaults(active, fault) ==>
      KeepFaults(active, fault)[h] in active && KeepFaults(active, fault)[h].host == h
  {
    if active != [] {
      var init, a := active[..|active| - 1], active[|active| - 1];
      KeepFaultsSpec(init, fault);
      assert active == init + [a];
      HostsOfSnoc(init, a);
    }
  }

  /** The `addressList` setter, including its recording of the full list. */
  function AssignList(st: GroupState, val: seq<Address>, s: Settings, conns: map<string, Connection>): GroupState
  {
    var active := ChooseActive(val, st.poolSize, s.pool, View(st.fault, st.weights, conns.Keys), HostsOf(st.all));
    GroupState(val, active, KeepFaults(active, st.fault), KeepWeights(active, st.weights),
      Ceil(s.ft.maxIsolatedPercentage * |active| as real), true, st.poolSize)
  }

  /**
   * After an assignment the weight map holds exactly the active hosts, with
   * their old weight or 100; the fault map keeps only active faulty hosts;
   * the guard is re-enabled.
   */
  lemma AssignListSpec(st: GroupState, val: seq<Address>, s: Settings, conns: map<string, Connection>)
    ensures var r := AssignList(st, val, s, conns);
      r.all == val &&
      r.active == ChooseActive(val, st.poolSize, s.pool, View(st.fault, st.weights, conns.Keys), HostsOf(st.all)) &&
      r.weights.Keys == HostsOf(r.active) &&
      (forall h :: h in r.weights ==> r.weights[h] == if h in st.weights then st.weights[h] else DefaultWeight) &&
      r.fault.Keys == HostsOf(r.active) * st.fault.Keys &&
      (forall h :: h in r.fault ==> r.fault[h] in r.active && r.fault[h].host == h) &&
      r.degradeFlag && r.poolSize == st.poolSize
  {
    var active := ChooseActive(val, st.poolSize, s.pool, View(st.fault, st.weights, conns.Keys), HostsOf(st.all));
    assert AssignList(st, val, s, conns).active == active;
    KeepWeightsSpec(active, st.weights);
    KeepFaultsSpec(active, st.fault);
  }

  /** After an assignment at most ceil(percentage x active) addresses may be isolated. */
  lemma AssignListIsolation(st: GroupState, val: seq<Address>, s: Settings, conns: map<string, Connection>)
    ensures var r := AssignList(st, val, s, conns);
      r.maxIsolated as real - 1.0 < s.ft.maxIsolatedPercentage * |r.active| as real <= r.maxIsolated as real
  {
  }

  /** `refresh()`: reassigns the full list only when some addresses are not active. */
  function Refreshed(st: GroupState, s: Settings, conns: map<string, Connection>): (r: GroupState)
    ensures |st.all| <= |st.active| ==> r == st
    ensures |st.all| > |st.active| ==> r.all == st.all && r.degradeFlag
  {
    if |st.all| > |st.active| then AssignList(st, st.all, s, conns) else st
  }

  /** The `connectionPoolSize` setter: a changed size is stored and the list refreshed. */
  function SetPoolSize(st: GroupState, v: nat, s: Settings, conns: map<string, Connection>): (r: GroupState)
    ensures r.poolSize == v
    ensures v == st.poolSize ==> r == st
  {
    if v != st.poolSize then Refreshed(st.(poolSize := v), s, conns) else st
  }

  /**
   * The pool size a window of `total` calls asks for: ceil(total / capacity),
   * clamped to [min, max]. Below the maximum it has room for every call, and
   * above the minimum one connection fewer would not have.
   */
  function PoolSizeFor(total: nat, cfg: PoolConfig): (r: nat)
    requires cfg.capacityPerConnection > 0
    ensures cfg.minAddressCount <= cfg.maxAddressCount ==> cfg.minAddressCount <= r <= cfg.maxAddressCount
    ensures r < cfg.maxAddressCount ==> total <= r * cfg.capacityPerConnection
    ensures r > cfg.minAddressCount ==> (r - 1) * cfg.capacityPerConnection < total
  {
    var cap := cfg.capacityPerConnection;
    var need := CeilDiv(total, cap);
    var r := Min(Max(need, cfg.minAddressCount), cfg.maxAddressCount);
    assert r < cfg.maxAddressCount ==> need <= r by {
      if r < cfg.maxAddressCount { assert r == Max(need, cfg.minAddressCount); }
    }
    MulMonoNat(need, r, cap);
    assert r > cfg.minAddressCount ==> r <= need;
    MulMonoNat(r - 1, need - 1, cap);
    r
  }

  /** With a capacity of 30 per connection: 300 calls ask for 10, 600 for 20, none for the minimum 5, 1530 for the maximum 50. */
  lemma PoolSizeExamples()
    ensures PoolSizeFor(300, PoolConfig(None, 5, 50, 6, true, 30)) == 10
    ensures PoolSizeFor(600, PoolConfig(None, 5, 50, 6, true, 30)) == 20
    ensures PoolSizeFor(0, PoolConfig(None, 5, 50, 6, true, 30)) == 5
    ensures PoolSizeFor(1530, PoolConfig(None, 5, 50, 6, true, 30)) == 50
  {
  }

  /** The balancer's pool adjustment at the start of each window. */
  function AdjustPool(st: GroupState, total: nat, s: Settings, conns: map<string, Connection>): GroupState
    requires s.pool.capacityPerConnection > 0
  {
    if NeedElastic(s.pool, |st.all|) then SetPoolSize(st, PoolSizeFor(total, s.pool), s, conns) else st
  }

  /** Whether `refresh()` calls the `addressList` setter (and so the balancer's `reset`). */
  predicate RefreshReassigns(st: GroupState)
  {
    |st.all| > |st.active|
  }

  /** Whether the `connectionPoolSize` setter ends in a reassignment. */
  predicate PoolSizeReassigns(st: GroupState, v: nat)
  {
    v != st.poolSize && RefreshReassigns(st)
  }

  /** Whether the pool adjustment at the start of a window ends in a reassignment. */
  predicate AdjustReassigns(st: GroupState, total: nat, s: Settings)
    requires s.pool.capacityPerConnection > 0
  {
    NeedElastic(s.pool, |st.all|) && PoolSizeReassigns(st, PoolSizeFor(total, s.pool))
  }

  // ---------------------------------------------------------------------------
  // Weight regulation
  // ---------------------------------------------------------------------------

  /** `Math.round(own * 10 / avg) / 10`: the ratio of own to average, to the nearest tenth. */
  function Multiple(own: nat, avg: nat): (r: real)
    requires avg > 0
    ensures r - 0.05 <= own as real / avg as real < r + 0.05
  {
    var x := (own * 10) as real / avg as real;
    assert x == 10.0 * (own as real / avg as real);
    RoundHalfUp(x) as real / 10.0
  }

  /** `errorMultiple`: against a group error rate of 0, any own error counts as the degrade multiple. */
  function ErrorMultiple(own: nat, avg: nat, ft: FaultToleranceConfig): (r: real)
    ensures avg == 0 && own > 0 ==> r == ft.leastWindowExceptionRateMultiple
    ensures avg == 0 && own == 0 ==> r == 0.0
    ensures avg > 0 ==> r - 0.05 <= own as real / avg as real < r + 0.05
  {
    if avg == 0 then (if own > 0 then ft.leastWindowExceptionRateMultiple else 0.0) else Multiple(own, avg)
  }

  /** `rtMultiple`: 1 against a group average of 0. */
  function RtMultiple(own: nat, avg: nat): (r: real)
    ensures avg == 0 ==> r == 1.0
    ensures avg > 0 ==> r - 0.05 <= own as real / avg as real < r + 0.05
  {
    if avg == 0 then 1.0 else Multiple(own, avg)
  }

  /** The new weight of one connected address, and whether its connection's counter is reset. */
  datatype Regulated = Regulated(weight: real, resetCounter: bool)

  predicate Degrades(hc: HealthCounts, avgErr: nat, avgRT: nat, ft: FaultToleranceConfig)
  {
    ErrorMultiple(ErrorRate(hc), avgErr, ft) >= ft.leastWindowExceptionRateMultiple ||
    RtMultiple(AvgRT(hc), avgRT) >= ft.leastWindowRtMultiple
  }

  predicate Recovers(hc: HealthCounts, avgErr: nat, avgRT: nat, ft: FaultToleranceConfig)
  {
    ErrorMultiple(ErrorRate(hc), avgErr, ft) < ft.recoverWindowExceptionRateMultiple &&
    RtMultiple(AvgRT(hc), avgRT) < ft.recoverWindowRtMultiple
  }

  /**
   * One address of a regulation pass that has a live connection. Only with
   * the guard on and a last snapshot that saw calls does anything change:
   * an address far worse than average is degraded geometrically down to
   * `degradeLeastWeight` (its counter reset), and a down-weighted address
   * close to average recovers geometrically up to 100.
   */
  function RegulateWeight(pre: real, hc: Option<HealthCounts>, degrade: bool, avgErr: nat, avgRT: nat,
                          ft: FaultToleranceConfig): (r: Regulated)
    ensures !(degrade && hc.Some? && hc.value.totalCount > 0) ==> r == Regulated(pre, false)
    ensures degrade && hc.Some? && hc.value.totalCount > 0 ==>
      r == Adjust(pre, Degrades(hc.value, avgErr, avgRT, ft), Recovers(hc.value, avgErr, avgRT, ft), ft)
  {
    if degrade && hc.Some? && hc.value.totalCount > 0 then
      Adjust(pre, Degrades(hc.value, avgErr, avgRT, ft), Recovers(hc.value, avgErr, avgRT, ft), ft)
    else Regulated(pre, false)
  }

  /**
   * The weight change of a regulated address: `worse` (far worse than
   * average) degrades it, unless it is already at the floor; otherwise a
   * down-weighted address that is `close` to average recovers.
   */
  function Adjust(pre: real, worse: bool, close: bool, ft: FaultToleranceConfig): (r: Regulated)
    ensures worse ==>
      if pre <= ft.degradeLeastWeight then r == Regulated(ft.degradeLeastWeight, false)
      else r.resetCounter && r.weight == Max'(pre * ft.weightDegradeRate, ft.degradeLeastWeight)
    ensures !worse && pre < DefaultWeight && close ==> r == Regulated(Min'(pre * ft.weightRecoverRate, DefaultWeight), false)
    ensures !worse && !(pre < DefaultWeight && close) ==> r == Regulated(pre, false)
  {
    if worse then
      if pre <= ft.degradeLeastWeight then Regulated(ft.degradeLeastWeight, false)
      else
        var w := pre * ft.weightDegradeRate;
        Regulated(if w < ft.degradeLeastWeight then ft.degradeLeastWeight else w, true)
    else if pre < DefaultWeight && close then
      var w := pre * ft.weightRecoverRate;
      Regulated(if w > DefaultWeight then DefaultWeight else w, false)
    else Regulated(pre, false)
  }

  function Max'(a: real, b: real): real { if a >= b then a else b }

  function Min'(a: real, b: real): real { if a <= b then a else b }

  /** A degraded weight stays in [least, 100]. */
  lemma DegradeRange(pre: real, rate: real, least: real)
    requires 0.0 <= rate <= 1.0 && 0.0 <= least <= pre <= DefaultWeight
    ensures least <= Max'(pre * rate, least) <= DefaultWeight
  {
    assert pre * rate <= pre * 1.0;
  }

  /** A recovered weight stays in [least, 100]. */
  lemma RecoverRange(pre: real, rate: real, least: real)
    requires rate >= 1.0 && 0.0 <= least <= pre <= DefaultWeight
    ensures least <= Min'(pre * rate, DefaultWeight) <= DefaultWeight
  {
    assert pre * 1.0 <= pre * rate;
  }

  /**
   * With a degrade rate in [0, 1] and a recover rate of at least 1, a weight
   * in [degradeLeastWeight, 100] stays in that range.
   */
  lemma RegulateKeepsRange(pre: real, hc: Option<HealthCounts>, degrade: bool, avgErr: nat, avgRT: nat,
                           ft: FaultToleranceConfig)
    requires 0.0 <= ft.weightDegradeRate <= 1.0 && ft.weightRecoverRate >= 1.0
    requires 0.0 <= ft.degradeLeastWeight <= pre <= DefaultWeight
    ensures var w := RegulateWeight(pre, hc, degrade, avgErr, avgRT, ft).weight;
      ft.degradeLeastWeight <= w <= DefaultWeight
  {
    if degrade && hc.Some? && hc.value.totalCount > 0 {
      AdjustKeepsRange(pre, Degrades(hc.value, avgErr, avgRT, ft), Recovers(hc.value, avgErr, avgRT, ft), ft);
    }
  }

  lemma AdjustKeepsRange(pre: real, worse: bool, close: bool, ft: FaultToleranceConfig)
    requires 0.0 <= ft.weightDegradeRate <= 1.0 && ft.weightRecoverRate >= 1.0
    requires 0.0 <= ft.degradeLeastWeight <= pre <= DefaultWeight
    ensures ft.degradeLeastWeight <= Adjust(pre, worse, close, ft).weight <= DefaultWeight
  {
    if worse && pre > ft.degradeLeastWeight {
      DegradeRange(pre, ft.weightDegradeRate, ft.degradeLeastWeight);
    } else if !worse && pre < DefaultWeight && close {
      RecoverRange(pre, ft.weightRecoverRate, ft.degradeLeastWeight);
    }
  }

  /**
   * A weight of 0 (set for an address that could not connect) is not raised
   * by recovery: 0 times the recover rate is 0. `getWeight` reads it as 100.
   */
  lemma ZeroWeightDoesNotRecover(hc: HealthCounts, avgErr: nat, avgRT: nat, ft: FaultToleranceConfig)
    requires ft.degradeLeastWeight > 0.0
    requires !Degrades(hc, avgErr, avgRT, ft)
    ensures RegulateWeight(0.0, Some(hc), true, avgErr, avgRT, ft).weight == 0.0
  {
  }

  /**
   * Under the default settings, an address at 10x the group's mean response
   * time drops from 100 to 5; back at the mean it recovers 5, 10, 20, 40,
   * 80, 100.
   */
  lemma DegradeRecoverTrace()
    ensures RegulateWeight(100.0, Some(HealthCounts(10, 0, 1000)), true, 0, 10, DefaultFaultTolerance).weight == 5.0
    ensures RegulateWeight(100.0, Some(HealthCounts(10, 0, 1000)), true, 0, 10, DefaultFaultTolerance).resetCounter
    ensures RegulateWeight(5.0, Some(HealthCounts(10, 0, 100)), true, 0, 10, DefaultFaultTolerance).weight == 10.0
    ensures RegulateWeight(10.0, Some(HealthCounts(10, 0, 100)), true, 0, 10, DefaultFaultTolerance).weight == 20.0
    ensures RegulateWeight(20.0, Some(HealthCounts(10, 0, 100)), true, 0, 10, DefaultFaultTolerance).weight == 40.0
    ensures RegulateWeight(40.0, Some(HealthCounts(10, 0, 100)), true, 0, 10, DefaultFaultTolerance).weight == 80.0
    ensures RegulateWeight(80.0, Some(HealthCounts(10, 0, 100)), true, 0, 10, DefaultFaultTolerance).weight == 100.0
  {
    assert AvgRT(HealthCounts(10, 0, 1000)) == 100 by { assert 1000.0 / 10.0 == 100.0; }
    assert AvgRT(HealthCounts(10, 0, 100)) == 10 by { assert 100.0 / 10.0 == 10.0; }
    assert ErrorRate(HealthCounts(10, 0, 1000)) == 0;
    assert ErrorRate(HealthCounts(10, 0, 100)) == 0;
    assert RtMultiple(100, 10) == 10.0 by { assert 1000.0 / 10.0 == 100.0; }
    assert RtMultiple(10, 10) == 1.0 by { assert 100.0 / 10.0 == 10.0; }
  }

  /** What a regulation pass reads besides the maps: the table, the guard and the group averages. */
  datatype Window = Window(conns: map<string, Connection>, degrade: bool, avgErr: nat, avgRT: nat, ft: FaultToleranceConfig)

  /** The maps and outputs of a regulation pass so far. */
  datatype PassState = PassState(
    weights: map<string, real>,
    fault: map<string, Address>,
    degradeCount: nat,
    resets: seq<string>,
    heartbeats: seq<string>)

  /**
   * One address of the pass: no live connection means weight 0 and a fault
   * entry; otherwise the weight is regulated and the connection gets a
   * heartbeat. A weight under 100 counts as degraded.
   */
  function PassStep(p: PassState, a: Address, w: Window): PassState
  {
    var pre := if a.host in p.weights then p.weights[a.host] else DefaultWeight;
    var conn := Live(w.conns, a.host);
    if conn.None? then
      PassState(p.weights[a.host := 0.0], p.fault[a.host := a], p.degradeCount + 1, p.resets, p.heartbeats)
    else
      var reg := RegulateWeight(pre, conn.value.latestHealthCount, w.degrade, w.avgErr, w.avgRT, w.ft);
      PassState(p.weights[a.host := reg.weight], p.fault,
        p.degradeCount + (if reg.weight < DefaultWeight then 1 else 0),
        p.resets + (if reg.resetCounter then [a.host] else []),
        p.heartbeats + [a.host])
  }

  /** The pass over `addrs`, in list order. */
  function Pass(addrs: seq<Address>, p0: PassState, w: Window): PassState
  {
    if addrs == [] then p0 else PassStep(Pass(addrs[..|addrs| - 1], p0, w), addrs[|addrs| - 1], w)
  }

  lemma PassSnoc(addrs: seq<Address>, i: nat, p0: PassState, w: Window)
    requires i < |addrs|
    ensures Pass(addrs[..i + 1], p0, w) == PassStep(Pass(addrs[..i], p0, w), addrs[i], w)
  {
    assert addrs[..i + 1][..i] == addrs[..i];
  }

  /** A pass gives every visited host a weight, and counts at most one degraded address per visit. */
  lemma {:induction false} PassCovers(addrs: seq<Address>, p0: PassState, w: Window)
    ensures Pass(addrs, p0, w).weights.Keys == p0.weights.Keys + HostsOf(addrs)
    ensures Pass(addrs, p0, w).fault.Keys <= p0.fault.Keys + HostsOf(addrs)
    ensures Pass(addrs, p0, w).degradeCount <= p0.degradeCount + |addrs|
  {
    if addrs != [] {
      var init, a := addrs[..|addrs| - 1], addrs[|addrs| - 1];
      PassCovers(init, p0, w);
      var before := Pass(init, p0, w);
      assert Pass(addrs, p0, w) == PassStep(before, a, w);
      StepCovers(before, a, w);
      HostsOfLast(addrs);
    }
  }

  /** One step gives the address's host a weight and counts at most one degraded address. */
  lemma StepCovers(p: PassState, a: Address, w: Window)
    ensures PassStep(p, a, w).weights.Keys == p.weights.Keys + {a.host}
    ensures PassStep(p, a, w).fault.Keys <= p.fault.Keys + {a.host}
    ensures PassStep(p, a, w).degradeCount <= p.degradeCount + 1
  {
  }

  /** An address without a live connection ends the pass at weight 0, in the fault map. */
  lemma {:induction false} PassIsolatesUnconnected(addrs: seq<Address>, p0: PassState, w: Window)
    ensures forall a :: a in addrs && Live(w.conns, a.host).None? ==>
      a.host in Pass(addrs, p0, w).weights && Pass(addrs, p0, w).weights[a.host] == 0.0 &&
      a.host in Pass(addrs, p0, w).fault && Pass(addrs, p0, w).fault[a.host].host == a.host
  {
    if addrs != [] {
      var init, a := addrs[..|addrs| - 1], addrs[|addrs| - 1];
      PassIsolatesUnconnected(init, p0, w);
      assert addrs == init + [a];
      assert forall x :: x in addrs <==> x in init || x == a;
    }
  }

  /** Whether a connected host's weight may be regulated this pass. */
  predicate Regulable(w: Window, host: string)
  {
    var c := Live(w.conns, host);
    c.Some? && w.degrade && c.value.latestHealthCount.Some? && c.value.latestHealthCount.value.totalCount > 0
  }

  /**
   * A connected address that may not be regulated (degrading off, or no
   * calls in its last snapshot) keeps its weight, a missing one reading 100.
   */
  lemma {:induction false} PassKeepsUnregulated(addrs: seq<Address>, p0: PassState, w: Window)
    ensures forall a :: a in addrs && Live(w.conns, a.host).Some? && !Regulable(w, a.host) ==>
      a.host in Pass(addrs, p0, w).weights &&
      Pass(addrs, p0, w).weights[a.host] == if a.host in p0.weights then p0.weights[a.host] else DefaultWeight
  {
    if addrs != [] {
      var init, a := addrs[..|addrs| - 1], addrs[|addrs| - 1];
      PassKeepsUnregulated(init, p0, w);
      PassKeepsOthers(init, p0, w);
      assert addrs == init + [a];
      var before := Pass(init, p0, w);
      assert Pass(addrs, p0, w) == PassStep(before, a, w);
      StepKeepsUnregulated(before, a, w);
      assert forall x :: x in addrs <==> x in init || x == a;
      HostsOfSnoc(init, a);
    }
  }

  /** A pass leaves the weights of hosts it does not visit alone. */
  lemma {:induction false} PassKeepsOthers(addrs: seq<Address>, p0: PassState, w: Window)
    ensures forall h :: h !in HostsOf(addrs) ==>
      (h in Pass(addrs, p0, w).weights <==> h in p0.weights) &&
      (h in p0.weights ==> Pass(addrs, p0, w).weights[h] == p0.weights[h])
  {
    if addrs != [] {
      var init, a := addrs[..|addrs| - 1], addrs[|addrs| - 1];
      PassKeepsOthers(init, p0, w);
      assert addrs == init + [a];
      HostsOfSnoc(init, a);
      var before := Pass(init, p0, w);
      assert Pass(addrs, p0, w) == PassStep(before, a, w);
      StepKeepsUnregulated(before, a, w);
    }
  }

  /** One step leaves every other host's weight alone, and keeps the weight of a connected address it may not regulate. */
  lemma StepKeepsUnregulated(p: PassState, a: Address, w: Window)
    ensures a.host in PassStep(p, a, w).weights
    ensures Live(w.conns, a.host).Some? && !Regulable(w, a.host) ==>
      PassStep(p, a, w).weights[a.host] == if a.host in p.weights then p.weights[a.host] else DefaultWeight
    ensures forall h :: h != a.host ==>
      (h in PassStep(p, a, w).weights <==> h in p.weights) &&
      (h in p.weights ==> PassStep(p, a, w).weights[h] == p.weights[h])
  {
  }

  /** The outcome of `_onNext`: the new state and the hosts whose counter was reset or got a heartbeat. */
  datatype NextOutcome = NextOutcome(state: GroupState, resets: seq<string>, heartbeats: seq<string>)

  /** `degradeEnable`: the configured switch and the avalanche guard together. */
  predicate DegradeEnable(st: GroupState, s: Settings)
  {
    s.ft.degradeEffective && st.degradeFlag
  }

  /** The regulation pass of `_onNext` on an already adjusted state. */
  function RegulationPass(st: GroupState, hc: HealthCounts, s: Settings, conns: map<string, Connection>): PassState
  {
    Pass(st.active, PassState(st.weights, st.fault, 0, [], []),
      Window(conns, DegradeEnable(st, s), ErrorRate(hc), AvgRT(hc), s.ft))
  }

  /**
   * `_onNext(hc)`: the pool is adjusted to the window's calls; then, when
   * regulation is on, every active address is regulated and the avalanche
   * guard is applied: more degraded addresses than `maxIsolated` switch
   * degrading off and refresh the list.
   */
  function AfterWindow(st: GroupState, hc: HealthCounts, s: Settings, conns: map<string, Connection>): NextOutcome
    requires s.pool.capacityPerConnection > 0
  {
    var st1 := AdjustPool(st, hc.totalCount, s, conns);
    if !s.ft.regulationEffective then NextOutcome(st1, [], [])
    else
      var p := RegulationPass(st1, hc, s, conns);
      var st2 := st1.(weights := p.weights, fault := p.fault);
      if p.degradeCount <= st2.maxIsolated then NextOutcome(st2.(degradeFlag := true), p.resets, p.heartbeats)
      else NextOutcome(Refreshed(st2.(degradeFlag := false), s, conns), p.resets, p.heartbeats)
  }

  /**
   * Whether `_onNext(hc)` reassigns the list: through the pool adjustment,
   * or through the refresh of a tripped avalanche guard.
   */
  predicate WindowReassigns(st: GroupState, hc: HealthCounts, s: Settings, conns: map<string, Connection>)
    requires s.pool.capacityPerConnection > 0
  {
    AdjustReassigns(st, hc.totalCount, s) ||
    (s.ft.regulationEffective &&
     var st1 := AdjustPool(st, hc.totalCount, s, conns);
     RegulationPass(st1, hc, s, conns).degradeCount > st1.maxIsolated && RefreshReassigns(st1))
  }

  /**
   * The avalanche guard: within the isolation budget degrading stays on and
   * the pass's weights are kept; over it, degrading is switched off unless
   * the refresh reassigns the list, which switches it back on.
   */
  lemma AvalancheGuard(st: GroupState, hc: HealthCounts, s: Settings, conns: map<string, Connection>)
    requires s.pool.capacityPerConnection > 0 && s.ft.regulationEffective
    ensures var st1 := AdjustPool(st, hc.totalCount, s, conns);
      var p := RegulationPass(st1, hc, s, conns);
      var r := AfterWindow(st, hc, s, conns).state;
      (p.degradeCount <= st1.maxIsolated ==>
        r.degradeFlag && r.weights == p.weights && r.fault == p.fault && r.active == st1.active) &&
      (p.degradeCount > st1.maxIsolated && |st1.all| <= |st1.active| ==>
        !r.degradeFlag && r.weights == p.weights && r.active == st1.active) &&
      (p.degradeCount > st1.maxIsolated && |st1.all| > |st1.active| ==>
        r.degradeFlag && r.all == st1.all)
  {
  }

  lemma AfterWindowRegulated(st: GroupState, hc: HealthCounts, s: Settings, conns: map<string, Connection>,
                             st1: GroupState, p: PassState)
    requires s.pool.capacityPerConnection > 0 && s.ft.regulationEffective
    requires st1 == AdjustPool(st, hc.totalCount, s, conns) && p == RegulationPass(st1, hc, s, conns)
    ensures AfterWindow(st, hc, s, conns) ==
      if p.degradeCount <= st1.maxIsolated
      then NextOutcome(st1.(weights := p.weights, fault := p.fault, degradeFlag := true), p.resets, p.heartbeats)
      else NextOutcome(Refreshed(st1.(weights := p.weights, fault := p.fault, degradeFlag := false), s, conns),
                       p.resets, p.heartbeats)
  {
  }

  /** With regulation switched off a window only adjusts the pool. */
  lemma RegulationOff(st: GroupState, hc: HealthCounts, s: Settings, conns: map<string, Connection>)
    requires s.pool.capacityPerConnection > 0 && !s.ft.regulationEffective
    ensures AfterWindow(st, hc, s, conns) == NextOutcome(AdjustPool(st, hc.totalCount, s, conns), [], [])
  {
  }

  // ---------------------------------------------------------------------------
  // Reading weights, connect outcomes
  // ---------------------------------------------------------------------------

  /**
   * `getWeight(address)`: 0 without a live connection; 100 with degrading
   * off; otherwise the stored weight, a missing or 0 entry reading as 100,
   * and 100 again once the connection has been idle for a whole window.
   */
  function WeightOf(st: GroupState, s: Settings, conns: map<string, Connection>, address: Address, now: int): (r: real)
    ensures Live(conns, address.host).None? ==> r == 0.0
    ensures Live(conns, address.host).Some? && !DegradeEnable(st, s) ==> r == DefaultWeight
  {
    var conn := Live(conns, address.host);
    if conn.None? then 0.0
    else if !DegradeEnable(st, s) then DefaultWeight
    else
      var stored := if address.host in st.weights && st.weights[address.host] != 0.0 then st.weights[address.host] else DefaultWeight;
      if stored < DefaultWeight && now - conn.value.lastInvokeTime >= s.maxIdleWindow then DefaultWeight
      else stored
  }

  /** `getWeight` as the balancer reads it: `WeightOf` for every address, at time `now`. */
  function GroupWeight(st: GroupState, s: Settings, conns: map<string, Connection>, now: int): (weight: Address -> real)
    ensures forall a :: weight(a) == WeightOf(st, s, conns, a, now)
  {
    (a: Address) => WeightOf(st, s, conns, a, now)
  }

  /**
   * A live address is never weighted 0 as long as stored weights are not
   * negative; its weight is the stored one only while it is below 100 and
   * the connection was used within the idle window.
   */
  lemma WeightOfLive(st: GroupState, s: Settings, conns: map<string, Connection>, address: Address, now: int)
    requires Live(conns, address.host).Some? && DegradeEnable(st, s)
    requires forall h :: h in st.weights ==> 0.0 <= st.weights[h] <= DefaultWeight
    ensures WeightOf(st, s, conns, address, now) > 0.0
    ensures var stored := if address.host in st.weights then st.weights[address.host] else 0.0;
      WeightOf(st, s, conns, address, now) != DefaultWeight ==>
        WeightOf(st, s, conns, address, now) == stored && 0.0 < stored < DefaultWeight &&
        now - Live(conns, address.host).value.lastInvokeTime < s.maxIdleWindow
  {
  }

  /**
   * What one connect attempt leaves in the maps: success clears the host's
   * fault entry; failure isolates a host that has a weight (weight 0, fault
   * entry) and ignores one that has none.
   */
  function ConnectOutcome(weights: map<string, real>, fault: map<string, Address>, a: Address, ok: bool)
    : (r: (map<string, real>, map<string, Address>))
    ensures ok ==> r == (weights, fault - {a.host})
    ensures !ok && a.host in weights ==> r == (weights[a.host := 0.0], fault[a.host := a])
    ensures !ok && a.host !in weights ==> r == (weights, fault)
  {
    if ok then (weights, fault - {a.host})
    else if a.host in weights then (weights[a.host := 0.0], fault[a.host := a])
    else (weights, fault)
  }

  /** The outcomes of `_connectAll` applied in list order. */
  function ConnectOutcomes(weights: map<string, real>, fault: map<string, Address>, addrs: seq<Address>, ok: seq<bool>)
    : (r: (map<string, real>, map<string, Address>))
    requires |ok| == |addrs|
  {
    if addrs == [] then (weights, fault)
    else
      var prev := ConnectOutcomes(weights, fault, addrs[..|addrs| - 1], ok[..|ok| - 1]);
      ConnectOutcome(prev.0, prev.1, addrs[|addrs| - 1], ok[|ok| - 1])
  }

  /**
   * Connect outcomes never add a host to the weight map, only lower weights
   * to 0, and put in the fault map only hosts they tried.
   */
  lemma {:induction false} ConnectOutcomesSpec(weights: map<string, real>, fault: map<string, Address>,
                                              addrs: seq<Address>, ok: seq<bool>)
    requires |ok| == |addrs|
    ensures var r := ConnectOutcomes(weights, fault, addrs, ok);
      r.0.Keys == weights.Keys &&
      (forall h :: h in r.0 ==> r.0[h] == weights[h] || r.0[h] == 0.0) &&
      r.1.Keys <= fault.Keys + HostsOf(addrs)
  {
    if addrs != [] {
      var init := addrs[..|addrs| - 1];
      ConnectOutcomesSpec(weights, fault, init, ok[..|ok| - 1]);
      assert addrs == init + [addrs[|addrs| - 1]];
      HostsOfSnoc(init, addrs[|addrs| - 1]);
    }
  }

  /** When every retried address connects, the fault map loses exactly the retried hosts. */
  lemma {:induction false} ConnectOutcomesAllReady(weights: map<string, real>, fault: map<string, Address>,
                                                  addrs: seq<Address>, ok: seq<bool>)
    requires |ok| == |addrs| && forall i :: 0 <= i < |ok| ==> ok[i]
    ensures ConnectOutcomes(weights, fault, addrs, ok) == (weights, fault - HostsOf(addrs))
  {
    if addrs != [] {
      var init, a := addrs[..|addrs| - 1], addrs[|addrs| - 1];
      ConnectOutcomesAllReady(weights, fault, init, ok[..|ok| - 1]);
      assert addrs == init + [a];
      HostsOfSnoc(init, a);
      assert (fault - HostsOf(init)) - {a.host} == fault - HostsOf(addrs);
    } else {
      assert fault - HostsOf(addrs) == fault;
    }
  }

  // ---------------------------------------------------------------------------
  // The group
  // ---------------------------------------------------------------------------

  /** The loop of the `addressList` setter that rebuilds both maps for the active list. */
  method RebuildMaps(active: seq<Address>, weights: map<string, real>, fault: map<string, Address>)
    returns (newWeights: map<string, real>, newFaults: map<string, Address>)
    ensures newWeights == KeepWeights(active, weights)
    ensures newFaults == KeepFaults(active, fault)
  {
    newWeights, newFaults := map[], map[];
    for i := 0 to |active|
      invariant newWeights == KeepWeights(active[..i], weights)
      invariant newFaults == KeepFaults(active[..i], fault)
    {
      var a := active[i];
      assert active[..i + 1][..i] == active[..i];
      newWeights := newWeights[a.host := if a.host in weights then weights[a.host] else DefaultWeight];
      if a.host in fault {
        newFaults := newFaults[a.host := a];
      }
    }
    assert active[..|active|] == active;
  }

  class AddressGroup {
    /** the service key, `${serviceId}:${version}@${group}@${zone}` */
    const key: string
    const settings: Settings
    const connectionManager: ConnectionManager
    var allAddressList: seq<Address>
    var addressList: seq<Address>
    var faultAddressMap: map<string, Address>
    var weightMap: map<string, real>
    var maxIsolatedNum: int
    /** `_degradeEnable`, the avalanche guard's switch */
    var degradeFlag: bool
    var connectionPoolSize: nat
    var closed: bool

    ghost predicate Valid()
    {
      settings.pool.capacityPerConnection > 0
    }

    function State(): GroupState
      reads this
    {
      GroupState(allAddressList, addressList, faultAddressMap, weightMap, maxIsolatedNum, degradeFlag, connectionPoolSize)
    }

    /** A new group: no addresses yet, the guard off, the pool at its initial size. */
    constructor(key: string, settings: Settings, connectionManager: ConnectionManager)
      requires key != "" && settings.pool.capacityPerConnection > 0
      ensures Valid() && !closed
      ensures this.key == key && this.settings == settings && this.connectionManager == connectionManager
      ensures State() == GroupState([], [], map[], map[], 0, false, settings.pool.initConnectionSize)
    {
      this.key := key;
      this.settings := settings;
      this.connectionManager := connectionManager;
      allAddressList := [];
      addressList := [];
      faultAddressMap := map[];
      weightMap := map[];
      maxIsolatedNum := 0;
      degradeFlag := false;
      connectionPoolSize := settings.pool.initConnectionSize;
      closed := false;
    }

    /** `checkHealthy(address)` */
    function CheckHealthy(address: Address): (r: int)
      reads this, connectionManager
      ensures r == Health(View(faultAddressMap, weightMap, connectionManager.connections.Keys), address.host)
    {
      Health(View(faultAddressMap, weightMap, connectionManager.connections.Keys), address.host)
    }

    /** The `addressList` setter: the active list is chosen and both maps rebuilt for it. */
    method SetAddressList(val: seq<Address>)
      modifies this
      ensures State() == AssignList(old(State()), val, settings, connectionManager.connections)
      ensures closed == old(closed)
    {
      ghost var st0 := State();
      var active := ChooseActive(val, connectionPoolSize, settings.pool,
        View(faultAddressMap, weightMap, connectionManager.connections.Keys), HostsOf(allAddressList));
      var newWeights, newFaults := RebuildMaps(active, weightMap, faultAddressMap);
      var isolated := Ceil(settings.ft.maxIsolatedPercentage * |active| as real);
      assert AssignList(st0, val, settings, connectionManager.connections) ==
        GroupState(val, active, newFaults, newWeights, isolated, true, connectionPoolSize);
      allAddressList := val;
      addressList := active;
      maxIsolatedNum := isolated;
      weightMap := newWeights;
      faultAddressMap := newFaults;
      degradeFlag := true;
    }

    /** `refresh()` */
    method Refresh() returns (reassigned: bool)
      modifies this
      ensures State() == Refreshed(old(State()), settings, connectionManager.connections)
      ensures reassigned == RefreshReassigns(old(State()))
      ensures closed == old(closed)
    {
      reassigned := |allAddressList| > |addressList|;
      if reassigned {
        SetAddressList(allAddressList);
      }
    }

    /** The `connectionPoolSize` setter. */
    method SetConnectionPoolSize(val: nat) returns (reassigned: bool)
      modifies this
      ensures State() == SetPoolSize(old(State()), val, settings, connectionManager.connections)
      ensures reassigned == PoolSizeReassigns(old(State()), val)
      ensures closed == old(closed)
    {
      reassigned := false;
      if val != connectionPoolSize {
        connectionPoolSize := val;
        reassigned := Refresh();
      }
    }

    /** The balancer's `adjustConnectionPoolSize(totalRequestCount)`. */
    method AdjustConnectionPoolSize(total: nat) returns (reassigned: bool)
      requires Valid()
      modifies this
      ensures State() == AdjustPool(old(State()), total, settings, connectionManager.connections)
      ensures reassigned == AdjustReassigns(old(State()), total, settings)
      ensures closed == old(closed)
    {
      reassigned := false;
      if NeedElastic(settings.pool, |allAddressList|) {
        reassigned := SetConnectionPoolSize(PoolSizeFor(total, settings.pool));
      }
    }

    /** `degradeEnable` */
    predicate DegradeEnabled()
      reads this
    {
      DegradeEnable(State(), settings)
    }

    /** The body of that loop for one address `a`. */
    method RegulateOne(a: Address, w: Window, degradeCount: nat, resets: seq<string>, heartbeats: seq<string>)
      returns (degradeCount': nat, resets': seq<string>, heartbeats': seq<string>)
      requires w.conns == connectionManager.connections
      modifies this
      ensures PassState(weightMap, faultAddressMap, degradeCount', resets', heartbeats') ==
        PassStep(PassState(old(weightMap), old(faultAddressMap), degradeCount, resets, heartbeats), a, w)
      ensures State() == old(State()).(weights := weightMap, fault := faultAddressMap)
      ensures closed == old(closed)
    {
      degradeCount', resets', heartbeats' := degradeCount, resets, heartbeats;
      var preWeight := if a.host in weightMap then weightMap[a.host] else DefaultWeight;
      var weight := preWeight;
      var conn := connectionManager.Get(a);
      if conn.None? {
        weight := 0.0;
        faultAddressMap := faultAddressMap[a.host := a];
      } else {
        var reg := RegulateWeight(preWeight, conn.value.latestHealthCount, w.degrade, w.avgErr, w.avgRT, w.ft);
        weight := reg.weight;
        if reg.resetCounter {
          resets' := resets' + [a.host];
        }
        heartbeats' := heartbeats' + [a.host];
      }
      if weight < DefaultWeight {
        degradeCount' := degradeCount' + 1;
      }
      weightMap := weightMap[a.host := weight];
    }

    /**
     * The loop of `_onNext` over the active addresses: every address is
     * regulated in list order, with the degrade switch and the group
     * averages of window `hc`. Only the two maps change.
     */
    method RegulateActive(hc: HealthCounts) returns (degradeCount: nat, resets: seq<string>, heartbeats: seq<string>)
      modifies this
      ensures PassState(weightMap, faultAddressMap, degradeCount, resets, heartbeats) ==
        RegulationPass(old(State()), hc, settings, connectionManager.connections)
      ensures State() == old(State()).(weights := weightMap, fault := faultAddressMap)
      ensures closed == old(closed)
    {
      ghost var st1 := State();
      var w := Window(connectionManager.connections, DegradeEnabled(), ErrorRate(hc), AvgRT(hc), settings.ft);
      ghost var p0 := PassState(weightMap, faultAddressMap, 0, [], []);
      assert w == Window(connectionManager.connections, DegradeEnable(st1, settings), ErrorRate(hc), AvgRT(hc), settings.ft);
      assert RegulationPass(st1, hc, settings, connectionManager.connections) == Pass(st1.active, p0, w);
      var active := addressList;
      degradeCount := 0;
      resets, heartbeats := [], [];
      for i := 0 to |active|
        invariant State() == st1.(weights := weightMap, fault := faultAddressMap) && closed == old(closed)
        invariant PassState(weightMap, faultAddressMap, degradeCount, resets, heartbeats) == Pass(active[..i], p0, w)
      {
        PassSnoc(active, i, p0, w);
        degradeCount, resets, heartbeats := RegulateOne(active[i], w, degradeCount, resets, heartbeats);
      }
      assert active[..|active|] == active;
    }

    /**
     * `_onNext(hc)`, the handler of the group's window snapshot. Returns the
     * hosts whose connection counter is reset and those sent a heartbeat.
     */
    method OnNext(hc: HealthCounts) returns (resets: seq<string>, heartbeats: seq<string>, reassigned: bool)
      requires Valid()
      modifies this
      ensures NextOutcome(State(), resets, heartbeats) == AfterWindow(old(State()), hc, settings, connectionManager.connections)
      ensures reassigned == WindowReassigns(old(State()), hc, settings, connectionManager.connections)
      ensures closed == old(closed)
    {
      ghost var st0 := State();
      ghost var conns := connectionManager.connections;
      reassigned := AdjustConnectionPoolSize(hc.totalCount);
      ghost var st1 := State();
      if !settings.ft.regulationEffective {
        return [], [], reassigned;
      }
      var degradeCount;
      degradeCount, resets, heartbeats := RegulateActive(hc);
      ghost var p := RegulationPass(st1, hc, settings, conns);
      assert State() == st1.(weights := p.weights, fault := p.fault);
      AfterWindowRegulated(st0, hc, settings, conns, st1, p);
      if degradeCount <= maxIsolatedNum {
        degradeFlag := true;
      } else {
        degradeFlag := false;
        var refreshed := Refresh();
        reassigned := reassigned || refreshed;
      }
    }

    /**
     * `getWeight(address)`; an address without a live connection is also
     * recorded as faulty. `now` is the clock.
     */
    method GetWeight(address: Address, now: int) returns (weight: real)
      modifies this
      ensures weight == WeightOf(old(State()), settings, connectionManager.connections, address, now)
      ensures State() == old(State()).(fault :=
        if Live(connectionManager.connections, address.host).None? then old(faultAddressMap)[address.host := address]
        else old(faultAddressMap))
      ensures closed == old(closed)
    {
      var conn := connectionManager.Get(address);
      if conn.None? {
        faultAddressMap := faultAddressMap[address.host := address];
        return 0.0;
      }
      if !DegradeEnabled() {
        return DefaultWeight;
      }
      weight := if address.host in weightMap && weightMap[address.host] != 0.0 then weightMap[address.host] else DefaultWeight;
      if weight < DefaultWeight && now - conn.value.lastInvokeTime >= settings.maxIdleWindow {
        weight := DefaultWeight;
      }
    }

    /**
     * `_connectAll(list)`: one connect attempt per address, in list order;
     * `ready[i]` is whether a new connection to `addrs[i]` becomes ready.
     * Returns which attempts gave a connection.
     */
    method ConnectAll(addrs: seq<Address>, ready: seq<bool>, now: int) returns (connected: seq<bool>)
      requires |ready| == |addrs|
      modifies this, connectionManager
      ensures |connected| == |addrs|
      ensures forall i :: 0 <= i < |addrs| && ready[i] ==> connected[i]
      ensures (connected, connectionManager.connections) == ConnectEach(old(connectionManager.connections), addrs, ready, now)
      ensures (weightMap, faultAddressMap) == ConnectOutcomes(old(weightMap), old(faultAddressMap), addrs, connected)
      ensures State() == old(State()).(weights := weightMap, fault := faultAddressMap)
      ensures closed == old(closed)
    {
      connected := [];
      assert addrs[0..] == addrs && ready[0..] == ready;
      assert [] + ConnectEach(connectionManager.connections, addrs, ready, now).0
          == ConnectEach(connectionManager.connections, addrs, ready, now).0;
      for i := 0 to |addrs|
        invariant |connected| == i
        invariant var r := ConnectEach(connectionManager.connections, addrs[i..], ready[i..], now);
          (connected + r.0, r.1) == ConnectEach(old(connectionManager.connections), addrs, ready, now)
        invariant (weightMap, faultAddressMap) == ConnectOutcomes(old(weightMap), old(faultAddressMap), addrs[..i], connected)
        invariant State() == old(State()).(weights := weightMap, fault := faultAddressMap)
        invariant closed == old(closed)
      {
        ConnectEachStep(old(connectionManager.connections), addrs, ready, now, i, connectionManager.connections, connected);
        var ok := ConnectOne(addrs[i], ready[i], now);
        assert addrs[..i + 1][..i] == addrs[..i];
        connected := connected + [ok];
        assert connected[..i] == connected[..|connected| - 1];
      }
      assert addrs[..|addrs|] == addrs;
      assert addrs[|addrs|..] == [] && ready[|addrs|..] == [];
      assert connected + [] == connected;
      ConnectEachLive(old(connectionManager.connections), addrs, ready, now);
    }

    /** The body of that loop for one address `a`: whether it got a connection. */
    method ConnectOne(a: Address, ready: bool, now: int) returns (ok: bool)
      modifies this, connectionManager
      ensures ready ==> ok
      ensures ok <==> Obtains(old(connectionManager.connections), a.host, ready)
      ensures connectionManager.connections == AfterCreateAndGet(old(connectionManager.connections), a, ready, now)
      ensures (weightMap, faultAddressMap) == ConnectOutcome(old(weightMap), old(faultAddressMap), a, ok)
      ensures State() == old(State()).(weights := weightMap, fault := faultAddressMap)
      ensures closed == old(closed)
    {
      var conn := connectionManager.CreateAndGet(a, ready, now);
      ok := conn.Some?;
      if ok {
        faultAddressMap := faultAddressMap - {a.host};
      } else if a.host in weightMap {
        weightMap := weightMap[a.host := 0.0];
        faultAddressMap := faultAddressMap[a.host := a];
      }
    }

    /**
     * One round of `_retryFaultAddresses`: the fault addresses (`pending`,
     * in the map's order) are reconnected, and while faults remain the list
     * is refreshed.
     */
    method RetryFaultAddresses(pending: seq<Address>, ready: seq<bool>, now: int) returns (connected: seq<bool>, reassigned: bool)
      requires |ready| == |pending|
      requires HostsOf(pending) == faultAddressMap.Keys
      requires forall a :: a in pending ==> faultAddressMap[a.host] == a
      modifies this, connectionManager
      ensures old(faultAddressMap) == map[] ==> connected == [] && State() == old(State())
      ensures old(faultAddressMap) != map[] ==>
        |connected| == |pending| &&
        var outcome := ConnectOutcomes(old(weightMap), old(faultAddressMap), pending, connected);
        var st := old(State()).(weights := outcome.0, fault := outcome.1);
        State() == (if outcome.1 == map[] then st else Refreshed(st, settings, connectionManager.connections)) &&
        reassigned == (outcome.1 != map[] && RefreshReassigns(old(State())))
      ensures old(faultAddressMap) == map[] ==> connectionManager.connections == old(connectionManager.connections)
      ensures old(faultAddressMap) != map[] ==>
        (connected, connectionManager.connections) == ConnectEach(old(connectionManager.connections), pending, ready, now)
      ensures closed == old(closed)
    {
      connected := [];
      reassigned := false;
      if faultAddressMap != map[] {
        connected := ConnectAll(pending, ready, now);
      }
      if faultAddressMap != map[] {
        reassigned := Refresh();
      }
    }

    /** `close()`: both maps and lists emptied, the group closed. */
    method Close()
      modifies this
      ensures weightMap == map[] && faultAddressMap == map[]
      ensures allAddressList == [] && addressList == []
      ensures closed
      ensures maxIsolatedNum == old(maxIsolatedNum) && degradeFlag == old(degradeFlag)
      ensures connectionPoolSize == old(connectionPoolSize)
    {
      weightMap := map[];
      faultAddressMap := map[];
      allAddressList := [];
      addressList := [];
      closed := true;
    }
  }
}
