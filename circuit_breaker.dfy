/**
 * The per-key circuit breaker: CLOSED lets every call through; a window
 * with enough calls and a high enough error rate opens it (recording when);
 * once the sleep window has passed, one trial call is let through
 * (HALF_OPEN), whose outcome closes or re-opens the breaker.
 */
module Breakers {
  import opened Common
  import opened Config
  import opened Metrics
  import opened Scheduling
  import opened Counters

  datatype Status = Closed | Open | HalfOpen

  /** The breaker's state: its status and `_circuitOpened`, -1 when not open. */
  datatype BreakerState = BreakerState(status: Status, openedAt: int)

  /** A new breaker. */
  function InitialState(): (s: BreakerState)
    ensures s.status == Closed && s.openedAt == -1
  {
    BreakerState(Closed, -1)
  }

  /** Exactly a closed breaker has no opening time; times are never negative. */
  predicate Consistent(s: BreakerState)
  {
    (s.status == Closed <==> s.openedAt == -1) && s.openedAt >= -1
  }

  /**
   * The handler of each window snapshot: a closed breaker opens, stamped
   * `now`, when the window holds at least `requestVolumeThreshold` calls and
   * its error rate reaches `errorThresholdPercentage`; nothing else changes.
   */
  function OnSnapshot(s: BreakerState, hc: HealthCounts, now: nat, cfg: BreakerConfig): (r: BreakerState)
    ensures s.status != Closed ==> r == s
    ensures s.status == Closed ==>
      if hc.totalCount >= cfg.requestVolumeThreshold && ErrorRate(hc) >= cfg.errorThresholdPercentage
      then r == BreakerState(Open, now)
      else r == s
  {
    if hc.totalCount < cfg.requestVolumeThreshold then s
    else if ErrorRate(hc) < cfg.errorThresholdPercentage then s
    else if s.status == Closed then BreakerState(Open, now)
    else s
  }

  /** `isOpen`: the overrides first, then whether an opening time is recorded. */
  function IsOpen(s: BreakerState, cfg: BreakerConfig): (r: bool)
    ensures cfg.forceOpen ==> r
    ensures !cfg.forceOpen && cfg.forceClosed ==> !r
    ensures !cfg.forceOpen && !cfg.forceClosed ==> (r <==> s.openedAt >= 0)
  {
    if cfg.forceOpen then true
    else if cfg.forceClosed then false
    else s.openedAt >= 0
  }

  /** `isAfterSleepWindow`: strictly more than the sleep window since opening. */
  function IsAfterSleepWindow(s: BreakerState, now: int, cfg: BreakerConfig): (r: bool)
    ensures r <==> now - s.openedAt > cfg.sleepWindowInMilliseconds
  {
    now > s.openedAt + cfg.sleepWindowInMilliseconds
  }

  /**
   * `allowRequest()`: whether a call may go out, and the state afterwards.
   * Only an open breaker past its sleep window changes, to HALF_OPEN.
   */
  function AllowRequest(s: BreakerState, now: int, cfg: BreakerConfig): (r: (bool, BreakerState))
    ensures cfg.forceOpen ==> r == (false, s)
    ensures !cfg.forceOpen && cfg.forceClosed ==> r == (true, s)
    ensures !cfg.forceOpen && !cfg.forceClosed && s.openedAt == -1 ==> r == (true, s)
    ensures !cfg.forceOpen && !cfg.forceClosed && s.openedAt != -1 && s.status == HalfOpen ==> r == (false, s)
    ensures !cfg.forceOpen && !cfg.forceClosed && s.openedAt != -1 && s.status != HalfOpen ==>
      r == if IsAfterSleepWindow(s, now, cfg) then (true, s.(status := HalfOpen)) else (false, s)
  {
    if cfg.forceOpen then (false, s)
    else if cfg.forceClosed then (true, s)
    else if s.openedAt == -1 then (true, s)
    else if s.status == HalfOpen then (false, s)
    else if IsAfterSleepWindow(s, now, cfg) then (true, s.(status := HalfOpen))
    else (false, s)
  }

  /** `markSuccess()`: a successful trial call closes the breaker. */
  function MarkSuccess(s: BreakerState): (r: BreakerState)
    ensures s.status == HalfOpen ==> r == BreakerState(Closed, -1)
    ensures s.status != HalfOpen ==> r == s
  {
    if s.status == HalfOpen then BreakerState(Closed, -1) else s
  }

  /** `markNonSuccess()`: a failed trial call re-opens the breaker, stamped `now`. */
  function MarkNonSuccess(s: BreakerState, now: nat): (r: BreakerState)
    ensures s.status == HalfOpen ==> r == BreakerState(Open, now)
    ensures s.status != HalfOpen ==> r == s
  {
    if s.status == HalfOpen then BreakerState(Open, now) else s
  }

  /** `update(rpcContext)`: result code '00' counts as a success, any other as a failure. */
  function Update(s: BreakerState, code: string, now: nat): (r: BreakerState)
    ensures s.status == HalfOpen && code == "00" ==> r == BreakerState(Closed, -1)
    ensures s.status == HalfOpen && code != "00" ==> r == BreakerState(Open, now)
    ensures s.status != HalfOpen ==> r == s
  {
    if code == "00" then MarkSuccess(s) else MarkNonSuccess(s, now)
  }

  /** Every transition keeps the state consistent. */
  lemma TransitionsKeepConsistent(s: BreakerState, hc: HealthCounts, code: string, now: nat, cfg: BreakerConfig)
    requires Consistent(s)
    ensures Consistent(InitialState())
    ensures Consistent(OnSnapshot(s, hc, now, cfg))
    ensures Consistent(AllowRequest(s, now, cfg).1)
    ensures Consistent(Update(s, code, now))
  {
  }

  /** Without overrides, a consistent breaker is open exactly when it is not CLOSED. */
  lemma OpenIffNotClosed(s: BreakerState, cfg: BreakerConfig)
    requires Consistent(s) && !cfg.forceOpen && !cfg.forceClosed
    ensures IsOpen(s, cfg) <==> s.status != Closed
  {
  }

  /**
   * After the sleep window exactly one trial call goes out: the first
   * `allowRequest` says yes and moves to HALF_OPEN, the next says no.
   */
  lemma SingleTrialCall(s: BreakerState, now: int, later: int, cfg: BreakerConfig)
    requires Consistent(s) && !cfg.forceOpen && !cfg.forceClosed
    requires s.status == Open && IsAfterSleepWindow(s, now, cfg)
    ensures AllowRequest(s, now, cfg).0
    ensures AllowRequest(s, now, cfg).1.status == HalfOpen
    ensures !AllowRequest(AllowRequest(s, now, cfg).1, later, cfg).0
  {
  }

  /** A breaker that has opened refuses calls until its sleep window has passed. */
  lemma OpenRefusesDuringSleepWindow(s: BreakerState, now: int, cfg: BreakerConfig)
    requires Consistent(s) && !cfg.forceOpen && !cfg.forceClosed
    requires s.status != Closed && now <= s.openedAt + cfg.sleepWindowInMilliseconds
    ensures !AllowRequest(s, now, cfg).0
  {
  }

  class CircuitBreaker {
    const key: string
    const config: BreakerConfig
    /** the health counter of the same key */
    const counter: HealthCounter
    var state: BreakerState
    /** `latestHealthCount`: the last snapshot seen */
    var latest: Option<HealthCounts>

    ghost predicate Valid()
      reads this, counter
    {
      Consistent(state) && counter.Valid()
    }

    constructor(key: string, config: BreakerConfig, counter: HealthCounter)
      requires counter.Valid()
      ensures Valid()
      ensures this.key == key && this.config == config && this.counter == counter
      ensures state == InitialState() && latest == None
    {
      this.key := key;
      this.config := config;
      this.counter := counter;
      state := InitialState();
      latest := None;
    }

    /** The handler of the counter's 'next' event. */
    method HandleSnapshot(hc: HealthCounts, now: nat)
      requires Valid()
      modifies this
      ensures Valid()
      ensures state == OnSnapshot(old(state), hc, now, config) && latest == Some(hc)
    {
      latest := Some(hc);
      if hc.totalCount < config.requestVolumeThreshold {
      } else if ErrorRate(hc) < config.errorThresholdPercentage {
      } else if state.status == Closed {
        state := BreakerState(Open, now);
      }
    }

    method Allow(now: nat) returns (allowed: bool)
      requires Valid()
      modifies this
      ensures Valid()
      ensures (allowed, state) == AllowRequest(old(state), now, config)
      ensures latest == old(latest)
    {
      if config.forceOpen {
        return false;
      }
      if config.forceClosed {
        return true;
      }
      if state.openedAt == -1 {
        return true;
      }
      if state.status == HalfOpen {
        return false;
      }
      if now > state.openedAt + config.sleepWindowInMilliseconds {
        state := state.(status := HalfOpen);
        return true;
      }
      return false;
    }

    /** `reset()`: empties the counter's window; status and last snapshot stay. */
    method Reset()
      requires Valid()
      modifies counter
      ensures Valid()
      ensures counter.buckets == EmptyBuckets(counter.numBuckets) && counter.latestValue == None
      ensures counter.isClosed == old(counter.isClosed)
    {
      counter.Reset();
    }

    /**
     * `update(rpcContext)`: records the call in the counter, then a
     * success closes and a failure re-opens a HALF_OPEN breaker. Closing also
     * resets the counter.
     */
    method RecordCall(code: string, rt: Option<nat>, now: nat)
      requires Valid()
      modifies this, counter
      ensures Valid()
      ensures state == Update(old(state), code, now)
      ensures old(state).status == HalfOpen && code == "00" ==>
        counter.buckets == EmptyBuckets(counter.numBuckets) && counter.latestValue == None
      ensures !(old(state).status == HalfOpen && code == "00") && !old(counter.isClosed) ==>
        counter.buckets == old(counter.buckets)[counter.numBuckets - 1 :=
          Record(old(counter.buckets)[counter.numBuckets - 1], code, rt)]
    {
      counter.Update(code, rt);
      if code == "00" {
        if state.status == HalfOpen {
          counter.Reset();
          state := BreakerState(Closed, -1);
        }
      } else if state.status == HalfOpen {
        state := BreakerState(Open, now);
      }
    }
  }

  /** The module-level cache of breakers, one per key, each on the counter of its key. */
  class BreakerRegistry {
    var cache: map<string, CircuitBreaker>
    const config: BreakerConfig
    const counters: CounterRegistry

    ghost predicate Valid()
      reads this, cache.Values, set k | k in cache :: cache[k].counter
    {
      forall k :: k in cache ==>
        cache[k].key == k && cache[k].Valid() &&
        cache[k].counter.key == k && cache[k].counter.scheduler == counters.scheduler
    }

    constructor(config: BreakerConfig, counters: CounterRegistry)
      ensures Valid() && cache == map[]
      ensures this.config == config && this.counters == counters
    {
      this.config := config;
      this.counters := counters;
      cache := map[];
    }

    /**
     * `getInstance(key)`: the cached breaker for `key`, or a new CLOSED one
     * on the key's health counter. An empty key is refused.
     */
    method GetInstance(key: string) returns (r: Result<CircuitBreaker>)
      requires Valid() && counters.Valid() && counters.scheduler.Valid()
      modifies this, counters, counters.scheduler
      ensures Valid() && counters.Valid() && counters.scheduler.Valid()
      ensures key == "" ==> r.Err? && cache == old(cache)
      ensures key != "" && key in old(cache) ==> r == Ok(old(cache)[key]) && cache == old(cache)
      ensures key != "" && key !in old(cache) ==>
        r.Ok? && fresh(r.value) && cache == old(cache)[key := r.value] &&
        r.value.state == InitialState()
    {
      if key == "" {
        return Err("[CircuitBreaker] key is required");
      }
      if key in cache {
        return Ok(cache[key]);
      }
      var c := counters.GetInstance(key, true);
      assert key in counters.cache && counters.cache[key] == c.value;
      var b := new CircuitBreaker(key, config, c.value);
      cache := cache[key := b];
      r := Ok(b);
    }

    /**
     * `close()` on a cached breaker closes the breaker's own counter and
     * evicts the breaker. The counter's one-shot 'close' listener evicts the
     * counter's key from the counter cache; it is still armed exactly when
     * that counter is the one cached there.
     */
    method Close(key: string)
      requires Valid() && counters.Valid() && counters.scheduler.Valid()
      modifies this, counters, counters.scheduler
      modifies if key in cache then {cache[key].counter} else {}
      ensures Valid() && counters.Valid() && counters.scheduler.Valid()
      ensures cache == old(cache) - {key}
      ensures key in old(cache) ==> old(cache)[key].counter.isClosed && old(cache)[key].counter.buckets == []
      ensures key in old(cache) && key in old(counters.cache) && old(counters.cache)[key] == old(cache)[key].counter ==>
        counters.cache == old(counters.cache) - {key}
      ensures !(key in old(cache) && key in old(counters.cache) && old(counters.cache)[key] == old(cache)[key].counter) ==>
        counters.cache == old(counters.cache)
    {
      if key in cache {
        var c := cache[key].counter;
        label Before:
        counters.CloseCounter(c);
        cache := cache - {key};
        forall k | k in cache
          ensures cache[k].key == k && cache[k].Valid()
        {
          var b := cache[k];
          assert old@Before(b.Valid());
          if b.counter != c {
            assert unchanged@Before(b.counter);
          }
        }
      }
    }
  }
}
