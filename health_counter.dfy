/**
 * The sliding-window health counter: a fixed number of buckets, the newest
 * last. Calls are recorded in the newest bucket; on every tick of the
 * scheduler the whole window is folded into a `HealthCounts` snapshot, the
 * oldest bucket is dropped and a fresh one appended. The rolling-counter
 * base and the health-counter specialisation form one class here.
 */
module Counters {
  import opened Common
  import opened Config
  import opened Metrics
  import opened Scheduling

  /** `n` empty buckets. */
  function EmptyBuckets(n: nat): (r: seq<Bucket>)
    ensures |r| == n
  {
    if n == 0 then [] else EmptyBuckets(n - 1) + [EmptyBucket()]
  }

  /** A window of empty buckets folds to the empty snapshot. */
  lemma {:induction false} ReduceEmptyBuckets(n: nat)
    ensures Reduce(EmptyBuckets(n)) == Empty()
  {
    if n > 0 {
      var init := EmptyBuckets(n - 1);
      ReduceEmptyBuckets(n - 1);
      assert EmptyBuckets(n) == init + [EmptyBucket()];
      ReduceSnoc(init, EmptyBucket());
      assert Reduce(EmptyBuckets(n)) == Plus(Empty(), EmptyBucket());
    }
  }

  /** The window after one tick: oldest bucket out, an empty one in. */
  function Rotate(b: seq<Bucket>): (r: seq<Bucket>)
    requires |b| > 0
    ensures |r| == |b|
    ensures r[..|b| - 1] == b[1..] && r[|b| - 1] == EmptyBucket()
  {
    b[1..] + [EmptyBucket()]
  }

  /** The window after `k` ticks with no calls recorded in between. */
  function RotateN(b: seq<Bucket>, k: nat): (r: seq<Bucket>)
    requires |b| > 0
    ensures |r| == |b|
    decreases k
  {
    if k == 0 then b else RotateN(Rotate(b), k - 1)
  }

  /** After `k` ticks the first `k` buckets are gone and `k` empty ones follow the rest. */
  lemma {:induction false} RotateNShape(b: seq<Bucket>, k: nat)
    requires 0 < |b| && k <= |b|
    ensures RotateN(b, k) == b[k..] + EmptyBuckets(k)
    decreases k
  {
    if k > 0 {
      RotateNShape(Rotate(b), k - 1);
      assert Rotate(b)[k - 1..] == b[k..] + [EmptyBucket()];
      assert EmptyBuckets(k) == [EmptyBucket()] + EmptyBuckets(k - 1) by {
        EmptyBucketsCons(k);
      }
    }
  }

  lemma {:induction false} EmptyBucketsCons(k: nat)
    requires k > 0
    ensures EmptyBuckets(k) == [EmptyBucket()] + EmptyBuckets(k - 1)
  {
    if k > 1 {
      EmptyBucketsCons(k - 1);
    }
  }

  /** Once every bucket has been rotated out, the window holds nothing. */
  lemma {:induction false} RotateNForgets(b: seq<Bucket>, k: nat)
    requires 0 < |b| <= k
    ensures RotateN(b, k) == EmptyBuckets(|b|)
    decreases k
  {
    if k == |b| {
      RotateNShape(b, k);
      assert b[k..] == [];
    } else {
      RotateNForgets(b, k - 1);
      assert RotateN(b, k) == RotateN(RotateN(b, k - 1), 1) by { RotateNSplit(b, k - 1); }
      EmptyBucketsCons(|b|);
      assert Rotate(EmptyBuckets(|b|)) == EmptyBuckets(|b|);
    }
  }

  lemma {:induction false} RotateNSplit(b: seq<Bucket>, k: nat)
    requires |b| > 0
    ensures RotateN(b, k + 1) == RotateN(RotateN(b, k), 1)
    decreases k
  {
    if k > 0 {
      RotateNSplit(Rotate(b), k - 1);
    }
  }

  /**
   * The calls recorded in the newest bucket show up in exactly the next
   * `|b|` snapshots (ticks 0 .. |b|-1 after the recording) and in none after.
   */
  lemma {:induction false} LatestBucketLifetime(b: seq<Bucket>, k: nat)
    requires |b| > 0
    ensures k < |b| ==>
      Reduce(RotateN(b, k)) == Plus(Reduce(b[k..|b| - 1]), b[|b| - 1])
    ensures k >= |b| ==> Reduce(RotateN(b, k)) == Empty()
  {
    if k < |b| {
      RotateNShape(b, k);
      ReduceConcat(b[k..], EmptyBuckets(k));
      ReduceEmptyBuckets(k);
      var tail := b[k..];
      assert tail[..|tail| - 1] == b[k..|b| - 1];
      assert Reduce(tail) == Plus(Reduce(b[k..|b| - 1]), b[|b| - 1]);
    } else {
      RotateNForgets(b, k);
      ReduceEmptyBuckets(|b|);
    }
  }

  class HealthCounter {
    const key: string
    const numBuckets: nat
    const bucketSizeInMs: nat
    const scheduler: Scheduler
    /** the callback number of this counter's tick in the scheduler */
    const tickId: nat
    var buckets: seq<Bucket>
    var latestValue: Option<HealthCounts>
    var isClosed: bool

    ghost predicate Valid()
      reads this
    {
      numBuckets > 0 &&
      (|buckets| == numBuckets || (isClosed && buckets == []))
    }

    /**
     * A counter for `key` with an empty window, its tick registered with the
     * scheduler every `bucketSizeInMs`, in front of the period's other
     * callbacks when `prepend`.
     */
    constructor(key: string, prepend: bool, metric: MetricConfig, scheduler: Scheduler)
      requires key != ""
      requires metric.numBuckets > 0
      requires scheduler.Valid()
      modifies scheduler
      ensures Valid() && !isClosed
      ensures this.key == key && this.scheduler == scheduler
      ensures numBuckets == metric.numBuckets && bucketSizeInMs == metric.bucketSizeInMs
      ensures buckets == EmptyBuckets(numBuckets) && latestValue == None
      ensures scheduler.Valid()
      ensures scheduler.Fire(metric.bucketSizeInMs) ==
        if prepend then [tickId] + old(scheduler.Fire(metric.bucketSizeInMs))
        else old(scheduler.Fire(metric.bucketSizeInMs)) + [tickId]
    {
      this.key := key;
      this.numBuckets := metric.numBuckets;
      this.bucketSizeInMs := metric.bucketSizeInMs;
      this.scheduler := scheduler;
      var id := scheduler.Interval(metric.bucketSizeInMs, prepend);
      this.tickId := id;
      var b: seq<Bucket> := [];
      for i := 0 to metric.numBuckets
        invariant b == EmptyBuckets(i)
      {
        b := b + [EmptyBucket()];
      }
      buckets := b;
      latestValue := None;
      isClosed := false;
    }

    /** `lastestBucket`: the bucket calls are recorded in. */
    function Latest(): (b: Bucket)
      reads this
      requires Valid() && !isClosed
      ensures b == buckets[numBuckets - 1] && b == buckets[|buckets| - 1]
    {
      buckets[numBuckets - 1]
    }

    /** `reset()`: a window of `numBuckets` empty buckets, and no snapshot yet. */
    method Reset()
      requires Valid()
      modifies this
      ensures Valid()
      ensures buckets == EmptyBuckets(numBuckets) && latestValue == None
      ensures isClosed == old(isClosed)
    {
      latestValue := None;
      var b: seq<Bucket> := [];
      for i := 0 to numBuckets
        invariant b == EmptyBuckets(i)
      {
        b := b + [EmptyBucket()];
      }
      buckets := b;
    }

    /**
     * `update(rpcContext)`: counts one call with its result code and
     * response time in the newest bucket; a closed counter ignores it.
     */
    method Update(code: string, rt: Option<nat>)
      requires Valid()
      modifies this
      ensures Valid()
      ensures old(isClosed) ==> buckets == old(buckets)
      ensures !old(isClosed) ==>
        buckets == old(buckets)[numBuckets - 1 := Record(old(buckets)[numBuckets - 1], code, rt)]
      ensures latestValue == old(latestValue) && isClosed == old(isClosed)
    {
      if isClosed {
        return;
      }
      buckets := buckets[numBuckets - 1 := Record(buckets[numBuckets - 1], code, rt)];
    }

    /**
     * The scheduled tick: the snapshot of the whole window becomes
     * `latestValue` and is emitted; then the window rotates. Only an open
     * counter is still registered with the scheduler.
     */
    method Tick() returns (snapshot: HealthCounts)
      requires Valid() && !isClosed
      modifies this
      ensures Valid() && !isClosed
      ensures snapshot == Reduce(old(buckets))
      ensures latestValue == Some(snapshot)
      ensures buckets == Rotate(old(buckets))
    {
      snapshot := Reduce(buckets);
      latestValue := Some(snapshot);
      buckets := buckets[1..] + [EmptyBucket()];
    }

    /** `close()`: marks the counter closed, empties the window and cancels the tick. */
    method Close()
      requires Valid() && scheduler.Valid()
      modifies this, scheduler
      ensures Valid() && isClosed && buckets == []
      ensures latestValue == old(latestValue)
      ensures scheduler.Valid()
      ensures scheduler.Fire(bucketSizeInMs) == Without(old(scheduler.Fire(bucketSizeInMs)), tickId)
      ensures forall q :: q != bucketSizeInMs ==> scheduler.Fire(q) == old(scheduler.Fire(q))
    {
      isClosed := true;
      buckets := [];
      scheduler.Cancel(bucketSizeInMs, tickId);
    }
  }

  /** The module-level cache of counters, one per key. */
  class CounterRegistry {
    var cache: map<string, HealthCounter>
    const metric: MetricConfig
    const scheduler: Scheduler

    ghost predicate Valid()
      reads this, cache.Values
    {
      metric.numBuckets > 0 &&
      forall k :: k in cache ==>
        cache[k].key == k && cache[k].Valid() && !cache[k].isClosed && cache[k].scheduler == scheduler
    }

    constructor(metric: MetricConfig, scheduler: Scheduler)
      requires metric.numBuckets > 0
      ensures Valid() && cache == map[]
      ensures this.metric == metric && this.scheduler == scheduler
    {
      this.metric := metric;
      this.scheduler := scheduler;
      cache := map[];
    }

    /**
     * `getInstance(key, prepend)`: the cached counter for `key`, or a new
     * one that is cached from now on. An empty key is refused.
     */
    method GetInstance(key: string, prepend: bool) returns (r: Result<HealthCounter>)
      requires Valid() && scheduler.Valid()
      modifies this, scheduler
      ensures Valid() && scheduler.Valid()
      ensures key == "" ==> r.Err? && cache == old(cache)
      ensures key != "" && key in old(cache) ==> r == Ok(old(cache)[key]) && cache == old(cache)
      ensures key != "" && key !in old(cache) ==>
        r.Ok? && fresh(r.value) && cache == old(cache)[key := r.value] &&
        r.value.buckets == EmptyBuckets(metric.numBuckets)
      ensures r.Ok? ==> r.value.Valid() && !r.value.isClosed && r.value.key == key
    {
      if key == "" {
        return Err("[HealthCounter] key is required");
      }
      if key in cache {
        return Ok(cache[key]);
      }
      var c := new HealthCounter(key, prepend, metric, scheduler);
      cache := cache[key := c];
      r := Ok(c);
    }

    /** The window of the counter of `key`, or the empty window a new counter starts with. */
    ghost function BucketsOf(key: string): seq<Bucket>
      reads this, cache.Values
    {
      if key in cache then cache[key].buckets else EmptyBuckets(metric.numBuckets)
    }

    /** `getInstance(key).update(meta)`: the call is counted on the counter of `key`, made if missing. */
    method Count(key: string, code: string, rt: Option<nat>)
      requires key != "" && Valid() && scheduler.Valid()
      modifies this, scheduler, cache.Values
      ensures Valid() && scheduler.Valid()
      ensures cache.Keys == old(cache.Keys) + {key}
      ensures var before := old(BucketsOf(key));
        key in cache && |before| > 0 &&
        cache[key].buckets == before[|before| - 1 := Record(before[|before| - 1], code, rt)]
    {
      Ensure(key);
      UpdateCached(key, code, rt);
    }

    /** `getInstance(key)` when only the cache afterwards matters: `key` is cached with the window `BucketsOf` gave. */
    method Ensure(key: string)
      requires key != "" && Valid() && scheduler.Valid()
      modifies this, scheduler
      ensures Valid() && scheduler.Valid()
      ensures cache.Keys == old(cache.Keys) + {key}
      ensures key in cache && cache[key].buckets == old(BucketsOf(key))
      ensures key in old(cache) ==> cache[key] == old(cache)[key]
      ensures key !in old(cache) ==> fresh(cache[key])
    {
      var r := GetInstance(key, true);
    }

    /** The counter cached under `key` counts the call; nothing else changes. */
    method UpdateCached(key: string, code: string, rt: Option<nat>)
      requires Valid() && key in cache
      modifies cache[key]
      ensures Valid()
      ensures cache[key].buckets == old(cache[key].buckets)[|old(cache[key].buckets)| - 1 :=
        Record(old(cache[key].buckets)[|old(cache[key].buckets)| - 1], code, rt)]
      ensures |old(cache[key].buckets)| > 0
    {
      var c := cache[key];
      label Mid:
      c.Update(code, rt);
      forall k | k in cache
        ensures cache[k].key == k && cache[k].Valid() && !cache[k].isClosed && cache[k].scheduler == scheduler
      {
        if k != key {
          assert cache[k] != c;
          assert old@Mid(cache[k].Valid()) && !old@Mid(cache[k].isClosed);
        }
      }
    }

    /**
     * `counter.close()` on a counter of this registry: the counter is closed,
     * and its one-shot 'close' listener evicts its key, which it is still
     * armed to do exactly when the counter is the one cached under that key.
     */
    method CloseCounter(c: HealthCounter)
      requires Valid() && scheduler.Valid() && c.Valid() && c.scheduler == scheduler
      modifies this, scheduler, c
      ensures Valid() && scheduler.Valid()
      ensures c.Valid() && c.isClosed && c.buckets == []
      ensures c.key in old(cache) && old(cache)[c.key] == c ==> cache == old(cache) - {c.key}
      ensures !(c.key in old(cache) && old(cache)[c.key] == c) ==> cache == old(cache)
    {
      if c.key in cache && cache[c.key] == c {
        Close(c.key);
      } else {
        forall k | k in cache
          ensures cache[k] != c
        {
          assert cache[k].key == k;
        }
        c.Close();
      }
    }

    /** Closing a cached counter also evicts it, so the next lookup builds a new one. */
    method Close(key: string)
      requires Valid() && scheduler.Valid()
      modifies this, scheduler, if key in cache then {cache[key]} else {}
      ensures Valid() && scheduler.Valid()
      ensures cache == old(cache) - {key}
      ensures key in old(cache) ==> old(cache)[key].Valid() && old(cache)[key].isClosed && old(cache)[key].buckets == []
    {
      if key in cache {
        var c := cache[key];
        c.Close();
        cache := cache - {key};
      }
    }
  }
}
