# sofa-rpc-node routing and RPC core in Dafny

This project models the core of sofa-rpc-node, the Node.js implementation
of the SOFARPC protocol family, and proves properties of that model. The
model covers the client's traffic management and the small table-driven
pieces around it:

- **Address groups** (`address_group.dfy`). An address group holds the full and the active
  provider list of one service, a weight per active host (100 is full weight, 0 is isolated),
  the fault map, the avalanche guard and the connection-pool size. Assigning a list rebuilds the
  maps. Once per metric window, each weight degrades or recovers geometrically against the
  group's average.
- **Balancers**:
  - `loadbalancer.dfy`: the factory that picks a balancer, and the base `select`, which
    handles lists of size 0 and 1 itself;
  - `random_balancer.dfy`: weighted random over cumulative weights;
  - `weight_rr.dfy`: weighted round robin with its rotating cursor, including the filter mode
    exactly as it is written;
  - `consistent_hash.dfy`: the MD5 ring of signed 32-bit keys, sorted as strings.
- **Routing** (`routing.dfy`). `routing.dfy` wires a group to its balancer and to the connection
  table (`connection_mgr.dfy`).
- **Health and circuit breaking**:
  - `health_counts.dfy`: the immutable `HealthCounts` snapshot, with round-half-up rates;
  - `health_counter.dfy`: the rolling bucket window, which rotates on every scheduler tick;
  - `circuit_breaker.dfy`: the CLOSED / OPEN / HALF_OPEN breaker and its per-key cache;
  - `scheduler.dfy`: the shared period-to-callbacks scheduler.
- **Client and consumer**:
  - `client.dfy`: the consumer cache and its key;
  - `consumer.dfy`: the consumer's identity, URL normalisation, request building and
    result-code bookkeeping;
  - `request.dfy`: the request record;
  - `utils.dfy`: the packet-id counter, shuffle and address printing.
- **gRPC transport**, following the "gRPC over HTTP/2" protocol document:
  - `metadata.dfy`: the metadata multimap with its Custom-Metadata key and value rules, and
    its conversion to and from HTTP/2 headers;
  - `base64.dfy`: base64 for binary values (RFC 4648);
  - `call_stream.dfy`: the `grpc-timeout` text, Length-Prefixed-Message framing and
    reassembly, and the status that trailers, HTTP statuses and RST_STREAM codes
    (section 7 of RFC 7540) lead to;
  - `grpc_server.dfy` and `grpc_response.dfy`: the server side of a stream.
- **Server** (`server.dfy`, `service.dfy`): the service table and dispatch, service ids and
  return types, the registration URL, and the result codes an invocation records.
- **Registry** (`zk_registry.dfy`): ZooKeeper path building, the error filtering of register and
  unregister, and the subscription table.

Code that updates objects in place is modelled as classes whose methods
state their whole new state. These include the address group, the
balancers, the breaker and counter registries, the rolling counter,
the scheduler, the connection table, the client, the consumer, the
server, the gRPC call stream and response, and the registry. Each class
method is proved against a specification function, and lemmas state what
the source promises about that function. Pure code is modelled as
functions with lemmas. Rates and weights are exact rationals (`real`).

The model takes several things as parameters instead of modelling them:

- the clock (`now`);
- `Math.random()` draws, each in [0, 1);
- MD5;
- `JSON.stringify`, `url.parse` and `decodeURI`;
- protobuf encoding;
- connection outcomes.

Quirks of the code are kept as written:

- `filter_rr` writes the main cursor rather than `filter_offset`;
- the consumer-cache key does not tell a server host from an application name
  (`Clients.FormatKeyConflatesHostAndApp`);
- consistent-hash keys are compared as numbers but sorted as text;
- a stored weight of 0 reads as 100 when a live connection exists.

## Model

| member | source | states |
|---|---|---|
| Requests.NewRequestSpec | lib/client/request.js:6-42 | a request is built exactly when signature, method name, arguments and timeout are all given, the first missing one failing with its own message; the given fields are kept, `requestProps` defaults to `{ service: serverSignature }`, and the meta starts at result code '00' with the request's timeout, the clock's start and nothing routed |
| Utilities.NextOfRange | lib/client/utils.js:10-16 | from a non-negative counter the next id lies in [1, 2^30): one more below the limit, 1 once the counter reaches it |
| Utilities.NextOfAtLimit | lib/client/utils.js:11-14 | a counter at 2^30 hands out 1 and then 2 |
| Utilities.IdsAt | lib/client/utils.js:10-16 | the i-th id handed out from counter `id` is 1 + (id + i) mod (2^30 - 1) |
| Utilities.IdsDistinct | lib/client/utils.js:4-18 | fewer than 2^30 - 1 successive calls from a counter in [0, 2^30) never hand out the same id twice |
| Utilities.PacketIds.constructor | lib/client/utils.js:18 | the counter starts at 0 |
| Utilities.PacketIds.NextId | lib/client/utils.js:10-16 | the counter advances to the next id and returns it; from a non-negative counter it lies in [1, 2^30) |
| Utilities.ShuffledPermutes | lib/client/utils.js:21-29 | the shuffle only moves elements: its result is a permutation of the input |
| Utilities.ShuffledKeepsTail | lib/client/utils.js:24-27 | once the count is down to n, the positions from n on are never touched again |
| Utilities.SwapCells | lib/client/utils.js:26 | the destructuring assignment exchanges the two cells and nothing else |
| Utilities.Shuffle | lib/client/utils.js:21-29 | the same array comes back, holding the shuffle of its old contents for the drawn indices, a permutation of them |
| Utilities.PrintAddressesLines | lib/client/utils.js:37-44 | the text starts with a newline and splits back into one line `'  - ' + href` per address, at most 20, then the notice when more than 20 were given |
| Scheduling.Without | lib/client/scheduler.js:32 | removing a callback leaves every other callback and drops that one; a list without it is unchanged |
| Scheduling.WithoutAppended | lib/client/scheduler.js:29-32 | cancelling a callback just registered at the back restores the period's list |
| Scheduling.WithoutPrepended | lib/client/scheduler.js:26-32 | cancelling a callback just registered at the front restores the period's list |
| Scheduling.WithoutDistinct | lib/client/scheduler.js:32 | removing a callback keeps a list without repeats |
| Scheduling.TableAdd | lib/client/scheduler.js:18-30 | registering a fresh callback number for a period, with a timer for that period, keeps "a period has a timer exactly when it has callbacks, and callback numbers are unique" |
| Scheduling.Scheduler.constructor | lib/client/scheduler.js:9-15 | a new scheduler has no timers and no callbacks |
| Scheduling.Scheduler.Fire | lib/client/scheduler.js:21-23 | a timer's firing runs a list of distinct callbacks, empty exactly when the period has no timer |
| Scheduling.Scheduler.Interval | lib/client/scheduler.js:18-31 | a timer is started only for a period that has none; the new callback goes at the front when `prepend`, else at the back; other periods are untouched; the tables stay consistent |
| Scheduling.Scheduler.Cancel | lib/client/scheduler.js:31-38 | the callback leaves its period's list; the period's timer is stopped exactly when the list becomes empty; other periods are untouched |
| Scheduling.Scheduler.Clear | lib/client/scheduler.js:41-47 | no timers and no callbacks remain |
| Scheduling.SchedulerHolder.Instance | lib/client/scheduler.js:50-60 | the first call creates an empty scheduler; every later call returns that same one |
| Scheduling.SchedulerHolder.constructor | lib/client/scheduler.js:50-59 | no scheduler exists until the first use |
| Metrics.Record | lib/client/metric/health_counter.js:12-16 | one recorded call adds its response time, one call for a result code '00'..'04', and one failed call for a code other than '00' |
| Metrics.ErrorRate | lib/client/metric/health_counts.js:14-19 | 0 without calls, otherwise failed calls per hundred calls rounded to the nearest whole number; never negative, at most 100 when failures do not outnumber calls |
| Metrics.AvgRT | lib/client/metric/health_counts.js:21-26 | 0 without calls, otherwise the mean response time rounded to the nearest whole number |
| Metrics.AvgRTRoundsHalfUp | lib/client/metric/health_counts.js:23 | a mean of 32.5 ms is reported as 33 (halves round up) |
| Metrics.Plus | lib/client/metric/health_counts.js:28-38 | the new snapshot adds the bucket's calls, failed calls ('01'..'04') and response time to the old one's |
| Metrics.PlusKeepsErrorBound | lib/client/metric/health_counts.js:33-34 | folding in a bucket never lets failed calls outnumber calls |
| Metrics.ReduceConcat | lib/client/metric/rolling_counter.js:24 | folding two windows one after the other is the field-wise sum of their folds |
| Metrics.ReduceErrorBound | lib/client/metric/rolling_counter.js:24 | a fold of any buckets never counts more failed calls than calls |
| Metrics.ReduceRemove | lib/client/metric/rolling_counter.js:24 | taking one bucket out of the fold and adding it last gives the same snapshot |
| Metrics.ReduceOrderIndependent | lib/client/metric/rolling_counter.js:24 | the fold gives the same snapshot for any ordering of the same buckets |
| Metrics.ToString | lib/client/metric/health_counts.js:40-43 | the text starts with 'HealthCounts[' and ends with 'ms]' |
| Metrics.EmptyToString | lib/client/metric/health_counts.js:40-46 | the empty snapshot reads 'HealthCounts[0 / 0 : 0%, avg rt : 0ms]' |
| Counters.EmptyBuckets | lib/client/metric/rolling_counter.js:48-54 | a window of the configured number of buckets |
| Counters.ReduceEmptyBuckets | lib/client/metric/health_counter.js:18-31 | a window of empty buckets folds to the empty snapshot |
| Counters.Rotate | lib/client/metric/rolling_counter.js:27-28 | a tick drops the oldest bucket and appends an empty one, keeping the window's size |
| Counters.RotateNShape | lib/client/metric/rolling_counter.js:23-29 | after k ticks the first k buckets are gone and k empty ones follow the rest |
| Counters.RotateNForgets | lib/client/metric/rolling_counter.js:23-29 | once as many ticks as buckets have passed, the window holds only empty buckets |
| Counters.LatestBucketLifetime | lib/client/metric/rolling_counter.js:23-29 | calls recorded in the newest bucket are in the snapshots of the next `numBuckets` ticks and in none after |
| Counters.HealthCounter.constructor | lib/client/metric/rolling_counter.js:16-30 | a counter starts with `numBuckets` empty buckets, no snapshot, open, and its tick registered with the scheduler at the front or back as `prepend` says |
| Counters.HealthCounter.Latest | lib/client/metric/rolling_counter.js:44-46 | the bucket calls are recorded in is the last of the window |
| Counters.HealthCounter.Reset | lib/client/metric/rolling_counter.js:48-54 | a window of `numBuckets` empty buckets and no snapshot |
| Counters.HealthCounter.Update | lib/client/metric/health_counter.js:12-16 | an open counter records the call in its newest bucket and nowhere else; a closed one changes nothing |
| Counters.HealthCounter.Tick | lib/client/metric/rolling_counter.js:23-29 | the snapshot emitted and kept is the fold of the whole window, and then the window rotates |
| Counters.HealthCounter.Close | lib/client/metric/rolling_counter.js:76-82 | the counter is closed with an empty window and its tick leaves the scheduler; other periods are untouched |
| Counters.CounterRegistry.GetInstance | lib/client/metric/health_counter.js:36-45 | an empty key is refused; a cached key returns the cached counter; otherwise a new counter with an empty window is cached under the key |
| Counters.CounterRegistry.Count | lib/client/metric/health_counter.js:36-45 | `getInstance(key).update(..)`: the key's counter, new or cached, records the call in its newest bucket |
| Counters.CounterRegistry.UpdateCached | lib/client/metric/health_counter.js:12-16 | the cached counter records the call; every other cached counter stays valid |
| Counters.CounterRegistry.Close | lib/client/metric/health_counter.js:41 | closing a cached counter closes it, empties its window and evicts it from the cache |
| Counters.CounterRegistry.CloseCounter | lib/client/metric/rolling_counter.js:76-82 | `close()` on one of the registry's counters closes it and empties its window; its one-shot 'close' listener (`health_counter.js:41`) evicts its key exactly when it is still the counter cached there, and otherwise the cache is unchanged |
| Counters.CounterRegistry.constructor | lib/client/metric/health_counter.js:34 | the shared table of counters starts empty |
| Breakers.InitialState | lib/client/circuit_breaker.js:15-44 | a new breaker is CLOSED with no opening time (-1) |
| Breakers.OnSnapshot | lib/client/circuit_breaker.js:17-34 | a CLOSED breaker opens, stamped with the clock, exactly when the window has at least `requestVolumeThreshold` calls and an error rate at or above `errorThresholdPercentage`; every other state stays as it is |
| Breakers.IsOpen | lib/client/circuit_breaker.js:55-63 | forceOpen says open, otherwise forceClosed says closed, otherwise open exactly when an opening time is recorded |
| Breakers.IsAfterSleepWindow | lib/client/circuit_breaker.js:65-69 | strictly more than the sleep window has passed since opening |
| Breakers.AllowRequest | lib/client/circuit_breaker.js:75-93 | the overrides decide first; a breaker never opened lets calls through; HALF_OPEN refuses; an open breaker lets one call through and turns HALF_OPEN only after its sleep window |
| Breakers.MarkSuccess | lib/client/circuit_breaker.js:108-114 | a HALF_OPEN breaker closes and forgets its opening time; any other is unchanged |
| Breakers.MarkNonSuccess | lib/client/circuit_breaker.js:116-121 | a HALF_OPEN breaker re-opens stamped with the clock; any other is unchanged |
| Breakers.Update | lib/client/circuit_breaker.js:95-102 | result code '00' is a success, any other code a failure, and only a HALF_OPEN breaker moves |
| Breakers.TransitionsKeepConsistent | lib/client/circuit_breaker.js:15-121 | every transition keeps "CLOSED exactly when no opening time is recorded" |
| Breakers.OpenIffNotClosed | lib/client/circuit_breaker.js:55-63 | without overrides, a breaker reports open exactly when its status is not CLOSED |
| Breakers.SingleTrialCall | lib/client/circuit_breaker.js:82-91 | after the sleep window the first `allowRequest` lets a call through and moves to HALF_OPEN; the next refuses |
| Breakers.OpenRefusesDuringSleepWindow | lib/client/circuit_breaker.js:65-92 | an opened breaker refuses every call until its sleep window has passed |
| Breakers.CircuitBreaker.constructor | lib/client/circuit_breaker.js:12-16 | a new breaker on its key's counter, CLOSED and never opened |
| Breakers.CircuitBreaker.HandleSnapshot | lib/client/circuit_breaker.js:17-34 | the snapshot is kept as the latest and the state moves as `OnSnapshot` says |
| Breakers.CircuitBreaker.Allow | lib/client/circuit_breaker.js:75-93 | the answer and the new state are those of `AllowRequest` |
| Breakers.CircuitBreaker.Reset | lib/client/circuit_breaker.js:104-106 | the counter's window becomes empty; the breaker's state stays |
| Breakers.CircuitBreaker.RecordCall | lib/client/circuit_breaker.js:95-121 | the call is recorded in the counter, then the state moves as `Update` says; a successful trial call also empties the counter's window |
| Breakers.BreakerRegistry.GetInstance | lib/client/circuit_breaker.js:131-140 | an empty key is refused; a cached key returns the cached breaker; otherwise a new CLOSED breaker is cached under the key |
| Breakers.BreakerRegistry.Close | lib/client/circuit_breaker.js:123-140 | closing a cached breaker closes the breaker's own counter and evicts the breaker; the counter cache loses the key exactly when that counter is the one cached under it, and is otherwise unchanged; the other breakers stay valid |
| Breakers.BreakerRegistry.constructor | lib/client/circuit_breaker.js:129 | the shared table of breakers starts empty |
| Connections.Live | lib/client/connection_mgr.js:43-49 | a connection is returned exactly for a host whose entry is connected, and it is that entry |
| Connections.ConnectionManager.constructor | lib/client/connection_mgr.js:18-23 | a new manager has no connections |
| Connections.ConnectionManager.Get | lib/client/connection_mgr.js:43-49 | `get(address)` gives the host's entry exactly when it is connected |
| Connections.ConnectionManager.CreateAndGet | lib/client/connection_mgr.js:59-81 | a connection is returned exactly when the host's entry was already connected or the connection becomes ready; the new table is `AfterCreateAndGet` of the old one: a missing entry is created, a returned entry is connected, a failed one is removed, other hosts' entries are untouched |
| Connections.AfterCreateAndGet | lib/client/connection_mgr.js:59-81 | after `createAndGet` the host has an entry exactly when a connection was obtained, and that entry is connected; an existing entry is kept, marked connected; a new one is the address's connection stamped with the time; no other host changes |
| Connections.ConnectEachLive | lib/client/address_group.js:288-302 | across a run of `createAndGet` calls a ready connection is always obtained, and every host that got a connection is connected in the final table |
| Connections.ConnectEachFirst | lib/client/address_group.js:288-302 | the first call for a host gives a connection exactly when the host's entry was already connected or the connection becomes ready |
| Connections.ConnectEachOthers | lib/client/address_group.js:288-302 | hosts that none of the addresses name keep their table entries, or their absence |
| Connections.ConnectEachKeepsConnected | lib/client/connection_mgr.js:71-80 | an entry that is connected stays in the table, connected, whatever later calls do |
| Connections.ConnectionManager.OnClose | lib/client/connection_mgr.js:68 | a closed connection's host leaves the table |
| Balancing.Resolve | lib/client/loadbalancer/index.js:17-24 | a class value is never refused, and a value that is neither a name nor a class fails with 'loadbalancerClass:<option> invalid' |
| Balancing.ResolveSpec | lib/client/loadbalancer/index.js:5-24 | exactly 'random', 'roundRobin' and 'consistentHash' resolve by name, each to its own balancer; a class is used as it is; any other value is refused. A refused name fails the assertion, except the names the table inherits from `Object.prototype`: 'constructor' gives a balancer without `reset`, the inherited methods such as 'toString' are not constructors, and '__proto__' fails the assertion |
| Balancing.LoadBalancer.constructor | lib/client/loadbalancer/base.js:6-11 | a new balancer of the chosen kind, reset without a list: cursor 0 for round robin, an empty ring for consistent hash |
| Balancing.LoadBalancer.Reset | lib/client/loadbalancer/base.js:28 | round robin draws a new cursor, consistent hash rebuilds its ring from the list, the random balancer keeps nothing |
| Balancing.LoadBalancer.Select | lib/client/loadbalancer/base.js:21-26 | nothing from an empty list, the only address of a one-address list, otherwise the balancer's own choice: the random draw, the ring's address for the arguments, the round robin's pick with its cursors moved as `DoSelect` promises, or the supplied class's choice; a built-in balancer over non-negative weights always picks an address of the list |
| RandomBalancing.Weights | lib/client/loadbalancer/random.js:13-14 | the weights of the list, in list order |
| RandomBalancing.SumMonotone | lib/client/loadbalancer/random.js:15 | with non-negative weights the running total never decreases along the list |
| RandomBalancing.Landing | lib/client/loadbalancer/random.js:23-30 | the weighted draw lands, if at all, on an index of the list |
| RandomBalancing.LandingIsFirst | lib/client/loadbalancer/random.js:22-30 | the draw lands exactly on the first index whose running total exceeds it |
| RandomBalancing.Lands | lib/client/loadbalancer/random.js:20-30 | with non-negative weights a draw below the total always lands |
| RandomBalancing.ZeroWeightNeverLands | lib/client/loadbalancer/random.js:23-30 | an address of weight 0 is never the one the draw lands on |
| RandomBalancing.DrawRange | lib/client/loadbalancer/random.js:22-32 | `utility.random(max)` lies in [0, max) |
| RandomBalancing.ChoiceInList | lib/client/loadbalancer/random.js:8-36 | with non-negative weights the choice is always an address of the list, and never one of weight 0 when the weights differ |
| RandomBalancing.SameWeightsAreUniform | lib/client/loadbalancer/random.js:31-34 | with equal weights the uniform draw alone decides the address |
| RandomBalancing.DoSelect | lib/client/loadbalancer/random.js:8-36 | the two loops compute the choice: a weighted draw when the total is positive and the weights differ, else a uniform index |
| RoundRobinBalancing.AcceptsRule | lib/client/loadbalancer/weight_rr.js:22-27 | full weight (100) is always taken, weight 0 never, any other weight exactly when it reaches the draw in [0, 100) |
| RoundRobinBalancing.AcceptsMonotone | lib/client/loadbalancer/weight_rr.js:26-27 | a heavier candidate is taken whenever a lighter non-zero one is |
| RoundRobinBalancing.TryIndex | lib/client/loadbalancer/weight_rr.js:19-20 | the index tried on each try is inside the list |
| RoundRobinBalancing.FirstAccepted | lib/client/loadbalancer/weight_rr.js:35-38 | the try that ends a round, if any, is among the remaining tries |
| RoundRobinBalancing.FirstAcceptedIsFirst | lib/client/loadbalancer/weight_rr.js:35-38 | the round stops at the first try whose candidate is taken; no stop means every try was refused |
| RoundRobinBalancing.TryIndexSucc | lib/client/loadbalancer/weight_rr.js:20 | moving the cursor on by one after a try gives the next try's index |
| RoundRobinBalancing.AllFullTakesCursor | lib/client/loadbalancer/weight_rr.js:23-37 | with every address at full weight the address under the cursor is taken at once |
| RoundRobinBalancing.AllZeroRefused | lib/client/loadbalancer/weight_rr.js:24-40 | with every address at weight 0 no try succeeds, so the fallback decides |
| RoundRobinBalancing.WeightRoundRobin.constructor | lib/client/loadbalancer/base.js:6-11 | a new balancer: cursor at 0, not in filter mode |
| RoundRobinBalancing.WeightRoundRobin.Reset | lib/client/loadbalancer/weight_rr.js:10-16 | the cursor becomes a draw in [0, length of the active list) |
| RoundRobinBalancing.WeightRoundRobin.Rr | lib/client/loadbalancer/weight_rr.js:18-28 | the address under the cursor is returned when taken, nothing otherwise; the cursor moves on by one, modulo the list's length |
| RoundRobinBalancing.WeightRoundRobin.DoSelect | lib/client/loadbalancer/weight_rr.js:30-41 | filter mode runs a filter round; otherwise the first taken candidate of one round from the cursor, or, after a whole round of refusals, the address under the cursor, which is back where it started |
| RoundRobinBalancing.WeightRoundRobin.RoundSelect | lib/client/loadbalancer/weight_rr.js:33-40 | the address and the new cursor are those of the first try whose candidate is taken, or the starting address and cursor when none is |
| RoundRobinBalancing.WeightRoundRobin.FilterDoSelect | lib/client/loadbalancer/weight_rr.js:44-56 | filter mode is switched off, a start index is drawn, and the address at that index is returned whatever the weights, the cursor set just past it |
| RoundRobinBalancing.WeightRoundRobin.FilterRr | lib/client/loadbalancer/weight_rr.js:58-68 | the address at the filter start is returned when taken, nothing otherwise; the main cursor is set just past it |
| ConsistentHashing.Word | lib/client/loadbalancer/consistent_hash.js:29-32 | four digest bytes, least significant first, form an unsigned 32-bit word |
| ConsistentHashing.ToInt32 | lib/client/loadbalancer/consistent_hash.js:29-33 | the bitwise operators read the word as a signed 32-bit integer, congruent to it modulo 2^32 |
| ConsistentHashing.Hash | lib/client/loadbalancer/consistent_hash.js:28-34 | `_hash(digest, index)` is a signed 32-bit key |
| ConsistentHashing.HashSign | lib/client/loadbalancer/consistent_hash.js:29 | a key is negative exactly when the high bit of byte `3 + 4·index` is set |
| ConsistentHashing.HashRoundTrip | lib/client/loadbalancer/consistent_hash.js:28-34 | the key gives back, byte for byte, the four digest bytes it was assembled from |
| ConsistentHashing.Points | lib/client/loadbalancer/consistent_hash.js:6-19 | each address contributes 128 ring keys, from 32 digests of `host + i` |
| ConsistentHashing.PlaceSpec | lib/client/loadbalancer/consistent_hash.js:16-19 | setting an address's keys adds exactly those keys, all pointing at the address, and leaves the other keys as they were |
| ConsistentHashing.RingOwner | lib/client/loadbalancer/consistent_hash.js:11-22 | a key is on the ring exactly when some address has it among its points, and it belongs to the last such address (later addresses overwrite earlier ones) |
| ConsistentHashing.RingNodes | lib/client/loadbalancer/consistent_hash.js:11-22 | every ring node is one of the addresses, on a key among its own points |
| ConsistentHashing.LastOwnsItsPoints | lib/client/loadbalancer/consistent_hash.js:13-19 | the last address keeps all its keys, so a non-empty list gives a non-empty ring |
| ConsistentHashing.KeysPerAddress | lib/client/loadbalancer/consistent_hash.js:14-19 | no address owns more than 128 ring keys |
| ConsistentHashing.KeyLessTotal | lib/client/loadbalancer/consistent_hash.js:23 | the default sort's order on keys (by decimal text) is total on distinct keys |
| ConsistentHashing.InsertByTextSpec | lib/client/loadbalancer/consistent_hash.js:23 | inserting a key into a text-sorted list keeps it sorted and adds exactly that key |
| ConsistentHashing.SortedByTextUnique | lib/client/loadbalancer/consistent_hash.js:23 | two text-sorted lists with the same keys are the same list, so the sort's result does not depend on the map's key order |
| ConsistentHashing.SortByText | lib/client/loadbalancer/consistent_hash.js:23 | `_sortKeys` holds each ring key once, sorted by text |
| ConsistentHashing.GreatestBelowSpec | lib/client/loadbalancer/consistent_hash.js:45-50 | the downward scan stops at the greatest index whose key is below the hash, or finds none |
| ConsistentHashing.KeyFor | lib/client/loadbalancer/consistent_hash.js:41-53 | an empty ring gives no key; otherwise the key looked up is one of the ring's keys |
| ConsistentHashing.KeyForWraps | lib/client/loadbalancer/consistent_hash.js:43-44 | when the last key is below the hash, or no key is, the first key is looked up |
| ConsistentHashing.KeyForSuccessor | lib/client/loadbalancer/consistent_hash.js:45-49 | otherwise the key after the last one below the hash is looked up |
| ConsistentHashing.TextOrderQuirk | lib/client/loadbalancer/consistent_hash.js:23-53 | keys sorted as text are not in numeric order: with keys -1, -2, 10, 9 a hash of 5 is routed to 10 |
| ConsistentHashing.KeyOfArgs | lib/client/loadbalancer/consistent_hash.js:55-59 | '' without arguments, else the JSON text of the first argument |
| ConsistentHashing.ConsistentHash.constructor | lib/client/loadbalancer/base.js:6-11 | a new balancer has an empty ring |
| ConsistentHashing.ConsistentHash.Reset | lib/client/loadbalancer/consistent_hash.js:9-25 | the ring is rebuilt for the active list, and the sorted keys are exactly the ring's keys |
| ConsistentHashing.ConsistentHash.PlaceAddress | lib/client/loadbalancer/consistent_hash.js:14-20 | the two inner loops set the address's 128 keys on the ring and record them in key order |
| ConsistentHashing.ConsistentHash.SelectForKey | lib/client/loadbalancer/consistent_hash.js:41-53 | the node of the key `KeyFor` gives, none on an empty ring |
| ConsistentHashing.ConsistentHash.DoSelect | lib/client/loadbalancer/consistent_hash.js:61-65 | an address exactly when the ring was built from a non-empty list, always one of that list; the same arguments give the same address while the ring is unchanged |
| Addressing.Health | lib/client/address_group.js:164-175 | -1 exactly for a host in the fault map or weighted below 100, 1 exactly for a pooled host that is not unhealthy, 0 for any other host |
| Addressing.Rank | test/client/address_group.test.js:1398-1459 | an address ranks 1 when it is healthy or new (not in the previous full list and of unknown health), 0 when it was known and its health is unknown, -1 when it is unhealthy |
| Addressing.Tier | test/client/address_group.test.js:1398-1459 | a rank tier is no longer than the list it is drawn from |
| Addressing.TierMembers | test/client/address_group.test.js:1398-1459 | a tier holds exactly the list's addresses of that rank |
| Addressing.Prioritized | test/client/address_group.test.js:1398-1459 | the list in rank order keeps its length |
| Addressing.TiersPartition | test/client/address_group.test.js:1398-1459 | the three tiers together hold the list's addresses, each as often as the list does |
| Addressing.PrioritizedPermutes | test/client/address_group.test.js:1398-1459 | reordering by rank is a permutation of the list |
| Addressing.PrioritizedOrdered | test/client/address_group.test.js:1398-1459 | in the reordered list healthy and new addresses come before known addresses of unknown health, and those before unhealthy ones |
| Addressing.ActiveCount | test/client/address_group.test.js:1319-1361 | without elastic control every address is active; with it, no more than the pool size or the maximum address count |
| Addressing.ChooseActive | lib/client/address_group.js:126-127 | the active list has the length the pool allows |
| Addressing.ChooseActiveDrawsFromAll | test/client/address_group.test.js:1319-1361 | the active list is a sub-multiset of the full list; with few addresses it is the full list; otherwise its length is min(pool size, maximum, total) |
| Addressing.ChooseActivePrefersHealthy | test/client/address_group.test.js:1398-1459 | an address left out never ranks above an address chosen: when a healthy or new address is left out every chosen one is healthy or new, and when one that is not unhealthy is left out no chosen one is unhealthy |
| Addressing.ChooseActiveKeepsHealthy | test/client/address_group.test.js:1362-1396 | when the pool can hold every healthy or new address, a refresh keeps all of them active |
| Addressing.ChooseActiveTakesHead | test/client/elastic_control.test.js:50-62 | a new or healthy address at the head of the list is the head of the active list |
| Addressing.KeepWeightsSpec | lib/client/address_group.js:133-141 | the rebuilt weight map holds exactly the active hosts, each with its old weight or else 100 |
| Addressing.KeepFaultsSpec | lib/client/address_group.js:133-142 | the rebuilt fault map holds exactly the active hosts that were faulty, each mapped to its active address |
| Addressing.AssignListSpec | lib/client/address_group.js:118-143 | assigning a list records it as the full list, picks the active list, rebuilds both maps for it and switches the guard on; the pool size is unchanged |
| Addressing.AssignListIsolation | lib/client/address_group.js:129-130 | the isolation budget is the ceiling of the configured percentage of the active list's length |
| Addressing.Refreshed | lib/client/address_group.js:177-181 | a refresh changes nothing when every address is active, and otherwise reassigns the full list |
| Addressing.SetPoolSize | lib/client/address_group.js:84-91 | the new pool size is stored; setting the current size changes nothing |
| Addressing.PoolSizeFor | lib/client/address_group.js:192 | the pool asked for lies in [min, max]; below the maximum it has room for every call of the window, and above the minimum one connection fewer would not |
| Common.CeilDiv | lib/client/address_group.js:192 | `Math.ceil` of a quotient in whole numbers: the least multiple of the divisor at or above the dividend, not negative for a dividend that is not |
| Addressing.PoolSizeExamples | test/client/address_group.test.js:1479-1539 | at 30 calls per connection, 300 calls ask for 10 connections, 600 for 20, none for the minimum 5 and 1530 for the maximum 50 |
| Addressing.Multiple | lib/client/address_group.js:226-228 | the ratio of own to average rounded to a tenth, within 0.05 of the exact ratio |
| Addressing.ErrorMultiple | lib/client/address_group.js:223-227 | against a group error rate of 0, any own error counts as the degrade multiple and none as 0; otherwise the ratio to a tenth |
| Addressing.RtMultiple | lib/client/address_group.js:228 | 1 against a group response time of 0, otherwise the ratio to a tenth |
| Addressing.RegulateWeight | lib/client/address_group.js:218-252 | without the guard on or without calls in the last snapshot the weight is kept; otherwise it is adjusted by the degrade and recover rules |
| Addressing.Adjust | lib/client/address_group.js:231-251 | a far-worse address is degraded geometrically to no less than the floor, its counter reset, unless already at the floor; a down-weighted address close to average recovers geometrically to at most 100; any other keeps its weight |
| Addressing.RegulateKeepsRange | lib/client/address_group.js:231-251 | with a degrade rate in [0, 1] and a recover rate of at least 1, a weight in [floor, 100] stays there |
| Addressing.ZeroWeightDoesNotRecover | lib/client/address_group.js:244-251 | a weight of 0 is not raised by recovery |
| Addressing.DegradeRecoverTrace | lib/client/address_group.js:218-251 | under the default settings an address at ten times the mean response time drops from 100 to 5, and back at the mean recovers 10, 20, 40, 80, 100 |
| Addressing.PassCovers | lib/client/address_group.js:202-273 | a pass gives every visited host a weight, puts only visited hosts in the fault map and counts at most one degraded address per visit |
| Addressing.PassIsolatesUnconnected | lib/client/address_group.js:213-215 | an address without a live connection ends the pass at weight 0 and in the fault map |
| Addressing.PassKeepsUnregulated | lib/client/address_group.js:203-220 | a connected address that may not be regulated keeps its weight, a missing one reading 100 |
| Addressing.PassKeepsOthers | lib/client/address_group.js:202-273 | a pass leaves the weights of hosts it does not visit alone |
| Addressing.AvalancheGuard | lib/client/address_group.js:279-285 | within the isolation budget degrading stays on and the pass's maps are kept; over it degrading is switched off, unless the refresh reassigns the list, which switches it back on |
| Addressing.RegulationOff | lib/client/address_group.js:192-197 | with regulation switched off a window only adjusts the pool |
| Addressing.WeightOf | lib/client/address_group.js:322-338 | 0 for an address without a live connection; 100 when degrading is off |
| Addressing.WeightOfLive | lib/client/address_group.js:322-338 | a live address's weight is positive; it differs from 100 only when it is the stored weight, below 100, and the connection was used within the idle window |
| Addressing.ConnectOutcome | lib/client/address_group.js:292-299 | success clears the host's fault entry; failure isolates a host with a weight (weight 0, fault entry) and ignores one without |
| Addressing.ConnectOutcomesSpec | lib/client/address_group.js:288-302 | connect outcomes never add a host to the weight map, only lower weights to 0, and put in the fault map only hosts they tried |
| Addressing.ConnectOutcomesAllReady | lib/client/address_group.js:305-313 | when every retried address connects, the fault map loses exactly the retried hosts and the weights are untouched |
| Addressing.RebuildMaps | lib/client/address_group.js:133-140 | the loop builds the kept weights and the kept faults of the active list |
| Addressing.AddressGroup.constructor | lib/client/address_group.js:22-39 | a new group: both lists empty, both maps empty, budget 0, the guard off, the pool at its initial size |
| Addressing.AddressGroup.CheckHealthy | lib/client/address_group.js:164-175 | the health of the address's host given the group's maps and the connection table |
| Addressing.AddressGroup.SetAddressList | lib/client/address_group.js:126-143 | the group's new state is the assignment of the list |
| Addressing.AddressGroup.Refresh | lib/client/address_group.js:177-181 | the new state is the refreshed one; it reports whether the list was reassigned |
| Addressing.AddressGroup.SetConnectionPoolSize | lib/client/address_group.js:84-91 | the new state is the pool-size update; it reports whether the refresh reassigned the list |
| Addressing.AddressGroup.AdjustConnectionPoolSize | lib/client/address_group.js:192 | under elastic control the pool is set to the size the window's calls ask for; otherwise nothing changes |
| Addressing.AddressGroup.RegulateOne | lib/client/address_group.js:202-273 | one address of the pass: the maps, the degraded count, the resets and the heartbeats advance by one step of the pass |
| Addressing.AddressGroup.RegulateActive | lib/client/address_group.js:199-273 | the loop over the active list leaves the maps and outputs of the whole pass and changes nothing else |
| Addressing.AddressGroup.OnNext | lib/client/address_group.js:184-286 | the new state, the resets and the heartbeats are those of the window's outcome: pool adjustment, regulation pass and avalanche guard; it reports whether the list was reassigned |
| Addressing.AddressGroup.GetWeight | lib/client/address_group.js:322-338 | the weight is the group's reading of the address; an address without a live connection is also put in the fault map, and nothing else changes |
| Addressing.AddressGroup.ConnectAll | lib/client/address_group.js:288-302 | one `createAndGet` per address in list order: which attempts got a connection and the connection table afterwards are `ConnectEach` of the old table (so every ready address connects, and the first attempt for a host succeeds exactly when its entry was connected or it becomes ready); the weight and fault maps are the outcomes of those attempts |
| Addressing.AddressGroup.ConnectOne | lib/client/address_group.js:289-300 | the attempt succeeds exactly when the host's entry was already connected or the connection becomes ready; the connection table is `AfterCreateAndGet` of the old one; the weight and fault maps are that attempt's outcome |
| Addressing.AddressGroup.RetryFaultAddresses | lib/client/address_group.js:308-318 | with no faults nothing happens, the connection table included; otherwise the faulty addresses are reconnected as `ConnectEach` says and, while faults remain, the list is refreshed |
| Addressing.AddressGroup.Close | lib/client/address_group.js:351-356 | both maps and both lists emptied and the group marked closed |
| Base64.CharDigitOfDigitChar | lib/client/connection/grpc/metadata.js:110-124 | the decoder reads every character the encoder writes as the digit it stands for |
| Base64.Chars | lib/client/connection/grpc/metadata.js:110 | one character per digit, each the digit's character |
| Base64.EncodeLength | lib/client/connection/grpc/metadata.js:110 | an encoding is 4 characters per started group of 3 bytes |
| Base64.SextetsRoundTrip | lib/client/connection/grpc/metadata.js:110-124 | the bytes come back from their digits |
| Base64.DecodeEncode | lib/client/connection/grpc/metadata.js:110-124 | decoding the base64 text of a binary value gives the bytes back |
| Base64.EncodeVectors | lib/client/connection/grpc/metadata.js:110 | "f" encodes as "Zg==", "fo" as "Zm8=", "foo" as "Zm9v" |
| GrpcMetadata.Validate | lib/client/connection/grpc/metadata.js:3-41 | a key and value pass exactly when the key is one or more of `[0-9a-z_.-]` and a given value is bytes under a '-bin' key, or printable ASCII text under any other key |
| GrpcMetadata.LegalKeyIsLower | lib/client/connection/grpc/metadata.js:3-20 | a legal key is already lower-case, so normalising keeps it |
| GrpcMetadata.ToLowerIdempotent | lib/client/connection/grpc/metadata.js:18-20 | normalising twice is normalising once |
| GrpcMetadata.Lookup | lib/client/connection/grpc/metadata.js:72-80 | `get` fails exactly for an illegal lower-cased key, and otherwise gives the key's values, [] when absent |
| GrpcMetadata.AddOne | lib/client/connection/grpc/metadata.js:54-62 | one `add`: it succeeds exactly when the pair is valid and the key is not an inherited name without an own entry; it then appends the value to the key's list, which starts if missing; an inherited key throws the TypeError of `push`; a failure changes nothing |
| GrpcMetadata.AddAllValid | lib/client/connection/grpc/metadata.js:54-62 | values that all pass validation, under a key that is not only inherited, are appended to the key's list in order, the list starting if missing |
| GrpcMetadata.InheritedLegalKeys | lib/client/connection/grpc/metadata.js:3-8 | of the names a plain object inherits, only 'constructor' and '__proto__' are legal keys |
| GrpcMetadata.InheritedKeysAreLegal | lib/client/connection/grpc/metadata.js:3-16 | 'constructor' and '__proto__' are legal, non-binary keys |
| GrpcMetadata.MergedSpec | lib/client/connection/grpc/metadata.js:94-99 | merging gives every key its own values followed by the other's, and keeps well-formed metadata well formed |
| GrpcMetadata.MergeKeysSpec | lib/client/connection/grpc/metadata.js:94-99 | `merge` throws the TypeError of `concat` exactly when one of the other's keys is, on this side, an inherited name without an own entry; the keys before the first such key are then already merged, and otherwise every key is merged |
| GrpcMetadata.MergeKeysWhole | lib/client/connection/grpc/metadata.js:94-99 | when none of the other's keys is only inherited here, `merge` in any key order succeeds and gives every key its own values followed by the other's |
| GrpcMetadata.FirstValues | lib/client/connection/grpc/metadata.js:82-92 | exactly the keys that have values, each with its first value |
| GrpcMetadata.ToHeaders | lib/client/connection/grpc/metadata.js:101-116 | the same keys, with one header text per value |
| GrpcMetadata.HeaderEntries | lib/client/connection/grpc/metadata.js:119-120 | one header entry per key |
| GrpcMetadata.HeaderValuesRoundTrip | lib/client/connection/grpc/metadata.js:108-135 | the values of a key come back from their header texts, bytes through base64 |
| GrpcMetadata.HeadersRoundTrip | lib/client/connection/grpc/metadata.js:101-141 | reading the headers of well-formed metadata with no inherited key names, in any key order, into empty metadata fails nowhere and gives the same metadata |
| GrpcMetadata.InheritedKeyDoesNotReadBack | lib/client/connection/grpc/metadata.js:48-62 | a well-formed metadata holding 'constructor' or '__proto__' does not read back from its headers: adding the key to empty metadata finds the inherited value and throws the TypeError of `push` |
| GrpcMetadata.FromEntriesFails | lib/client/connection/grpc/metadata.js:118-141 | reading headers stops at a first header whose values fail, with that failure |
| GrpcMetadata.Metadata.constructor | lib/client/connection/grpc/metadata.js:44-46 | new metadata is empty |
| GrpcMetadata.Metadata.Set | lib/client/connection/grpc/metadata.js:48-52 | an invalid pair throws and changes nothing; otherwise the lower-cased key holds just this value, except '__proto__', which stores no entry |
| GrpcMetadata.Metadata.Add | lib/client/connection/grpc/metadata.js:54-62 | the error and the new state are those of one add (`AddOne`): the value appended to the key's list, which starts if missing, or the TypeError of `push` for a key only inherited |
| GrpcMetadata.Metadata.Remove | lib/client/connection/grpc/metadata.js:64-70 | an illegal key throws and changes nothing; otherwise the key goes |
| GrpcMetadata.Metadata.Get | lib/client/connection/grpc/metadata.js:72-80 | the lookup of the key in the object's state |
| GrpcMetadata.Metadata.GetMap | lib/client/connection/grpc/metadata.js:82-92 | the first value of every key that has one |
| GrpcMetadata.Metadata.Merge | lib/client/connection/grpc/metadata.js:94-99 | the error and the new state are those of `merge` visiting the other's keys in its listing order (`MergeKeys`): each key's values appended to this side's, up to a key this side only inherits, which throws the TypeError of `concat` |
| GrpcMetadata.Metadata.ToHttp2Headers | lib/client/connection/grpc/metadata.js:101-116 | the header texts of the object's values |
| GrpcMetadata.Metadata.FromHttp2Headers | lib/client/connection/grpc/metadata.js:118-141 | every header's values are added in order; the first failure stops the loop, keeping what was added before it |
| GrpcMetadata.Metadata.AddValues | lib/client/connection/grpc/metadata.js:123-137 | the values are added in order until one fails |
| GrpcCallStream.MappedStatusSpec | lib/client/connection/grpc/call_stream.js:47-57 | only HTTP 200 maps to OK; 400, 401, 403 and 404 map to INTERNAL, UNAUTHENTICATED, PERMISSION_DENIED and UNIMPLEMENTED; 429 and 502-504 map to UNAVAILABLE; any other status, or none, maps to UNKNOWN; the result is always a status code |
| GrpcCallStream.GetTimeout | lib/client/connection/grpc/call_stream.js:20-28 | the loop over the units returns the as-written timeout text: the first unit whose amount is below 10^8, rounded up, else the 'Deadline is too far in the future' error |
| GrpcCallStream.TimeoutTextSpec | lib/client/connection/grpc/call_stream.js:13-28 | the as-written text exists exactly below 10^8 hours, with the error message otherwise; it is the amount rounded up plus a unit letter; below 10^8 ms it is the timeout in ms |
| GrpcCallStream.TimeoutTextMillis | lib/client/connection/grpc/call_stream.js:20-25 | below 10^8 ms the first unit, 'm', fits and the amount is the timeout itself |
| GrpcCallStream.TimeoutTextFirstFit | lib/client/connection/grpc/call_stream.js:20-28 | over any units: a text exactly when some unit's amount is below 10^8, and then in the format of that unit |
| GrpcCallStream.TimeoutTextNineDigits | lib/client/connection/grpc/call_stream.js:22-24 | as written, 99999999001 ms becomes "100000000S": nine digits, which the gRPC timeout grammar does not allow |
| GrpcCallStream.HundredMillionText | lib/client/connection/grpc/call_stream.js:24 | 10^8 is written as a 1 and eight 0s |
| GrpcCallStream.BoundedTimeoutTextSpec | lib/client/connection/grpc/call_stream.js:20-28 | the corrected text exists exactly when some unit's rounded-up amount is below 10^8, and then has that unit's format; it is at most 8 digits and a unit for a timeout that is not negative; the error keeps the source's message |
| GrpcCallStream.CeilDivBelow | lib/client/connection/grpc/call_stream.js:22-24 | a rounded-up amount is below 10^8 exactly when the timeout is at most 99999999 units |
| GrpcCallStream.BoundedTimeoutTextUnits | lib/client/connection/grpc/call_stream.js:13-28 | with the protocol's units, the corrected text exists exactly up to 99999999 hours; below 10^8 ms it agrees with the as-written text |
| GrpcCallStream.ReadBigEndian32 | lib/client/connection/grpc/call_stream.js:113 | reading a 4-byte big-endian length back gives the length `putInt` wrote |
| GrpcCallStream.FrameRoundTrip | lib/client/connection/grpc/call_stream.js:105-134 | the request frame is the flag byte, the length and the payload: its length field gives the payload length, `slice(5)` gives back the payload, and a method without a request type sends only the flag byte |
| GrpcCallStream.ReassembleSpec | lib/client/connection/grpc/call_stream.js:236-264 | a 'data' event loses, adds and reorders no byte; it takes out a message exactly when the buffer holds a whole frame, and that message is the whole frame |
| GrpcCallStream.TakeFrameKeepsBytes | lib/client/connection/grpc/call_stream.js:243-263 | the buffer is the message taken out followed by what stays buffered |
| GrpcCallStream.TakeFrameWhole | lib/client/connection/grpc/call_stream.js:243-249 | a frame is taken out exactly when the buffer holds one, and its length field matches its size |
| GrpcCallStream.ReassembleFrame | lib/client/connection/grpc/call_stream.js:236-264 | a whole frame arriving in an empty buffer comes out as one message; the rest of the chunk stays buffered, so a chunk carrying two frames yields only the first |
| GrpcCallStream.ReassembleSplitFrame | lib/client/connection/grpc/call_stream.js:236-264 | a frame split over two chunks stays buffered after the first and comes out whole with the second |
| GrpcCallStream.SignatureParts | lib/client/connection/grpc/call_stream.js:83-95 | for an interface and version without ':', the path is '/interface/method' and the version header is the version |
| GrpcCallStream.FixedHeadersSpec | lib/client/connection/grpc/call_stream.js:93-101 | the fixed headers carry the POST method, the path, the timeout and the gRPC content type |
| GrpcCallStream.RequestHeadersSpec | lib/client/connection/grpc/call_stream.js:88-103 | whatever the timeout text: the headers fail exactly when the text does, with its error; otherwise they carry the path, that text, and the content type, `grpc-version` exactly when the signature has a version, and every request property no fixed header names |
| GrpcCallStream.CallHeadersSpec | lib/client/connection/grpc/call_stream.js:88-103 | with the as-written `getTimeout`: the headers fail exactly from 10^8 hours on, with the 'Deadline is too far in the future' message; otherwise they carry the path, the as-written timeout text (at most 9 digits and a unit for a timeout that is not negative, in the format of a unit whose amount is below 10^8), and the content type; `grpc-version` is present exactly when the signature has a version |
| GrpcCallStream.TimeoutTextLength | lib/client/connection/grpc/call_stream.js:20-28 | the as-written text of a timeout that is not negative is at most 10 characters: 9 digits and a unit letter |
| GrpcCallStream.CorrectedCallHeadersSpec | lib/client/connection/grpc/call_stream.js:88-103 | with the corrected timeout text, the headers fail exactly beyond 99999999 hours, and otherwise carry a timeout text of at most 8 digits and a unit |
| GrpcCallStream.CallHeadersKeepsProperties | lib/client/connection/grpc/call_stream.js:88-103 | request properties that no fixed header names are sent unchanged |
| GrpcCallStream.TrailerOutcomeSpec | lib/client/connection/grpc/call_stream.js:156-181 | a status already mapped ignores the trailers; otherwise a `grpc-status` text that reads as a status code is adopted, else the status stays UNKNOWN; `grpc-message` becomes the URI-decoded status message; both keys leave the metadata and every other key keeps its values |
| GrpcCallStream.StatusKeysAreText | lib/client/connection/grpc/call_stream.js:169-178 | in well-formed metadata, `grpc-status` and `grpc-message` hold text values |
| GrpcCallStream.StatusKeysLegal | lib/client/connection/grpc/call_stream.js:175-179 | both keys are legal and already lower-case, so `remove` takes them out |
| GrpcCallStream.CloseSpec | lib/client/connection/grpc/call_stream.js:183-207 | the call ends in error exactly when the final code is not OK, with that code and result code '02'; each RST_STREAM code maps to its status and details, a reset stream always errs, and a clean close keeps the call's status |
| GrpcCallStream.ResponsePayloadOfFrame | lib/client/connection/grpc/call_stream.js:124-137 | a successful response whose message is a frame decodes that frame's payload with `resSize` equal to its length; an error response decodes nothing |
| GrpcCallStream.WithoutResponseHeaders | lib/client/connection/grpc/call_stream.js:218-221 | the result keeps every header except `:status` and `content-type`, and adds none |
| GrpcCallStream.CallStream.constructor | lib/client/connection/grpc/call_stream.js:60-80 | a new stream has no response, status UNKNOWN, an empty message, no data, no buffer and empty metadata |
| GrpcCallStream.CallStream.EndCall | lib/client/connection/grpc/call_stream.js:146-154 | only the first call records the response: the last data, the error and the metadata map |
| GrpcCallStream.CallStream.HandleTrailers | lib/client/connection/grpc/call_stream.js:156-181 | trailers the metadata refuses end the call with a DecodeResponseHeadersError (code UNKNOWN, result code '02'); accepted ones give the trailer outcome |
| GrpcCallStream.CallStream.AdoptTrailers | lib/client/connection/grpc/call_stream.js:167-180 | the status, message and metadata become the trailer outcome |
| GrpcCallStream.CallStream.RemoveMetadataKey | lib/client/connection/grpc/call_stream.js:175-179 | `grpc-status` or `grpc-message` leaves the metadata and nothing else changes |
| GrpcCallStream.CallStream.HandleClose | lib/client/connection/grpc/call_stream.js:183-213 | the first end of the call records the close error that the RST_STREAM code and the call's status give |
| GrpcCallStream.CallStream.HandleResponse | lib/client/connection/grpc/call_stream.js:217-234 | the HTTP status is mapped; the other headers are trailers when the stream ends with them, and otherwise initial metadata whose refusal ends the call with that error |
| GrpcCallStream.CallStream.HandleInitialMetadata | lib/client/connection/grpc/call_stream.js:228-232 | the metadata takes in the headers; a refusal ends the call with the error, a TypeError keeping its name |
| GrpcCallStream.CallStream.OnData | lib/client/connection/grpc/call_stream.js:236-264 | the buffer and the queue of unread messages follow the reassembly of the chunk |
| GrpcCallStream.CallStream.ReadMessage | lib/client/connection/grpc/call_stream.js:286-301 | the oldest unread message becomes the response data and leaves the queue |
| GrpcResponses.SendOutcomeSpec | lib/server/grpc/response.js:30-78 | an error reply has HTTP status 500, gRPC status 2 with the error message, result code '02' and no body; a result of a method with a response type has status 200, gRPC status 0 'OK', and a body that is the payload's frame, with `resSize` counting the 5 header bytes; any other reply has no body and leaves the meta unchanged; the content type is always gRPC |
| GrpcResponses.ReplyReachesClient | lib/server/grpc/response.js:55-86 | a successful reply maps to OK on the client, arrives as one message, and decodes to the payload sent |
| GrpcResponses.GrpcResponse.constructor | lib/server/grpc/response.js:7-24 | the meta starts with result code '00', nothing measured, and the request's size or 0 |
| GrpcResponses.GrpcResponse.Send | lib/server/grpc/response.js:30-87 | the meta becomes the send outcome's; the reply goes on the stream only when the stream is not destroyed |
| GrpcServers.PathRoundTrip | lib/server/grpc/server.js:71-81 | the path and version a client sends for a signature read back as the same interface, method, version and signature |
| GrpcServers.DefaultVersionTarget | lib/server/grpc/server.js:73-81 | a stream with no version header, or an empty one, asks for version '1.0' |
| GrpcServers.UnitFactorOfUnits | lib/server/grpc/server.js:15-20 | the server's unit letters have the client's factors |
| GrpcServers.TimeoutRoundTrip | lib/server/grpc/server.js:77-80 | below 10^8 hours the client's as-written `grpc-timeout` exists and reads back as a deadline at or above the timeout by less than one unit |
| GrpcServers.TimeoutRoundTripExact | lib/server/grpc/server.js:77-80 | the as-written text of a timeout below 10^8 ms reads back exactly |
| GrpcServers.ServerTimeoutOfFormat | lib/server/grpc/server.js:77-80 | a timeout written in a known unit reads as the rounded-up amount times that unit |
| GrpcServers.ServerTimeoutOfAmount | lib/server/grpc/server.js:78-79 | an integer's text followed by a known unit letter reads as that integer times the unit |
| GrpcServers.FirstMessageSpec | lib/server/grpc/server.js:100-113 | the message is whole once its frame is, is the frame's payload, and stays the same whatever arrives after it |
| GrpcServers.FirstMessageRepeats | lib/server/grpc/server.js:100-119 | because the buffer is never trimmed, data after a whole first message yields the same message again |
| GrpcServers.IncomingStream.constructor | lib/server/grpc/server.js:71-99 | a new stream has no buffer and a request with no arguments, size 0, the protobuf codec and the deadline read from the headers |
| GrpcServers.IncomingStream.OnData | lib/server/grpc/server.js:100-120 | the chunk is appended to the buffer; once the first message is whole, it is appended to the arguments (when the method has a request type) and `meta.size` becomes the buffer's length |
| GrpcServers.SessionKeyInjective | lib/server/grpc/server.js:63-67 | for addresses without ':', two sessions share a key exactly when they share address and port |
| GrpcServers.HandleSession | lib/server/grpc/server.js:63-66 | the session is stored under its address:port key and nothing else changes |
| GrpcServers.OnSessionClose | lib/server/grpc/server.js:67 | the session's key leaves the table and nothing else changes |
| Servers.ServiceOptionsSpec | lib/server/server.js:140-150 | a string is taken as the interface name, with the server's version and group; a described service's own version and group win over the server's |
| Servers.WithInterfaceSpec | lib/server/server.js:270-271 | only the interface name changes and it is always set; a request's own interface name is kept; otherwise it is the signature up to the first ':', which is the service's interface for a service id |
| Servers.NotFoundResultSpec | lib/server/server.js:277-288 | a request for an unknown service leaves result code '02' and an error reply: status 500, gRPC status 2, the message 'not found service: ' plus the id, and no body |
| Servers.AddServiceReplaces | lib/server/server.js:152-155 | adding a second service under the same id keeps one entry, the later service |
| Servers.RpcServer.constructor | lib/server/server.js:16-64 | the defaults are port 12200, group 'SOFA' and version '1.0', given options win, and the server starts with no services, connections or listeners and not started |
| Servers.RpcServer.AddService | lib/server/server.js:140-156 | a service without an interface name fails with the service's assertion message and changes nothing; any other is stored under its id, replacing a service of the same id, and nothing else changes |
| Servers.RpcServer.Start | lib/server/server.js:177-183 | the first call marks the server started and listens on the publish port; later calls change nothing |
| Servers.RpcServer.OnListening | lib/server/server.js:162-166 | a server asked for port 0 on the publish port 0 publishes the real port; otherwise nothing changes |
| Servers.RpcServer.HandleSocket | lib/server/server.js:253-254 | the connection is stored under its key and nothing else changes |
| Servers.RpcServer.OnConnectionClose | lib/server/server.js:261 | the connection's key leaves the table and nothing else changes |
| Servers.RpcServer.GetConnections | lib/server/server.js:127-131 | the count is the number of open connections |
| Servers.RpcServer.HandleRequest | lib/server/server.js:269-292 | the request's interface name is filled in; a signature no service has gets the 'not found service' error reply; otherwise the service's invocation decides the meta and the reply, which goes out only on an open stream |
| Services.ServiceIdSplits | lib/server/service.js:24-26 | for parts without ':', the id splits back into the interface, the version and the unique id when one is set; its first piece is the interface |
| Services.ReturnTypesKeys | lib/server/service.js:28-37 | `returnTypes` has an entry for every method of the API description and no other |
| Services.ReturnTypesLast | lib/server/service.js:32-37 | each name's entry is that of the last method with that name |
| Services.SetParamSpec | lib/server/service.js:55-57 | after `searchParams.set` the parameter reads as the value and no other parameter changes |
| Services.SetParamCount | lib/server/service.js:55-57 | after `searchParams.set` the name has exactly one pair and other names keep their pairs |
| Services.RegQuerySpec | lib/server/service.js:53-77 | the registration URL carries the service's interface, version and group, which custom entries cannot change, and every published custom entry as text; the registration carries every published entry too, except `__proto__`, which `Object.assign` turns into a prototype change and so never copies |
| Services.CustomQuerySpec | lib/server/service.js:60-69 | setting the custom entries leaves the blocked keys untouched and leaves each published entry with one pair holding its text |
| Services.RegQueryIdempotent | lib/server/service.js:112-117 | normalizing an already normalized URL gives it back, so `unPublish` unregisters the registration `publish` registered |
| Services.CustomMetaOverridesRegistration | lib/server/service.js:61-76 | custom entries named `url` (or `interfaceName`) are not blocked, so they replace the registration's own fields |
| Services.ConvertResultSpec | lib/server/service.js:119-140 | the converted result is the result itself or a wrapper holding it under '$'; errors become 'java.lang.Exception'; protobuf results and results with a Java class are left alone; other results of a method with a return type are wrapped in its class and generic types, those of a method whose name `returnTypes` inherits from `Object.prototype` are wrapped with both undefined, and those of any other method are left alone; converting a converted result again changes nothing when it has a class |
| Services.CallResultSpec | lib/server/service.js:153-180 | a result code is set exactly when the method did not return a value, and the data is an error exactly then; a missing method gives '04' with the 'Can not find method' message; a thrown error keeps its own result code, else '02' for a SystemError and '01' otherwise, with the error's message |
| Services.TimedOutSpec | lib/server/service.js:183 | no deadline, NaN, or a zero deadline never times a call out; a deadline of n ms does from rt n on |
| Services.RpcService.constructor | lib/server/service.js:9-39 | the id is built from the options, the custom metadata is read from them, and `returnTypes` follows the API description's methods in order |
| Services.RpcService.NormalizeReg | lib/server/service.js:53-77 | the query gets the interface, version and group, then each published custom entry in key order; the registration is built from it; a null custom metadata throws |
| Services.RpcService.Publish | lib/server/service.js:85-89 | without a registry nothing happens; otherwise the normalized URL becomes `publishUrl` and its registration is returned for the registry to register |
| Services.RpcService.UnPublish | lib/server/service.js:112-117 | without a registry or a published URL nothing happens; otherwise the re-normalized registration is returned, and it is the one `publish` registered |
| Services.RpcService.Invoke | lib/server/service.js:142-196 | the response's meta and the replies sent become the invocation result's |
| Services.InvokeResultSpec | lib/server/service.js:142-196 | rt is recorded; past the deadline the code becomes '03' and nothing is sent; on a closed stream nothing is sent; answered in time, every failure leaves '02' and sends gRPC status 2 with its message, while a returned value keeps the code and sends the frame of the converted value's encoding |
| ZkRegistry.SplitAddressSpec | lib/registry/zk/data_client.js:24-33 | the root starts and ends with '/'; an address with no '/' after its first character is all client address, with root '/'; otherwise the client address is the part before the first '/', and the root is the rest with a '/' added only when it lacked one |
| ZkRegistry.PathsSpec | lib/registry/zk/data_client.js:131-137 | both paths lie under root + 'sofa-rpc/' + interface; a provider path is never a consumer path, and provider paths of different interfaces differ |
| ZkRegistry.RegisterSpec | lib/registry/zk/data_client.js:46-71 | for a registration with an interface and a URL, `register` succeeds exactly when `create` did or failed with NODE_EXISTS (-110), and `unRegister` exactly when `remove` did or failed with NO_NODE (-101); any other error is passed on; both name the same node |
| ZkRegistry.RegisterNeedsConfig | lib/registry/zk/data_client.js:47-62 | a registration without an interface name or URL fails its assertion, whatever ZooKeeper does |
| ZkRegistry.RemoveLastSpec | lib/registry/zk/data_client.js:119-120 | `removeListener` removes exactly one instance of the listener when there is one, and nothing otherwise |
| ZkRegistry.SubscribeSpec | lib/registry/zk/data_client.js:73-113 | a first subscriber gets nothing until the watch fires, and its subscription makes a null entry and starts watching the provider path; a later subscriber gets the cached list, even an empty one; the listener is always added last; other interfaces are untouched |
| ZkRegistry.UnSubscribeSpec | lib/registry/zk/data_client.js:115-129 | the interface keeps an entry only while listeners remain; the one removed is a single instance of the listener; removing all drops the entry and the watch; other interfaces keep theirs |
| ZkRegistry.SubscribeThenUnSubscribe | lib/registry/zk/data_client.js:73-129 | an interface's first subscription, undone by unsubscribing its listener, leaves the table as it was |
| ZkRegistry.ZookeeperRegistry.constructor | lib/registry/zk/data_client.js:21-36 | once the address has passed the assertion, the client address and root path are the split of the address option, and the subscription table starts empty |
| ZkRegistry.ZookeeperRegistry.Create | lib/registry/zk/data_client.js:18-36 | an empty address fails the constructor's assertion with its message; any other gives a new registry whose client address and root path are the split of the address, with an empty subscription table |
| ZkRegistry.ZookeeperRegistry.DoSubscribe | lib/registry/zk/data_client.js:73-113 | a config without an interface name fails its assertion and changes nothing; otherwise the table and the immediate delivery are the subscription's |
| ZkRegistry.ZookeeperRegistry.DoUnSubscribe | lib/registry/zk/data_client.js:115-129 | a config without an interface name fails its assertion and changes nothing; otherwise the table is the unsubscription's |
| ZkRegistry.ZookeeperRegistry.OnChildren | lib/registry/zk/data_client.js:82-90 | the decoded children become the interface's cached list, delivered in order to its listeners |
| Clients.FormatKeySplits | lib/client/client.js:110-120 | the key starts with the consumer's group key; when no part holds an '@' it splits back at '@' into the id, the group, and whichever of server host and application name were given |
| Clients.FormatKeyConflatesHostAndApp | lib/client/client.js:110-120 | the key does not tell a server host from an application name: options naming only a server host x and options naming only an application x share one cache entry |
| Clients.CacheLookupTwice | lib/client/client.js:85-108 | a successful lookup leaves its consumer under the key; asking again with the cache on returns the same consumer and changes nothing; with the cache off every call stores its new consumer; options failing the consumer's assertions leave the cache unchanged |
| Clients.RpcClient.constructor | lib/client/client.js:27-43 | a new client has an empty consumer cache and no middlewares, and uses the shared scheduler |
| Clients.RpcClient.CreateConsumer | lib/client/client.js:85-108 | the consumer returned and the new cache are those of the cache lookup; middlewares are unchanged |
| Clients.RpcClient.OnConsumerClose | lib/client/client.js:103-105 | the closed consumer's key leaves the cache, whatever it holds now |
| Clients.RpcClient.Use | lib/client/client.js:66-71 | an array of middlewares is appended element by element, anything else as one middleware; the cache is unchanged |
| Clients.RpcClient.Close | lib/client/client.js:45-52 | the shared scheduler stops every timer and the consumer cache is emptied |
| Consumers.OptionsError | lib/client/consumer.js:19-22 | no assertion fails exactly when an interface name, a logger, a server host or a registry, and a connection manager are given; otherwise the message is that of the first failing assertion, in the order interface name, logger, server host or registry, connection manager |
| Consumers.GroupKeySplits | lib/client/consumer.js:32-34 | for names without separators, the address group's key splits at '@' into the id and the group, and the id at ':' into interface and version; with the defaults the key is 'interface:1.0@SOFA' |
| Consumers.ParseUrlSpec | lib/client/consumer.js:142-149 | every parsed address has a port; a port the URL gave keeps the whole parse; a missing one becomes 12200, which is also appended to the host, and nothing else changes; a URL with a scheme is parsed as it is |
| Consumers.ParseUrlAddsScheme | lib/client/consumer.js:143 | a URL without '://' parses as if it had been written with 'bolt://' |
| Consumers.ServerHostAddressesSpec | lib/client/consumer.js:74 | one address per comma-separated piece, in order; the pieces join back to the server host, and every address has a port |
| Consumers.CreateRequestSpec | lib/client/consumer.js:91-101 | a request is built exactly when the method and arguments are given and the resulting timeout is not zero; it is signed with the consumer's id and carries the call's own timeout or else the consumer's, 3000 when neither is given |
| Consumers.SettleSpec | lib/client/consumer.js:115-133 | no provider gives '04' and the 'No provider' error; success takes the connection's code and value; a failure turns '00' into '01' and keeps any other code, so a failed call never ends with '00'; a failure throws unless `errorAsNull`, which returns null; only the result code and rt change |
| Consumers.RpcConsumer.constructor | lib/client/consumer.js:18-30 | the consumer holds the options, which passed the assertions, its address group's router and the shared health counters |
| Consumers.RpcConsumer.InitFromServerHost | lib/client/consumer.js:72-75 | the address group takes the parsed addresses of the server host's URLs |
| Consumers.RpcConsumer.Invoke | lib/client/consumer.js:107-140 | a request that cannot be built throws its assertion error, with no address and no connection; otherwise the request is routed through the address group: a connection is obtained exactly when an address is chosen and its entry was connected or becomes ready, an empty list chooses no address; the call is settled with the connection's answer and counted on the routing group's health counter |
| Consumers.RpcConsumer.Call | lib/client/consumer.js:111-139 | a connection is obtained exactly when an address is chosen and its entry was connected or becomes ready; without one the result code is '04' and the call throws the no-provider error, or returns null under `errorAsNull`; the routed request is settled and counted on the health counter of the group that routed it |
| Consumers.RpcConsumer.Complete | lib/client/consumer.js:115-139 | the outcome and the final request are the settlement's; without a connection the result code is '04' and the outcome is the no-provider error, or null under `errorAsNull`; the result code and rt are recorded in the newest bucket of the group's counter |
| Consumers.RpcConsumer.UpdateHealth | lib/client/consumer.js:135-137 | the call is counted in the newest bucket of the key's health counter, which is made if missing |
| Consumers.RpcConsumer.Close | lib/client/consumer.js:151-152 | the address group is closed and its address lists emptied |
| Routing.Router.constructor | lib/client/address_group.js:22-39 | a router pairs a valid group with a balancer last reset with the group's active list |
| Routing.Router.Create | lib/client/loadbalancer/index.js:17-24 | the group is built only when the factory accepts the `loadbalancerClass` option, with the factory's error otherwise; a new group is empty, open, has the initial pool size, and its balancer is of the kind the option names |
| Routing.Router.SetAddressList | lib/client/address_group.js:126-162 | the group's state is the assignment of the list, and the balancer is reset with the new active list (a fresh round-robin offset, or a ring built from the list) |
| Routing.Router.OnNext | lib/client/address_group.js:184-286 | the group's state and its reset and heartbeat lists follow the window's outcome; the balancer is reset exactly when the window reassigns the list |
| Routing.Router.RetryFaultAddresses | lib/client/address_group.js:305-320 | with no fault addresses nothing changes; otherwise the weights and faults are the reconnection outcome, refreshed when faults remain, and the balancer follows any reassignment |
| Routing.Router.GetConnection | lib/client/address_group.js:340-349 | the request is marked with the group's key; an empty list gives no address, a single-address list gives that address, a longer one the balancer's own choice under the group's weights; with non-negative weights a built-in balancer picks an address of the active list whenever there is one; for a chosen address a connection is returned exactly when its entry was connected or becomes ready, and the table is `AfterCreateAndGet` of the old one |
| Routing.Router.Close | lib/client/address_group.js:351-356 | the group's weights, faults and both address lists are emptied and the group is closed |

## Left out

- `lib/client/connection/grpc/constants.js` is not part of this model. gRPC status codes are taken to be 0 to 16, as the "gRPC over HTTP/2" protocol document numbers them.
- Balancing.LoadBalancer.Select: the balancer's `size` is taken to be the length of the active list, and `reset(list)` to return the active list the group settles on. `lib/client/loadbalancer/base.js:13-15` reads an `addressGroup._choosedSize` the group never sets, and `base.js:28` returns nothing. The callers (`address_group.js:127` and `:192`, `weight_rr.js:11`, `consistent_hash.js:10`) rely on the returned list. The elastic choice of the active list and pool size is therefore specified from the group's tests rather than from code: the count is the least of pool size, maximum and total; healthy hosts and hosts new to the full list come first, then known hosts of unknown health, then faulty ones, each tier keeping list order (the tests replace `_sortAddresses` by the identity, so ties keep list order). `_needElasticControl`, `_sortAddresses` and `adjustConnectionPoolSize` are not part of this model beyond that contract.
- Balancers: `getWeight` is read through a pure `weight` function. The fault-map write that `getWeight` makes for a host without a connection happens in `Addressing.AddressGroup.GetWeight`, not during a balancer's selection.
- A balancer class the application supplies is known only by name. Its `_doSelect` is a function parameter.
- MD5, `JSON.stringify`, `url.parse`, `decodeURI` and protobuf encoding and decoding are function parameters. The model does not compute them.
- The clock and `Math.random()` are parameters: `now`, and draws in [0, 1).
- Timers are not modelled. The scheduler returns the callback ids a tick runs, in order, and does not run closures.
- Socket, HTTP/2 and ZooKeeper I/O are not modelled: connecting, back-pressure on `push`, `cancelCall` / `_destroyHttp2Stream`, the stream's `_write` / `_final` and its 'end' event, `mkdirp` in `register`, and the creation of the consumer node in `subscribe`. Their outcomes are parameters.
- The ZooKeeper watch's 'error' event and the logger a registry requires are not modelled.
- Middleware is only stored: `use` appends it, and running it is not modelled.
- Servers.RpcServer.Start: only the first-call guard and the listening port are modelled. `publish` / `unPublish` fan-out to services, `close` and graceful shutdown are not.
- Services.RpcService.Publish: the wait for the registry's publish listener is not modelled. The registration URL is modelled.
- Clients.RpcClient.Close: stopping the shared scheduler and emptying the cache are modelled. The `consumer.close()` of each cached consumer (`client.js:47-49`, modelled alone as `Consumers.RpcConsumer.Close`) and the final `connectionManager.close()` (`client.js:51`) are not.
- Clients.RpcClient.Use: the `consumer.use(mw)` call on each cached consumer (`client.js:72-74`) is not modelled. `lib/client/consumer.js` declares no `use`, so what that call does is outside this model.
- Addressing.AddressGroup.Close: closing the group's health counter (`address_group.js:357-359`) is not modelled, and neither is it in `Routing.Router.Close` and `Consumers.RpcConsumer.Close`. The group does not hold its counter here: the counter's snapshots reach it as arguments of `OnNext`. Closing a counter is modelled by `Counters.HealthCounter.Close` and `Counters.CounterRegistry.Close`.
- Breakers.CircuitBreaker: the `status_changed` event emitted on every change of state (`circuit_breaker.js:48`) is not modelled. Listeners are outside this model; the new state is.
- Consumers.RpcConsumer.constructor: subscription to a registry and `ready()` are not modelled. Only addresses given by `serverHost` reach the group.
- `utils.md5` is a function parameter like MD5 elsewhere.
- Common.JsNumber: only optional white space, an optional sign and decimal digits are read. Fractions, hexadecimal and exponent forms count as NaN.
- Base64.Decode: characters outside both alphabets, '=' included, are skipped wherever they appear. Node stops at a '=' before the end, so a non-canonical text with padding in the middle may decode differently there. Every text `Encode` produces decodes the same way in both.
- GrpcMetadata: `set(key, undefined)` and other non-string, non-buffer values are left out. Values are text or bytes.
- GrpcMetadata.Metadata.Set: `set('__proto__', v)` replaces the prototype of the object that holds the metadata with the array `[v]`, and the model keeps only that no entry is stored. What the new prototype then lends to later calls is not modelled: its index '0' listed by `getMap`, `merge` and `toHttp2Headers`, and array methods found under names such as 'constructor'.
- GrpcMetadata.Metadata.Add: `add('__proto__', v)` throws because `Object.prototype` has no `push`. The model gives that error and no change, as it does for every inherited name without an own entry.
- GrpcMetadata.HeadersRoundTrip: requires that no key of the metadata is a name a plain object inherits. `GrpcMetadata.InheritedKeyDoesNotReadBack` shows that 'constructor' and '__proto__' do not read back.
- GrpcMetadata.AddAllValid: requires a key that is not an inherited name without an own entry. `GrpcMetadata.AddOne` states the failure for such a key.
- Balancing.Resolve: the name 'constructor' is refused when the group is built, with the TypeError its first `reset` throws. In JavaScript, `new Object(group)` returns the group itself as its own balancer: the group is built, and the first assignment of an address list throws (`address_group.js:127`).
- Services.ConvertResult: an API method named `__proto__` replaces the prototype of `returnTypes` instead of adding an entry. The model stores it as an entry. Lookups under the names that new prototype then lends, such as '$class' and 'generic', are not modelled.
- The enumeration order of a JavaScript object's keys is a parameter (`keys`), where the source walks an object: the custom metadata of a registration, and headers read back into metadata. The rule that integer-like keys come first is not modelled.
- Common.ToLower: only ASCII letters are folded. Metadata keys that pass validation are ASCII.
- GrpcCallStream.Frame: a payload is at most 2^31 - 1 bytes, the largest length the frame header is written with.
- GrpcCallStream.GetTimeout: the timeout is an integer number of milliseconds. The source divides floating-point numbers, and a fractional timeout is not modelled.
- Services.JsString: `String(value)` of a buffer, an array or a protobuf message is taken as the empty text. JavaScript writes the buffer's characters or the array's elements joined by ','.
- Services.CustomMetaOf: a `Buffer` given as `customMeta` is read as `{}`. JavaScript would enumerate its byte indices.
- Servers.ServiceOptionsOf: a service description whose version or group is present but `undefined` is taken as one that leaves them out. In JavaScript, `Object.assign` copies the `undefined` over the server's default.
- URL parsing and serialisation (`new URL`, `url.toString()`, the percent-encoding of query values) are not modelled. A URL is its base text and its query pairs in order, and `serialize` is a function parameter.
- Rates and weights are exact rationals, not IEEE doubles. `errorRate` and the multiples of a regulation pass are computed without floating-point error.
- Addressing.AddressGroup.ConnectAll: the attempts are made one after another in list order, each with its own `ready` outcome. `Promise.all` starts them all at once, so two addresses of one host share the first attempt's connection and its readiness; that interleaving is not modelled.

## Findings

| source | as written | input that shows it | evidently intended | confidence | as-written member | corrected member |
|---|---|---|---|---|---|---|
| lib/client/connection/grpc/call_stream.js:20-28 | `getTimeout` compares the amount in a unit with 10^8 before rounding it up, so an amount just below 10^8 rounds up to 100000000, which is nine digits | a timeout of 99999999001 ms gives "100000000S". The `grpc-timeout` grammar of the "gRPC over HTTP/2" protocol document allows at most 8 digits | round up first and compare with 10^8, so every timeout text has at most 8 digits, and a timeout beyond 99999999 hours is refused | not executed | GrpcCallStream.TimeoutTextNineDigits | GrpcCallStream.BoundedTimeoutTextSpec |
