/**
 * Health statistics of calls: the per-window bucket a counter writes into
 * and the immutable `HealthCounts` snapshot that buckets are folded into.
 */
module Metrics {
  import opened Common

  /**
   * One time slice of a health counter: how many calls ended with each
   * result code, and the sum of their response times.
   *   '00' success, '01' business error, '02' RPC error, '03' timeout,
   *   '04' routing failure.
   */
  datatype Bucket = Bucket(c00: nat, c01: nat, c02: nat, c03: nat, c04: nat, rt: nat)

  /** A bucket with every counter at zero. */
  function EmptyBucket(): Bucket { Bucket(0, 0, 0, 0, 0, 0) }

  /**
   * The bucket after one call with result code `code` and response time
   * `rt` (a missing rt adds 0, as `+= null` does). A code outside
   * '00'..'04' lands in a property the fold never reads, so it counts for
   * nothing.
   */
  function Record(b: Bucket, code: string, rt: Option<nat>): (r: Bucket)
    ensures r.rt == b.rt + (if rt.Some? then rt.value else 0)
    ensures CallCount(r) == CallCount(b) + (if IsResultCode(code) then 1 else 0)
    ensures ErrorCallCount(r) == ErrorCallCount(b) + (if IsResultCode(code) && code != "00" then 1 else 0)
  {
    var b' := b.(rt := b.rt + (if rt.Some? then rt.value else 0));
    if code == "00" then b'.(c00 := b.c00 + 1)
    else if code == "01" then b'.(c01 := b.c01 + 1)
    else if code == "02" then b'.(c02 := b.c02 + 1)
    else if code == "03" then b'.(c03 := b.c03 + 1)
    else if code == "04" then b'.(c04 := b.c04 + 1)
    else b'
  }

  predicate IsResultCode(code: string)
  {
    code == "00" || code == "01" || code == "02" || code == "03" || code == "04"
  }

  function CallCount(b: Bucket): nat
  {
    b.c00 + b.c01 + b.c02 + b.c03 + b.c04
  }

  function ErrorCallCount(b: Bucket): nat
  {
    b.c01 + b.c02 + b.c03 + b.c04
  }

  /** An immutable health snapshot: call count, failed-call count, summed response time. */
  datatype HealthCounts = HealthCounts(totalCount: nat, errorCount: nat, totalRT: nat)

  function Empty(): HealthCounts { HealthCounts(0, 0, 0) }

  /** Failed calls as a whole percentage, 0 when there were no calls. */
  function ErrorRate(h: HealthCounts): (r: int)
    ensures h.totalCount == 0 ==> r == 0
    ensures h.totalCount > 0 ==>
      r as real - 0.5 <= (h.errorCount * 100) as real / h.totalCount as real < r as real + 0.5
    ensures 0 <= r
    ensures h.errorCount <= h.totalCount ==> r <= 100
  {
    if h.totalCount == 0 then 0
    else
      var x := (h.errorCount * 100) as real / h.totalCount as real;
      assert h.errorCount <= h.totalCount ==> x <= 100.0;
      RoundHalfUp(x)
  }

  /** The mean response time in whole milliseconds, 0 when there were no calls. */
  function AvgRT(h: HealthCounts): (r: int)
    ensures h.totalCount == 0 ==> r == 0
    ensures h.totalCount > 0 ==>
      r as real - 0.5 <= h.totalRT as real / h.totalCount as real < r as real + 0.5
    ensures 0 <= r
  {
    if h.totalCount == 0 then 0 else RoundHalfUp(h.totalRT as real / h.totalCount as real)
  }

  /** A mean of 32.5 ms is reported as 33: halves round up. */
  lemma AvgRTRoundsHalfUp()
    ensures AvgRT(HealthCounts(100, 0, 3250)) == 33
  {
    assert 3250.0 / 100.0 == 32.5;
  }

  /** The snapshot with one more bucket folded in; `h` itself is a value and stays as it was. */
  function Plus(h: HealthCounts, b: Bucket): (r: HealthCounts)
    ensures r.totalCount == h.totalCount + CallCount(b)
    ensures r.errorCount == h.errorCount + ErrorCallCount(b)
    ensures r.totalRT == h.totalRT + b.rt
  {
    HealthCounts(
      h.totalCount + (b.c00 + b.c01 + b.c02 + b.c03 + b.c04),
      h.errorCount + (b.c01 + b.c02 + b.c03 + b.c04),
      h.totalRT + b.rt)
  }

  /** Folding never lets the failed calls outnumber the calls. */
  lemma PlusKeepsErrorBound(h: HealthCounts, b: Bucket)
    requires h.errorCount <= h.totalCount
    ensures Plus(h, b).errorCount <= Plus(h, b).totalCount
  {
  }

  /** `buckets.reduce(plus, empty)`: a left fold from the empty snapshot. */
  function Reduce(buckets: seq<Bucket>): HealthCounts
  {
    if buckets == [] then Empty() else Plus(Reduce(buckets[..|buckets| - 1]), buckets[|buckets| - 1])
  }

  /** Field-wise sum of two snapshots. */
  function Combine(x: HealthCounts, y: HealthCounts): HealthCounts
  {
    HealthCounts(x.totalCount + y.totalCount, x.errorCount + y.errorCount, x.totalRT + y.totalRT)
  }

  lemma ReduceSnoc(s: seq<Bucket>, x: Bucket)
    ensures Reduce(s + [x]) == Plus(Reduce(s), x)
  {
    assert (s + [x])[..|s|] == s;
  }

  lemma {:induction false} ReduceConcat(a: seq<Bucket>, b: seq<Bucket>)
    ensures Reduce(a + b) == Combine(Reduce(a), Reduce(b))
    decreases |b|
  {
    if b == [] {
      assert a + b == a;
    } else {
      var init, last := b[..|b| - 1], b[|b| - 1];
      assert b == init + [last];
      assert a + b == (a + init) + [last];
      ReduceSnoc(a + init, last);
      ReduceSnoc(init, last);
      ReduceConcat(a, init);
    }
  }

  /** A fold of buckets never counts more failed calls than calls. */
  lemma {:induction false} ReduceErrorBound(buckets: seq<Bucket>)
    ensures Reduce(buckets).errorCount <= Reduce(buckets).totalCount
    decreases |buckets|
  {
    if buckets != [] {
      ReduceErrorBound(buckets[..|buckets| - 1]);
    }
  }

  lemma MultisetRemove(b: seq<Bucket>, k: nat)
    requires k < |b|
    ensures multiset(b[..k] + b[k + 1..]) == multiset(b) - multiset{b[k]}
  {
    assert b == b[..k] + [b[k]] + b[k + 1..];
  }

  lemma PlusCombine(a: HealthCounts, c: HealthCounts, x: Bucket)
    ensures Plus(Combine(a, c), x) == Combine(Plus(a, x), c)
  {
  }

  lemma ReduceMiddle(p: seq<Bucket>, x: Bucket, q: seq<Bucket>)
    ensures Reduce(p + [x] + q) == Plus(Reduce(p + q), x)
  {
    ReduceConcat(p + [x], q);
    ReduceSnoc(p, x);
    ReduceConcat(p, q);
    PlusCombine(Reduce(p), Reduce(q), x);
  }

  /** Taking one bucket out of the fold and adding it back last changes nothing. */
  lemma ReduceRemove(b: seq<Bucket>, k: nat)
    requires k < |b|
    ensures Reduce(b) == Plus(Reduce(b[..k] + b[k + 1..]), b[k])
  {
    assert b == b[..k] + [b[k]] + b[k + 1..];
    ReduceMiddle(b[..k], b[k], b[k + 1..]);
  }

  /** The fold gives the same totals whatever order the buckets come in. */
  lemma {:induction false} ReduceOrderIndependent(a: seq<Bucket>, b: seq<Bucket>)
    requires multiset(a) == multiset(b)
    ensures Reduce(a) == Reduce(b)
    decreases |a|
  {
    if a == [] {
      assert |b| == |multiset(b)| == 0;
    } else {
      var x := a[|a| - 1];
      var a' := a[..|a| - 1];
      assert a == a' + [x];
      assert multiset(a') == multiset(a) - multiset{x};
      assert x in multiset(b);
      var k :| 0 <= k < |b| && b[k] == x;
      MultisetRemove(b, k);
      ReduceOrderIndependent(a', b[..k] + b[k + 1..]);
      ReduceSnoc(a', x);
      ReduceRemove(b, k);
    }
  }

  /** `toString()`: 'HealthCounts[e / t : r%, avg rt : a ms]'. */
  function ToString(h: HealthCounts): (s: string)
    ensures |s| > |"HealthCounts["| && s[..|"HealthCounts["|] == "HealthCounts["
    ensures EndsWith(s, "ms]")
  {
    "HealthCounts[" + IntToString(h.errorCount) + " / " + IntToString(h.totalCount) + " : " +
      IntToString(ErrorRate(h)) + "%, avg rt : " + IntToString(AvgRT(h)) + "ms]"
  }

  /** The text of the empty snapshot. */
  lemma EmptyToString()
    ensures ToString(Empty()) == "HealthCounts[0 / 0 : 0%, avg rt : 0ms]"
  {
    var e := Empty();
    assert ErrorRate(e) == 0 && AvgRT(e) == 0;
    assert IntToString(0) == "0";
    assert ToString(e) == "HealthCounts[" + "0" + " / " + "0" + " : " + "0" + "%, avg rt : " + "0" + "ms]";
  }
}
