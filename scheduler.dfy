/**
 * The shared interval scheduler: one timer per period, and for each period
 * an ordered list of callbacks that run, in list order, whenever that
 * period's timer fires. A callback is identified by the number `Interval`
 * hands out for it; cancelling is done with that number.
 */
module Scheduling {
  import opened Common

  /** `s` without any occurrence of `x`, the rest in the same order. */
  function Without(s: seq<nat>, x: nat): (r: seq<nat>)
    ensures x !in r
    ensures forall y :: y != x ==> (y in r <==> y in s)
    ensures |r| <= |s|
    ensures x !in s ==> r == s
  {
    if s == [] then []
    else if s[0] == x then Without(s[1..], x)
    else [s[0]] + Without(s[1..], x)
  }

  /** Cancelling a callback just registered at the back restores the list. */
  lemma WithoutAppended(s: seq<nat>, x: nat)
    requires x !in s
    ensures Without(s + [x], x) == s
  {
    WithoutConcat(s, [x], x);
  }

  /** Cancelling a callback just registered at the front restores the list. */
  lemma WithoutPrepended(s: seq<nat>, x: nat)
    requires x !in s
    ensures Without([x] + s, x) == s
  {
    assert ([x] + s)[1..] == s;
  }

  lemma {:induction false} WithoutConcat(a: seq<nat>, b: seq<nat>, x: nat)
    ensures Without(a + b, x) == Without(a, x) + Without(b, x)
    decreases |a|
  {
    if a != [] {
      assert (a + b)[1..] == a[1..] + b;
      WithoutConcat(a[1..], b, x);
    } else {
      assert a + b == b;
    }
  }

  predicate Distinct(s: seq<nat>)
  {
    forall i, j :: 0 <= i < j < |s| ==> s[i] != s[j]
  }

  /** A new number put at either end of a list without repeats leaves a list without repeats holding the old ones and it. */
  lemma Extended(s: seq<nat>, x: nat, prepend: bool)
    requires Distinct(s) && x !in s
    ensures var t := if prepend then [x] + s else s + [x];
      Distinct(t) && t != [] && forall y :: y in t <==> y == x || y in s
  {
    var t := if prepend then [x] + s else s + [x];
    forall i, j | 0 <= i < j < |t|
      ensures t[i] != t[j]
    {
      if prepend && i == 0 {
        assert t[j] == s[j - 1];
      } else if !prepend && j == |s| {
        assert t[i] == s[i];
      }
    }
  }

  /**
   * The tables of a scheduler: a period has a timer exactly when it has
   * callbacks; callback numbers are unique and all below `next`.
   */
  ghost predicate Table(timers: map<nat, nat>, listeners: map<nat, seq<nat>>, next: nat)
  {
    timers.Keys == listeners.Keys &&
    (forall p :: p in listeners ==> listeners[p] != [] && Distinct(listeners[p])) &&
    (forall p, id :: p in listeners && id in listeners[p] ==> id < next) &&
    (forall p, q, id :: p in listeners && q in listeners && id in listeners[p] && id in listeners[q] ==> p == q)
  }

  /** Registering the next number for a period, with a timer for the period, keeps the tables consistent. */
  lemma TableAdd(timers: map<nat, nat>, listeners: map<nat, seq<nat>>, next: nat, period: nat,
                 timers': map<nat, nat>, prepend: bool)
    requires Table(timers, listeners, next)
    requires timers'.Keys == timers.Keys + {period}
    ensures var current := if period in listeners then listeners[period] else [];
      Table(timers', listeners[period := if prepend then [next] + current else current + [next]], next + 1)
  {
    var current := if period in listeners then listeners[period] else [];
    var updated := if prepend then [next] + current else current + [next];
    Extended(current, next, prepend);
    var l := listeners[period := updated];
    forall p, q, id | p in l && q in l && id in l[p] && id in l[q]
      ensures p == q
    {
      if p != period && q != period {
        assert id in listeners[p] && id in listeners[q];
      }
    }
  }

  class Scheduler {
    /** period -> id of the timer that fires every `period` ms */
    var timers: map<nat, nat>
    /** period -> callbacks of the event 'period_<period>', in call order */
    var listeners: map<nat, seq<nat>>
    var nextTimerId: nat
    var nextListenerId: nat

    /**
     * A period has a timer exactly when it has callbacks; callback numbers
     * are unique and all below `nextListenerId`.
     */
    ghost predicate Valid()
      reads this
    {
      Table(timers, listeners, nextListenerId)
    }

    constructor()
      ensures Valid()
      ensures timers == map[] && listeners == map[]
    {
      timers := map[];
      listeners := map[];
      nextTimerId := 0;
      nextListenerId := 0;
    }

    /** The callbacks run, in order, when the timer of `period` fires. */
    function Fire(period: nat): (r: seq<nat>)
      reads this
      requires Valid()
      ensures r == [] <==> period !in timers
      ensures Distinct(r)
    {
      if period in listeners then listeners[period] else []
    }

    /**
     * `interval(fn, period, prepend)`: registers a new callback for `period`,
     * at the front of its list when `prepend`, at the back otherwise; a timer
     * is started only if the period has none yet.
     */
    method Interval(period: nat, prepend: bool) returns (id: nat)
      requires Valid()
      modifies this
      ensures Valid()
      ensures id == old(nextListenerId) && id !in old(Fire(period))
      ensures period in old(timers) ==> timers == old(timers) && nextTimerId == old(nextTimerId)
      ensures period !in old(timers) ==>
        timers == old(timers)[period := old(nextTimerId)] && nextTimerId == old(nextTimerId) + 1
      ensures Fire(period) == if prepend then [id] + old(Fire(period)) else old(Fire(period)) + [id]
      ensures forall q :: q != period ==> Fire(q) == old(Fire(q))
      ensures listeners == old(listeners)[period := Fire(period)]
    {
      id := nextListenerId;
      var current := Fire(period);
      var timers' := if period in timers then timers else timers[period := nextTimerId];
      TableAdd(timers, listeners, id, period, timers', prepend);
      if period !in timers {
        nextTimerId := nextTimerId + 1;
      }
      timers := timers';
      var updated := if prepend then [id] + current else current + [id];
      listeners := listeners[period := updated];
      nextListenerId := nextListenerId + 1;
    }

    /**
     * The cancel function `interval` returns: removes callback `id` from
     * `period`'s list and stops the period's timer once its list is empty.
     * Other periods are untouched.
     */
    method Cancel(period: nat, id: nat)
      requires Valid()
      modifies this
      ensures Valid()
      ensures Fire(period) == Without(old(Fire(period)), id)
      ensures forall q :: q != period ==> Fire(q) == old(Fire(q))
      ensures Fire(period) == [] ==> timers == old(timers) - {period}
      ensures Fire(period) != [] ==> timers == old(timers)
      ensures nextListenerId == old(nextListenerId)
    {
      var rest := Without(Fire(period), id);
      if rest == [] {
        listeners := listeners - {period};
        timers := timers - {period};
      } else {
        assert Distinct(rest) by { WithoutDistinct(Fire(period), id); }
        listeners := listeners[period := rest];
      }
    }

    /** `clear()`: stops every timer and drops every callback. */
    method Clear()
      requires Valid()
      modifies this
      ensures Valid()
      ensures timers == map[] && listeners == map[]
      ensures forall p :: Fire(p) == []
    {
      timers := map[];
      listeners := map[];
    }
  }

  lemma {:induction false} WithoutDistinct(s: seq<nat>, x: nat)
    requires Distinct(s)
    ensures Distinct(Without(s, x))
    decreases |s|
  {
    if s != [] {
      assert Distinct(s[1..]);
      WithoutDistinct(s[1..], x);
      if s[0] != x {
        assert s[0] !in s[1..];
      }
    }
  }

  /** The process-wide scheduler, created on first use. */
  class SchedulerHolder {
    var instance: Option<Scheduler>

    constructor()
      ensures instance == None
    {
      instance := None;
    }

    /** `Scheduler.instance`: every call after the first returns the same scheduler. */
    method Instance() returns (s: Scheduler)
      modifies this
      ensures old(instance).Some? ==> s == old(instance).value
      ensures old(instance).None? ==> fresh(s) && s.Valid() && s.timers == map[]
      ensures instance == Some(s)
    {
      if instance.None? {
        s := new Scheduler();
        instance := Some(s);
      } else {
        s := instance.value;
      }
    }
  }
}
