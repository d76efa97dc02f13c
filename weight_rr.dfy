/**
 * The weighted round-robin balancer: a cursor walks the active list; the
 * address under it is taken at once at full weight, never at weight 0, and
 * otherwise when its weight reaches a draw in [0, 100). After as many
 * refusals as there are addresses the address under the cursor is taken
 * anyway. A second, "filter" mode starts at a random index instead.
 *
 * Weights are read through `weight` (the address group's `getWeight`);
 * `Math.random()` draws are passed in: `u` for the cursor, `draws[k]` for
 * the k-th try.
 */
module RoundRobinBalancing {
  import opened Common
  import opened RandomBalancing

  /** `DEFAULT_WEIGHT` */
  const FullWeight: real := 100.0

  /** Whether a candidate of weight `w` is taken on a try whose draw is `u`. */
  predicate Accepts(w: real, u: real)
  {
    if w == FullWeight then true
    else if w == 0.0 then false
    else w >= Draw(u, FullWeight) as real
  }

  /** Full weight always passes, weight 0 never; any other weight passes exactly when it reaches the draw. */
  lemma AcceptsRule(w: real, u: real)
    ensures w == FullWeight ==> Accepts(w, u)
    ensures w == 0.0 ==> !Accepts(w, u)
    ensures w != FullWeight && w != 0.0 ==> (Accepts(w, u) <==> Draw(u, FullWeight) as real <= w)
  {
  }

  /** A heavier candidate passes whenever a lighter non-zero one does, up to full weight. */
  lemma AcceptsMonotone(w1: real, w2: real, u: real)
    requires 0.0 < w1 <= w2 <= FullWeight && Accepts(w1, u)
    ensures Accepts(w2, u)
  {
  }

  /** The index tried on try `k` of a round that starts at `start`. */
  function TryIndex(start: nat, k: nat, n: nat): (i: nat)
    requires n > 0
    ensures i < n
  {
    (start + k) % n
  }

  /** The first try from `k` on, in a round starting at `start`, whose candidate is taken. */
  function FirstAccepted(addrs: seq<Address>, weight: Address -> real, start: nat, draws: seq<real>, k: nat): (r: Option<nat>)
    requires 0 < |addrs| <= |draws| && k <= |addrs|
    ensures r.Some? ==> k <= r.value < |addrs|
    decreases |addrs| - k
  {
    if k == |addrs| then None
    else if Accepts(weight(addrs[TryIndex(start, k, |addrs|)]), draws[k]) then Some(k)
    else FirstAccepted(addrs, weight, start, draws, k + 1)
  }

  /** The round stops at the first try whose candidate is taken; no round means every try was refused. */
  lemma {:induction false} FirstAcceptedIsFirst(addrs: seq<Address>, weight: Address -> real, start: nat,
                                               draws: seq<real>, k: nat)
    requires 0 < |addrs| <= |draws| && k <= |addrs|
    ensures match FirstAccepted(addrs, weight, start, draws, k)
      case Some(j) =>
        Accepts(weight(addrs[TryIndex(start, j, |addrs|)]), draws[j]) &&
        forall t :: k <= t < j ==> !Accepts(weight(addrs[TryIndex(start, t, |addrs|)]), draws[t])
      case None =>
        forall t :: k <= t < |addrs| ==> !Accepts(weight(addrs[TryIndex(start, t, |addrs|)]), draws[t])
    decreases |addrs| - k
  {
    if k < |addrs| && !Accepts(weight(addrs[TryIndex(start, k, |addrs|)]), draws[k]) {
      FirstAcceptedIsFirst(addrs, weight, start, draws, k + 1);
    }
  }

  /** The cursor moved on by one from try `k`'s index is try `k + 1`'s. */
  lemma TryIndexSucc(start: nat, k: nat, n: nat)
    requires n > 0
    ensures (TryIndex(start, k, n) + 1) % n == TryIndex(start, k + 1, n)
  {
    ModSucc(start + k, n);
  }

  /** One try of a round: a taken candidate ends the round there, a refused one leaves the rest of it. */
  lemma TryStep(addrs: seq<Address>, weight: Address -> real, start: nat, draws: seq<real>, k: nat, a: Option<Address>)
    requires 0 < |addrs| <= |draws| && k < |addrs|
    requires a == if Accepts(weight(addrs[TryIndex(start, k, |addrs|)]), draws[k]) then Some(addrs[TryIndex(start, k, |addrs|)]) else None
    ensures a.Some? ==> FirstAccepted(addrs, weight, start, draws, k) == Some(k) && a.value == addrs[TryIndex(start, k, |addrs|)]
    ensures a.None? ==> FirstAccepted(addrs, weight, start, draws, k) == FirstAccepted(addrs, weight, start, draws, k + 1)
  {
  }

  /** With every address at full weight the round takes the address under the cursor at once. */
  lemma AllFullTakesCursor(addrs: seq<Address>, weight: Address -> real, start: nat, draws: seq<real>)
    requires 0 < |addrs| <= |draws| && start < |addrs|
    requires forall a :: a in addrs ==> weight(a) == FullWeight
    ensures FirstAccepted(addrs, weight, start, draws, 0) == Some(0)
  {
  }

  /** With every address at weight 0 no try succeeds. */
  lemma {:induction false} AllZeroRefused(addrs: seq<Address>, weight: Address -> real, start: nat,
                                         draws: seq<real>, k: nat)
    requires 0 < |addrs| <= |draws| && k <= |addrs|
    requires forall a :: a in addrs ==> weight(a) == 0.0
    ensures FirstAccepted(addrs, weight, start, draws, k) == None
    decreases |addrs| - k
  {
    if k < |addrs| {
      AllZeroRefused(addrs, weight, start, draws, k + 1);
    }
  }

  /** The balancer's cursors: `_offset`, `filter_offset` and the filter flag. */
  datatype Cursors = Cursors(offset: nat, filterOffset: nat, inFilter: bool)

  /**
   * What `_doSelect` over `addrs` picks from the cursors `before`, and the
   * cursors it leaves: in filter mode the address at a drawn start, with
   * the filter flag cleared and the cursor just past it; otherwise the
   * first accepted try from the cursor, with the cursor past it, or after a
   * whole round of refusals the cursor's own address, the cursor unmoved.
   */
  predicate Picked(addrs: seq<Address>, weight: Address -> real, draws: seq<real>, u: real,
                   before: Cursors, address: Address, after: Cursors)
    requires 0 < |addrs| <= |draws|
    requires !before.inFilter ==> before.offset < |addrs|
  {
    if before.inFilter then
      !after.inFilter && after.filterOffset == Draw(u, |addrs| as real) && after.filterOffset < |addrs| &&
      address == addrs[after.filterOffset] && after.offset == (after.filterOffset + 1) % |addrs|
    else
      after.inFilter == before.inFilter && after.filterOffset == before.filterOffset &&
      match FirstAccepted(addrs, weight, before.offset, draws, 0)
      case Some(k) =>
        address == addrs[TryIndex(before.offset, k, |addrs|)] && after.offset == TryIndex(before.offset, k + 1, |addrs|)
      case None =>
        address == addrs[before.offset] && after.offset == before.offset
  }

  class WeightRoundRobin {
    /** `_offset`, the cursor */
    var offset: nat
    /** `filter_offset`, the start of a filter-mode round */
    var filterOffset: nat
    /** `inBalancerFilterFilter`, set from outside to ask for one filter-mode selection */
    var inFilter: bool

    /** The cursors as one value. */
    function State(): Cursors
      reads this
    {
      Cursors(offset, filterOffset, inFilter)
    }

    /** The balancer as constructed: no list yet, so no cursor drawn. */
    constructor()
      ensures offset == 0 && filterOffset == 0 && !inFilter
    {
      offset := 0;
      filterOffset := 0;
      inFilter := false;
    }

    /** `reset(val)` with the active list it settles on: the cursor is drawn anew. */
    method Reset(active: seq<Address>, u: real)
      requires 0.0 <= u < 1.0
      modifies this
      ensures offset == Draw(u, |active| as real)
      ensures |active| > 0 ==> offset < |active|
      ensures filterOffset == old(filterOffset) && inFilter == old(inFilter)
    {
      if |active| > 0 {
        DrawRange(u, |active| as real);
      }
      offset := Draw(u, |active| as real);
    }

    /** `_rr`: the address under the cursor, taken or not; the cursor moves on by one. */
    method Rr(addrs: seq<Address>, weight: Address -> real, u: real) returns (r: Option<Address>)
      requires offset < |addrs|
      modifies this
      ensures offset == (old(offset) + 1) % |addrs|
      ensures r == if Accepts(weight(addrs[old(offset)]), u) then Some(addrs[old(offset)]) else None
      ensures filterOffset == old(filterOffset) && inFilter == old(inFilter)
    {
      var address := addrs[offset];
      offset := (offset + 1) % |addrs|;
      var w := weight(address);
      if w == FullWeight {
        return Some(address);
      }
      if w == 0.0 {
        return None;
      }
      var randNum := Draw(u, FullWeight);
      r := if w >= randNum as real then Some(address) else None;
    }

    /**
     * `_doSelect` over the active list: in filter mode a filter round;
     * otherwise at most one try per address, then the address under the
     * cursor, which after a whole round of refusals is where it started.
     */
    method DoSelect(addrs: seq<Address>, weight: Address -> real, draws: seq<real>, u: real) returns (address: Address)
      requires 0 < |addrs| <= |draws| && 0.0 <= u < 1.0
      requires !inFilter ==> offset < |addrs|
      modifies this
      ensures address in addrs && offset < |addrs|
      ensures !old(inFilter) ==>
        inFilter == old(inFilter) && filterOffset == old(filterOffset) &&
        match FirstAccepted(addrs, weight, old(offset), draws, 0)
        case Some(k) =>
          address == addrs[TryIndex(old(offset), k, |addrs|)] && offset == TryIndex(old(offset), k + 1, |addrs|)
        case None =>
          address == addrs[old(offset)] && offset == old(offset)
      ensures old(inFilter) ==>
        !inFilter && filterOffset == Draw(u, |addrs| as real) && filterOffset < |addrs| &&
        address == addrs[filterOffset] && offset == (filterOffset + 1) % |addrs|
      ensures Picked(addrs, weight, draws, u, old(State()), address, State())
    {
      if inFilter {
        address := FilterDoSelect(addrs, weight, draws, u);
      } else {
        address := RoundSelect(addrs, weight, draws);
      }
    }

    /** `_doSelect` outside filter mode: one round of tries from the cursor. */
    method RoundSelect(addrs: seq<Address>, weight: Address -> real, draws: seq<real>) returns (address: Address)
      requires 0 < |addrs| <= |draws|
      requires offset < |addrs|
      modifies this
      ensures inFilter == old(inFilter) && filterOffset == old(filterOffset)
      ensures match FirstAccepted(addrs, weight, old(offset), draws, 0)
        case Some(k) =>
          address == addrs[TryIndex(old(offset), k, |addrs|)] && offset == TryIndex(old(offset), k + 1, |addrs|)
        case None =>
          address == addrs[old(offset)] && offset == old(offset)
    {
      ghost var start := offset;
      var k := 0;
      while k < |addrs|
        invariant 0 <= k <= |addrs|
        invariant offset == TryIndex(start, k, |addrs|)
        invariant FirstAccepted(addrs, weight, start, draws, 0) == FirstAccepted(addrs, weight, start, draws, k)
        invariant filterOffset == old(filterOffset) && inFilter == old(inFilter)
      {
        var a := Rr(addrs, weight, draws[k]);
        TryIndexSucc(start, k, |addrs|);
        TryStep(addrs, weight, start, draws, k, a);
        if a.Some? {
          return a.value;
        }
        k := k + 1;
      }
      ModUnique(start + |addrs|, |addrs|, 1, start);
      address := addrs[offset];
    }

    /**
     * `filter_doSelect`: clears the filter flag and draws a start index;
     * every try examines that same address, because `filter_rr` moves
     * `_offset` rather than `filter_offset`, so the address at the start
     * index is returned whatever the weights are.
     */
    method FilterDoSelect(addrs: seq<Address>, weight: Address -> real, draws: seq<real>, u: real) returns (address: Address)
      requires 0 < |addrs| <= |draws| && 0.0 <= u < 1.0
      modifies this
      ensures !inFilter && filterOffset == Draw(u, |addrs| as real) && filterOffset < |addrs|
      ensures address == addrs[filterOffset]
      ensures offset == (filterOffset + 1) % |addrs|
    {
      inFilter := false;
      DrawRange(u, |addrs| as real);
      filterOffset := Draw(u, |addrs| as real);
      var k := 0;
      while k < |addrs|
        invariant 0 <= k <= |addrs|
        invariant !inFilter && filterOffset == Draw(u, |addrs| as real)
        invariant k > 0 ==> offset == (filterOffset + 1) % |addrs|
      {
        var a := FilterRr(addrs, weight, draws[k]);
        if a.Some? {
          return a.value;
        }
        k := k + 1;
      }
      address := addrs[filterOffset];
    }

    /** `filter_rr`: the address at `filter_offset`; `_offset` is set past it. */
    method FilterRr(addrs: seq<Address>, weight: Address -> real, u: real) returns (r: Option<Address>)
      requires filterOffset < |addrs|
      modifies this
      ensures filterOffset == old(filterOffset) && inFilter == old(inFilter)
      ensures offset == (filterOffset + 1) % |addrs|
      ensures r == if Accepts(weight(addrs[filterOffset]), u) then Some(addrs[filterOffset]) else None
    {
      var address := addrs[filterOffset];
      offset := (filterOffset + 1) % |addrs|;
      var w := weight(address);
      if w == FullWeight {
        return Some(address);
      }
      if w == 0.0 {
        return None;
      }
      var randNum := Draw(u, FullWeight);
      r := if w >= randNum as real then Some(address) else None;
    }
  }
}
