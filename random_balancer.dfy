/**
 * The weighted random balancer: when the weights of the candidates differ
 * (and are not all zero) a draw in [0, total weight) is located among the
 * cumulative weights; otherwise an index is drawn uniformly. The weight of
 * an address is read through `weight`, the address group's `getWeight` at
 * the time of the call; `u` in [0, 1) is the draw of `Math.random()`.
 */
module RandomBalancing {
  import opened Common

  /** The weights of `addrs`, in list order. */
  function Weights(addrs: seq<Address>, weight: Address -> real): (ws: seq<real>)
    ensures |ws| == |addrs|
    ensures forall i :: 0 <= i < |addrs| ==> ws[i] == weight(addrs[i])
  {
    seq(|addrs|, i requires 0 <= i < |addrs| => weight(addrs[i]))
  }

  /** w0 + … + w(n-1), summed left to right. */
  function Sum(ws: seq<real>): real
  {
    if ws == [] then 0.0 else Sum(ws[..|ws| - 1]) + ws[|ws| - 1]
  }

  lemma SumSnoc(ws: seq<real>, i: nat)
    requires i < |ws|
    ensures Sum(ws[..i + 1]) == Sum(ws[..i]) + ws[i]
  {
    assert ws[..i + 1][..i] == ws[..i];
  }

  /** A sum of non-negative weights grows along the list. */
  lemma {:induction false} SumMonotone(ws: seq<real>, i: nat, j: nat)
    requires i <= j <= |ws|
    requires forall k :: 0 <= k < |ws| ==> ws[k] >= 0.0
    ensures Sum(ws[..i]) <= Sum(ws[..j])
    decreases j - i
  {
    if i < j {
      SumSnoc(ws, j - 1);
      SumMonotone(ws, i, j - 1);
    }
  }

  /** The cumulative weight w0 + … + wi. */
  function Through(ws: seq<real>, i: nat): real
    requires i < |ws|
  {
    Sum(ws[..i + 1])
  }

  /** Every two neighbours are equal: `isWeightSame` after the scan. */
  predicate AllSame(ws: seq<real>)
  {
    forall k :: 0 < k < |ws| ==> ws[k] == ws[k - 1]
  }

  lemma AllSameSnoc(ws: seq<real>, i: nat)
    requires i < |ws|
    ensures AllSame(ws[..i + 1]) <==> AllSame(ws[..i]) && (i == 0 || ws[i] == ws[i - 1])
  {
    var p, q := ws[..i], ws[..i + 1];
    if AllSame(q) {
      forall k | 0 < k < |p|
        ensures p[k] == p[k - 1]
      {
        assert p[k] == q[k] && p[k - 1] == q[k - 1];
      }
      if i > 0 {
        assert q[i] == q[i - 1];
      }
    }
  }

  /**
   * The index the weighted draw `offset` lands on: the first `i` from `from`
   * on whose cumulative weight w0 + … + wi exceeds it.
   */
  function Landing(ws: seq<real>, offset: int, from: nat): (r: Option<nat>)
    requires from <= |ws|
    ensures r.Some? ==> from <= r.value < |ws|
    decreases |ws| - from
  {
    if from == |ws| then None
    else if (offset as real) - Sum(ws[..from + 1]) < 0.0 then Some(from)
    else Landing(ws, offset, from + 1)
  }

  /**
   * The landing index is exactly the first index whose cumulative weight
   * exceeds the draw.
   */
  lemma {:induction false} LandingIsFirst(ws: seq<real>, offset: int, from: nat)
    requires from <= |ws|
    ensures Landing(ws, offset, from).Some? ==>
      var i := Landing(ws, offset, from).value;
      (offset as real) < Through(ws, i) &&
      forall j :: from <= j < i ==> (offset as real) >= Through(ws, j)
    ensures Landing(ws, offset, from).None? ==>
      forall j :: from <= j < |ws| ==> (offset as real) >= Through(ws, j)
    decreases |ws| - from
  {
    if from < |ws| && (offset as real) - Sum(ws[..from + 1]) >= 0.0 {
      LandingIsFirst(ws, offset, from + 1);
    }
  }

  /** With non-negative weights a draw below the total always lands. */
  lemma Lands(ws: seq<real>, offset: int)
    requires forall k :: 0 <= k < |ws| ==> ws[k] >= 0.0
    requires 0 <= offset && (offset as real) < Sum(ws)
    ensures Landing(ws, offset, 0).Some?
  {
    LandingIsFirst(ws, offset, 0);
    assert ws != [];
    assert ws[..|ws|] == ws;
    assert Through(ws, |ws| - 1) == Sum(ws);
  }

  /** A non-negative draw never lands on an address of weight 0. */
  lemma ZeroWeightNeverLands(ws: seq<real>, offset: int, i: nat)
    requires forall k :: 0 <= k < |ws| ==> ws[k] >= 0.0
    requires 0 <= offset && i < |ws| && ws[i] == 0.0
    ensures Landing(ws, offset, 0) != Some(i)
  {
    LandingIsFirst(ws, offset, 0);
    SumSnoc(ws, i);
    if i == 0 {
      assert ws[..0] == [];
    } else {
      assert Through(ws, i - 1) == Sum(ws[..i]);
    }
  }

  /** `utility.random(max)`: `Math.floor(Math.random() * max)`. */
  function Draw(u: real, max: real): int
  {
    Floor(u * max)
  }

  lemma DrawRange(u: real, max: real)
    requires 0.0 <= u < 1.0 && max > 0.0
    ensures 0 <= Draw(u, max) && (Draw(u, max) as real) < max
  {
    assert u * max < max;
  }

  /**
   * `_doSelect` as a function of the weights and the draw: the landing
   * address when the total is positive and the weights differ, else the
   * address at a uniform index (none for an empty list).
   */
  function Choice(addrs: seq<Address>, weight: Address -> real, u: real): Option<Address>
  {
    var ws := Weights(addrs, weight);
    if Sum(ws) > 0.0 && !AllSame(ws) then
      match Landing(ws, Draw(u, Sum(ws)), 0)
      case Some(i) => Some(addrs[i])
      case None => None
    else
      var index := Draw(u, |addrs| as real);
      if 0 <= index < |addrs| then Some(addrs[index]) else None
  }

  /**
   * With non-negative weights and an in-range draw the choice is always one
   * of the addresses, and never one whose weight is 0 while the weights
   * differ.
   */
  lemma ChoiceInList(addrs: seq<Address>, weight: Address -> real, u: real)
    requires 0.0 <= u < 1.0 && |addrs| > 0
    requires forall a :: a in addrs ==> weight(a) >= 0.0
    ensures Choice(addrs, weight, u).Some? && Choice(addrs, weight, u).value in addrs
    ensures var ws := Weights(addrs, weight);
      Sum(ws) > 0.0 && !AllSame(ws) ==> weight(Choice(addrs, weight, u).value) != 0.0
  {
    var ws := Weights(addrs, weight);
    if Sum(ws) > 0.0 && !AllSame(ws) {
      var offset := Draw(u, Sum(ws));
      DrawRange(u, Sum(ws));
      assert ws[..|ws|] == ws;
      Lands(ws, offset);
      var i := Landing(ws, offset, 0).value;
      if weight(addrs[i]) == 0.0 {
        ZeroWeightNeverLands(ws, offset, i);
      }
    } else {
      DrawRange(u, |addrs| as real);
    }
  }

  /** Equal weights (all 100, say) mean the uniform draw decides. */
  lemma SameWeightsAreUniform(addrs: seq<Address>, weight: Address -> real, u: real)
    requires 0.0 <= u < 1.0 && |addrs| > 0
    requires forall a, b :: a in addrs && b in addrs ==> weight(a) == weight(b)
    ensures var i := Floor(u * |addrs| as real);
      0 <= i < |addrs| && Choice(addrs, weight, u) == Some(addrs[i])
  {
    var ws := Weights(addrs, weight);
    assert AllSame(ws);
    DrawRange(u, |addrs| as real);
  }

  /**
   * `_doSelect(request, addressList)`: one scan sums the weights and checks
   * whether neighbours differ; a second scan subtracts weights from the
   * draw until it goes negative.
   */
  method DoSelect(addrs: seq<Address>, weight: Address -> real, u: real) returns (address: Option<Address>)
    ensures address == Choice(addrs, weight, u)
  {
    ghost var ws := Weights(addrs, weight);
    var len := |addrs|;
    var totalWeight := 0.0;
    var isWeightSame := true;
    for i := 0 to len
      invariant totalWeight == Sum(ws[..i])
      invariant isWeightSame == AllSame(ws[..i])
    {
      var w := weight(addrs[i]);
      SumSnoc(ws, i);
      AllSameSnoc(ws, i);
      totalWeight := totalWeight + w;
      if isWeightSame && i > 0 && w != weight(addrs[i - 1]) {
        isWeightSame := false;
      }
    }
    assert ws[..len] == ws;
    address := None;
    if totalWeight > 0.0 && !isWeightSame {
      var offset: real := Draw(u, totalWeight) as real;
      ghost var draw := Draw(u, totalWeight);
      var i := 0;
      while i < len
        invariant 0 <= i <= len
        invariant offset == draw as real - Sum(ws[..i])
        invariant Landing(ws, draw, 0) == Landing(ws, draw, i)
      {
        SumSnoc(ws, i);
        offset := offset - weight(addrs[i]);
        if offset < 0.0 {
          address := Some(addrs[i]);
          return;
        }
        i := i + 1;
      }
    } else {
      var index := Draw(u, len as real);
      if 0 <= index < len {
        address := Some(addrs[index]);
      }
    }
  }
}
