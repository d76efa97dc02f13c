/**
 * The client's small helpers: the packet-id counter, the in-place shuffle
 * and the printing of address lists for the log.
 */
module Utilities {
  import opened Common

  /** `MAX_PACKET_ID`, 2^30: ids stay clear of the large integers Hessian would write differently. */
  const MaxPacketId: int := 0x4000_0000

  /** The id `nextId()` hands out after `id`: one more, or 1 once that reaches the limit. */
  function NextOf(id: int): int
  {
    if id + 1 >= MaxPacketId then 1 else id + 1
  }

  /** From any non-negative counter the next id lies in [1, 2^30); the counter wraps from 2^30 - 1 to 1. */
  lemma NextOfRange(id: int)
    requires id >= 0
    ensures 1 <= NextOf(id) < MaxPacketId
    ensures id < MaxPacketId - 1 ==> NextOf(id) == id + 1
    ensures id >= MaxPacketId - 1 ==> NextOf(id) == 1
  {
  }

  /** A counter set to 2^30 yields 1 and then 2. */
  lemma NextOfAtLimit()
    ensures NextOf(MaxPacketId) == 1 && NextOf(NextOf(MaxPacketId)) == 2
  {
  }

  /** The ids of `k` calls from counter `id`. */
  function Ids(id: int, k: nat): (ids: seq<int>)
    ensures |ids| == k
    decreases k
  {
    if k == 0 then [] else [NextOf(id)] + Ids(NextOf(id), k - 1)
  }

  /** From a counter in [0, 2^30), fewer than 2^30 - 1 calls never hand out the same id twice. */
  lemma {:induction false} IdsDistinct(id: int, k: nat)
    requires 0 <= id < MaxPacketId && k < MaxPacketId - 1
    ensures forall i, j :: 0 <= i < j < k ==> Ids(id, k)[i] != Ids(id, k)[j]
  {
    forall i, j | 0 <= i < j < k
      ensures Ids(id, k)[i] != Ids(id, k)[j]
    {
      IdsAt(id, k, i);
      IdsAt(id, k, j);
      var a, b := Ids(id, k)[i], Ids(id, k)[j];
      assert a - 1 == (id + i) % (MaxPacketId - 1);
      assert b - 1 == (id + j) % (MaxPacketId - 1);
      DistinctResidues(id + i, id + j, MaxPacketId - 1);
    }
  }

  /** The i-th id of a run from `id` in [0, 2^30) is 1 + (id + i) mod (2^30 - 1). */
  lemma {:induction false} IdsAt(id: int, k: nat, i: nat)
    requires 0 <= id < MaxPacketId && i < k
    ensures Ids(id, k)[i] == 1 + (id + i) % (MaxPacketId - 1)
    decreases k
  {
    var n := NextOf(id);
    var m := MaxPacketId - 1;
    assert n - 1 == id % m by {
      if id < m {
        ModUnique(id, m, 0, id);
      } else {
        ModUnique(id, m, 1, 0);
      }
    }
    if i > 0 {
      IdsAt(n, k - 1, i - 1);
      assert Ids(id, k)[i] == Ids(n, k - 1)[i - 1];
      var q := id / m;
      assert id == q * m + id % m;
      ModShift(n + i - 1, q, m);
      assert n + i - 1 + q * m == id + i;
    }
  }

  /** Adding a multiple of n leaves the remainder unchanged. */
  lemma ModShift(x: int, q: int, n: int)
    requires n > 0
    ensures (x + q * n) % n == x % n
  {
    ModUnique(x + q * n, n, x / n + q, x % n);
  }

  /** Two numbers less than n apart have different remainders. */
  lemma DistinctResidues(x: int, y: int, n: int)
    requires n > 0 && x < y < x + n
    ensures x % n != y % n
  {
    var q, r, k := x / n, x % n, y - x;
    assert x == q * n + r;
    if r + k < n {
      ModUnique(y, n, q, r + k);
    } else {
      assert (q + 1) * n == q * n + n;
      ModUnique(y, n, q + 1, r + k - n);
    }
  }

  /** The packet-id counter (`exports.id`, shared by the whole client). */
  class PacketIds {
    var id: int

    constructor()
      ensures id == 0
    {
      id := 0;
    }

    /** `nextId()`: the counter advances, wrapping to 1 at 2^30, and the new value is the id. */
    method NextId() returns (r: int)
      modifies this
      ensures r == NextOf(old(id)) && id == r
      ensures old(id) >= 0 ==> 1 <= r < MaxPacketId
    {
      id := id + 1;
      if id >= MaxPacketId {
        id := 1;
      }
      r := id;
    }
  }

  /** `s` with the elements at `i` and `j` exchanged. */
  function Swap<T>(s: seq<T>, i: nat, j: nat): (r: seq<T>)
    requires i < |s| && j < |s|
    ensures |r| == |s|
  {
    s[i := s[j]][j := s[i]]
  }

  lemma SwapPermutes<T>(s: seq<T>, i: nat, j: nat)
    requires i < |s| && j < |s|
    ensures multiset(Swap(s, i, j)) == multiset(s)
  {
  }

  /**
   * Whether `picks` are indices a shuffle of `len` elements may draw: round
   * `k` has `len - k` elements left and draws `(Math.random() * (len - k)) >>> 0`,
   * an index below that.
   */
  predicate ValidPicks(picks: seq<nat>, len: nat)
  {
    |picks| >= len && forall k :: 0 <= k < len ==> picks[k] < len - k
  }

  /**
   * The shuffle on a sequence: `n` counts down from the length; each round
   * swaps the drawn element with the last of the first `n`.
   */
  function Shuffled<T>(s: seq<T>, picks: seq<nat>, n: nat): (r: seq<T>)
    requires n <= |s| && ValidPicks(picks, |s|)
    decreases n
  {
    if n == 0 then s else Shuffled(Swap(s, n - 1, picks[|s| - n]), picks, n - 1)
  }

  /** The shuffle only moves elements: the result is a permutation of the input. */
  lemma {:induction false} ShuffledPermutes<T>(s: seq<T>, picks: seq<nat>, n: nat)
    requires n <= |s| && ValidPicks(picks, |s|)
    ensures |Shuffled(s, picks, n)| == |s|
    ensures multiset(Shuffled(s, picks, n)) == multiset(s)
    decreases n
  {
    if n > 0 {
      SwapPermutes(s, n - 1, picks[|s| - n]);
      ShuffledPermutes(Swap(s, n - 1, picks[|s| - n]), picks, n - 1);
    }
  }

  /** Elements from index `n` on stay where they are during the remaining rounds. */
  lemma {:induction false} ShuffledKeepsTail<T>(s: seq<T>, picks: seq<nat>, n: nat)
    requires n <= |s| && ValidPicks(picks, |s|)
    ensures |Shuffled(s, picks, n)| == |s|
    ensures Shuffled(s, picks, n)[n..] == s[n..]
    decreases n
  {
    ShuffledPermutes(s, picks, n);
    if n > 0 {
      var t := Swap(s, n - 1, picks[|s| - n]);
      ShuffledKeepsTail(t, picks, n - 1);
      assert t[n..] == s[n..];
    }
  }

  /** The destructuring swap `[arr[i], arr[j]] = [arr[j], arr[i]]`. */
  method SwapCells<T>(arr: array<T>, i: nat, j: nat)
    requires i < arr.Length && j < arr.Length
    modifies arr
    ensures arr[..] == Swap(old(arr[..]), i, j)
  {
    arr[i], arr[j] := arr[j], arr[i];
  }

  /**
   * `shuffle(arr)`: Fisher-Yates in place, from the end; `picks[k]` is the
   * index drawn in round `k`. The same array comes back, holding a
   * permutation of its old contents.
   */
  method Shuffle<T>(arr: array<T>, picks: seq<nat>) returns (r: array<T>)
    requires ValidPicks(picks, arr.Length)
    modifies arr
    ensures r == arr
    ensures arr[..] == Shuffled(old(arr[..]), picks, arr.Length)
    ensures multiset(arr[..]) == multiset(old(arr[..]))
  {
    ghost var s0 := arr[..];
    var n := arr.Length;
    while n > 0
      invariant 0 <= n <= arr.Length
      invariant Shuffled(arr[..], picks, n) == Shuffled(s0, picks, arr.Length)
    {
      var random := picks[arr.Length - n];
      n := n - 1;
      SwapCells(arr, n, random);
    }
    ShuffledPermutes(s0, picks, arr.Length);
    r := arr;
  }

  const Prefix: string := "  - "
  /** The notice after the first 20 addresses, "... only 20 first addresses will be shown here!". */
  const Notice: string := "... only 20 first addresses will be shown here!"

  /** The lines `printAddresses` shows: one per address, at most 20, then a notice when some are left out. */
  function AddressLines(addrs: seq<Address>): (lines: seq<string>)
  {
    var all := seq(|addrs|, i requires 0 <= i < |addrs| => Prefix + addrs[i].href);
    if |all| > 20 then all[..20] + [Notice] else all
  }

  /** `printAddresses(addressList)`: a newline, then the lines joined by newlines. */
  function PrintAddresses(addrs: seq<Address>): string
  {
    "\n" + Join(AddressLines(addrs), '\n')
  }

  /**
   * For a non-empty list whose hrefs hold no newline, the text after the
   * first newline splits back into one line per address shown (the first
   * 20 at most) and, past 20 addresses, the notice.
   */
  lemma PrintAddressesLines(addrs: seq<Address>)
    requires addrs != []
    requires forall a :: a in addrs ==> '\n' !in a.href
    ensures var text := PrintAddresses(addrs);
      text[0] == '\n' &&
      var lines := Split(text[1..], '\n');
      |lines| == (if |addrs| > 20 then 21 else |addrs|) &&
      (forall i :: 0 <= i < |lines| && i < 20 && i < |addrs| ==> lines[i] == Prefix + addrs[i].href) &&
      (|addrs| > 20 ==> lines[20] == Notice)
  {
    var lines := AddressLines(addrs);
    LinesHaveNoNewline(addrs);
    SplitJoin(lines, '\n');
    assert PrintAddresses(addrs)[1..] == Join(lines, '\n');
  }

  /** No line shown holds a newline when no href does. */
  lemma LinesHaveNoNewline(addrs: seq<Address>)
    requires forall a :: a in addrs ==> '\n' !in a.href
    ensures forall i :: 0 <= i < |AddressLines(addrs)| ==> '\n' !in AddressLines(addrs)[i]
  {
    var lines := AddressLines(addrs);
    forall i | 0 <= i < |lines|
      ensures '\n' !in lines[i]
    {
      if i < 20 && i < |addrs| {
        var a := addrs[i];
        assert a in addrs;
        assert lines[i] == Prefix + a.href;
        assert '\n' !in Prefix;
      } else {
        assert lines[i] == Notice;
        NoticeHasNoNewline();
      }
    }
  }

  lemma NoticeHasNoNewline()
    ensures '\n' !in Notice
  {
    assert '\n' !in "... only 20 " && '\n' !in "first addres";
    assert '\n' !in "ses will be " && '\n' !in "shown here!";
  }
}
