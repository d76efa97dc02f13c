/**
 * The consistent-hash balancer. `reset` places every active address on a
 * ring of signed 32-bit keys, 128 per address: 32 MD5 digests of the host
 * followed by 0 … 31, four little-endian words each. The keys are kept in
 * the order of the default `Array.prototype.sort`, i.e. by their decimal
 * text, and selection scans that list with numeric comparisons.
 *
 * MD5 (RFC 1321) and `JSON.stringify` are passed in as functions.
 */
module ConsistentHashing {
  import opened Common

  /** `NUM`, the ring keys per address */
  const Num: nat := 128

  /** An MD5 digest: 16 bytes. */
  type Digest = s: seq<byte> | |s| == 16 witness [0, 0, 0, 0, 0, 0, 0, 0, 0, 0, 0, 0, 0, 0, 0, 0]

  const TwoTo31: int := 0x8000_0000
  const TwoTo32: int := 0x1_0000_0000

  /** The unsigned little-endian word at bytes 4·index … 4·index+3. */
  function Word(d: Digest, index: nat): (w: nat)
    requires index < 4
    ensures w < TwoTo32
  {
    d[4 * index] as int + 0x100 * (d[4 * index + 1] as int + 0x100 * (d[4 * index + 2] as int + 0x100 * d[4 * index + 3] as int))
  }

  /** A 32-bit pattern read as a signed integer, as JavaScript's bitwise operators do. */
  function ToInt32(w: nat): (r: int)
    requires w < TwoTo32
    ensures -TwoTo31 <= r < TwoTo31
    ensures r % TwoTo32 == w
  {
    if w >= TwoTo31 then w - TwoTo32 else w
  }

  /** `_hash(digest, index)`: the word `index` of the digest as a signed 32-bit key. */
  function Hash(d: Digest, index: nat): (r: int)
    requires index < 4
    ensures -TwoTo31 <= r < TwoTo31
  {
    ToInt32(Word(d, index))
  }

  /** The four bytes of a 32-bit pattern, least significant first. */
  function LittleEndian(w: nat): (bs: seq<byte>)
    requires w < TwoTo32
    ensures |bs| == 4
  {
    [w % 0x100, (w / 0x100) % 0x100, (w / 0x1_0000) % 0x100, w / 0x100_0000]
  }

  /** A key is negative exactly when the top byte of its word has its high bit set. */
  lemma HashSign(d: Digest, index: nat)
    requires index < 4
    ensures Hash(d, index) < 0 <==> d[4 * index + 3] >= 0x80
  {
  }

  /** The key gives back, byte for byte, the digest word it was assembled from. */
  lemma HashRoundTrip(d: Digest, index: nat)
    requires index < 4
    ensures LittleEndian(Hash(d, index) % TwoTo32) == d[4 * index..4 * index + 4]
  {
    var b0: int, b1: int, b2: int, b3: int := d[4 * index], d[4 * index + 1], d[4 * index + 2], d[4 * index + 3];
    var w := Word(d, index);
    var q1 := b1 + 0x100 * (b2 + 0x100 * b3);
    var q2 := b2 + 0x100 * b3;
    ModUnique(w, 0x100, q1, b0);
    ModUnique(w, 0x1_0000, q2, b0 + 0x100 * b1);
    ModUnique(w, 0x100_0000, b3, b0 + 0x100 * b1 + 0x1_0000 * b2);
    ModUnique(q1, 0x100, q2, b1);
    ModUnique(q2, 0x100, b3, b2);
  }

  /** The 128 ring keys of a host, in the order `reset` computes them. */
  function Points(host: string, md5: string -> Digest): (ps: seq<int>)
    ensures |ps| == Num
  {
    seq(Num, j requires 0 <= j < Num => Hash(md5(host + NatToString(j / 4)), j % 4))
  }

  /** The map after setting each key of `keys` to `a`, in order. */
  function Place(m: map<int, Address>, keys: seq<int>, a: Address): map<int, Address>
  {
    if keys == [] then m else Place(m, keys[..|keys| - 1], a)[keys[|keys| - 1] := a]
  }

  lemma {:induction false} PlaceSpec(m: map<int, Address>, keys: seq<int>, a: Address)
    ensures Place(m, keys, a).Keys == m.Keys + set k | k in keys
    ensures forall k :: k in keys ==> Place(m, keys, a)[k] == a
    ensures forall k :: k in m && k !in keys ==> Place(m, keys, a)[k] == m[k]
  {
    if keys != [] {
      var init := keys[..|keys| - 1];
      PlaceSpec(m, init, a);
      assert keys == init + [keys[|keys| - 1]];
    }
  }

  lemma PlaceSnoc(m: map<int, Address>, keys: seq<int>, j: nat, a: Address)
    requires j < |keys|
    ensures Place(m, keys[..j + 1], a) == Place(m, keys[..j], a)[keys[j] := a]
  {
    assert keys[..j + 1][..j] == keys[..j];
  }

  /** `_virtualNodes` after `reset(active)`: each address in turn claims its 128 keys. */
  function Ring(active: seq<Address>, md5: string -> Digest): map<int, Address>
  {
    if active == [] then map[]
    else
      var a := active[|active| - 1];
      Place(Ring(active[..|active| - 1], md5), Points(a.host, md5), a)
  }

  /** The last address of the list whose host has `k` among its points. */
  function LastOwner(active: seq<Address>, md5: string -> Digest, k: int): (r: Option<nat>)
    ensures r.Some? ==> r.value < |active| && k in Points(active[r.value].host, md5)
  {
    if active == [] then None
    else if k in Points(active[|active| - 1].host, md5) then Some(|active| - 1)
    else LastOwner(active[..|active| - 1], md5, k)
  }

  /**
   * A key is on the ring exactly when some address has it among its
   * points, and it then belongs to the last such address: a later address
   * overwrites an earlier one on a collision.
   */
  lemma {:induction false} RingOwner(active: seq<Address>, md5: string -> Digest, k: int)
    ensures k in Ring(active, md5) <==> LastOwner(active, md5, k).Some?
    ensures k in Ring(active, md5) ==> Ring(active, md5)[k] == active[LastOwner(active, md5, k).value]
  {
    if active != [] {
      var init, a := active[..|active| - 1], active[|active| - 1];
      RingOwner(init, md5, k);
      PlaceSpec(Ring(init, md5), Points(a.host, md5), a);
      if LastOwner(init, md5, k).Some? {
        assert init[LastOwner(init, md5, k).value] == active[LastOwner(init, md5, k).value];
      }
    }
  }

  /** Every ring node is one of the addresses, and owns only keys among its own 128 points. */
  lemma RingNodes(active: seq<Address>, md5: string -> Digest, k: int)
    requires k in Ring(active, md5)
    ensures Ring(active, md5)[k] in active
    ensures k in Points(Ring(active, md5)[k].host, md5)
  {
    RingOwner(active, md5, k);
  }

  /** The last address of the list keeps all its points, so a non-empty list gives a non-empty ring. */
  lemma LastOwnsItsPoints(active: seq<Address>, md5: string -> Digest)
    requires active != []
    ensures forall k :: k in Points(active[|active| - 1].host, md5) ==>
      k in Ring(active, md5) && Ring(active, md5)[k] == active[|active| - 1]
    ensures Ring(active, md5) != map[]
  {
    var a := active[|active| - 1];
    PlaceSpec(Ring(active[..|active| - 1], md5), Points(a.host, md5), a);
    var k := Points(a.host, md5)[0];
    assert k in Points(a.host, md5);
    assert k in Ring(active, md5);
  }

  /** An address owns at most `Num` keys of the ring. */
  lemma KeysPerAddress(active: seq<Address>, md5: string -> Digest, a: Address)
    ensures |set k | k in Ring(active, md5) && Ring(active, md5)[k] == a| <= Num
  {
    var owned := set k | k in Ring(active, md5) && Ring(active, md5)[k] == a;
    var ps := Points(a.host, md5);
    forall k | k in owned
      ensures k in ps
    {
      RingNodes(active, md5, k);
    }
    SetOfSeqSize(ps);
    assert owned <= set k | k in ps;
    SubsetSize(owned, set k | k in ps);
  }

  lemma {:induction false} SetOfSeqSize(s: seq<int>)
    ensures |set k | k in s| <= |s|
  {
    if s != [] {
      var init := s[..|s| - 1];
      SetOfSeqSize(init);
      assert (set k | k in s) == (set k | k in init) + {s[|s| - 1]} by {
        assert s == init + [s[|s| - 1]];
      }
    }
  }

  lemma SubsetSize(a: set<int>, b: set<int>)
    requires a <= b
    ensures |a| <= |b|
  {
    assert b == a + (b - a);
  }

  // ---------------------------------------------------------------------------
  // The order of `_sortKeys`
  // ---------------------------------------------------------------------------

  lemma KeyLessIrreflexive(a: int)
    ensures !KeyLess(a, a)
  {
    StrLessIrreflexive(IntToString(a));
  }

  lemma KeyLessTransitive(a: int, b: int, c: int)
    requires KeyLess(a, b) && KeyLess(b, c)
    ensures KeyLess(a, c)
  {
    StrLessTransitive(IntToString(a), IntToString(b), IntToString(c));
  }

  lemma KeyLessTotal(a: int, b: int)
    requires a != b
    ensures KeyLess(a, b) || KeyLess(b, a)
  {
    if IntToString(a) == IntToString(b) {
      IntToStringInjective(a, b);
    }
    StrLessTotal(IntToString(a), IntToString(b));
  }

  /** `k` inserted into a list sorted by text, before the first larger key. */
  function InsertByText(s: seq<int>, k: int): (r: seq<int>)
  {
    if s == [] then [k]
    else if k == s[0] then s
    else if KeyLess(k, s[0]) then [k] + s
    else [s[0]] + InsertByText(s[1..], k)
  }

  lemma {:induction false} InsertByTextSpec(s: seq<int>, k: int)
    requires SortedByText(s)
    ensures SortedByText(InsertByText(s, k))
    ensures forall x :: x in InsertByText(s, k) <==> x in s || x == k
  {
    if s != [] && k != s[0] {
      if KeyLess(k, s[0]) {
        forall j | 0 < j < |s|
          ensures KeyLess(k, s[j])
        {
          KeyLessTransitive(k, s[0], s[j]);
        }
      } else {
        KeyLessTotal(k, s[0]);
        InsertByTextSpec(s[1..], k);
        var t := InsertByText(s[1..], k);
        forall j | 0 <= j < |t|
          ensures KeyLess(s[0], t[j])
        {
          assert t[j] in s[1..] || t[j] == k;
        }
        assert forall x :: x in s <==> x == s[0] || x in s[1..] by {
          assert s == [s[0]] + s[1..];
        }
      }
    }
  }

  lemma SameMembersBothEmpty(a: seq<int>, b: seq<int>)
    requires forall x :: x in a <==> x in b
    ensures a == [] <==> b == []
  {
    if a != [] {
      var y := a[0];
      assert y in a;
      assert y in b;
    }
    if b != [] {
      var y := b[0];
      assert y in b;
      assert y in a;
    }
  }

  /** Two lists sorted by text with the same keys are the same list. */
  lemma {:induction false} SortedByTextUnique(a: seq<int>, b: seq<int>)
    requires SortedByText(a) && SortedByText(b)
    requires forall x :: x in a <==> x in b
    ensures a == b
    decreases |a|
  {
    SameMembersBothEmpty(a, b);
    if a != [] {
      SortedSameHead(a, b);
      SortedSameTails(a, b);
      SortedByTextUnique(a[1..], b[1..]);
      assert a == [a[0]] + a[1..] && b == [b[0]] + b[1..];
    }
  }

  /** Two non-empty lists sorted by text with the same keys start with the same key. */
  lemma SortedSameHead(a: seq<int>, b: seq<int>)
    requires SortedByText(a) && SortedByText(b) && a != [] && b != []
    requires forall x :: x in a <==> x in b
    ensures a[0] == b[0]
  {
    assert a[0] in a && b[0] in b;
    if a[0] != b[0] {
      var i :| 0 <= i < |b| && b[i] == a[0];
      var j :| 0 <= j < |a| && a[j] == b[0];
      assert i > 0 && j > 0;
      assert KeyLess(b[0], b[i]) && KeyLess(a[0], a[j]);
      KeyLessTransitive(a[0], a[j], a[0]);
      KeyLessIrreflexive(a[0]);
    }
  }

  /** Their tails then hold the same keys and are sorted. */
  lemma SortedSameTails(a: seq<int>, b: seq<int>)
    requires SortedByText(a) && SortedByText(b) && a != [] && b != [] && a[0] == b[0]
    requires forall x :: x in a <==> x in b
    ensures SortedByText(a[1..]) && SortedByText(b[1..])
    ensures forall x :: x in a[1..] <==> x in b[1..]
  {
    forall x
      ensures x in a[1..] <==> x in b[1..]
    {
      KeyLessIrreflexive(x);
      if x in a[1..] {
        var i :| 1 <= i < |a| && a[i] == x;
        assert KeyLess(a[0], a[i]);
        assert x in b && x != b[0];
        var j :| 0 <= j < |b| && b[j] == x;
        assert b[1..][j - 1] == x;
      }
      if x in b[1..] {
        var i :| 1 <= i < |b| && b[i] == x;
        assert KeyLess(b[0], b[i]);
        assert x in a && x != a[0];
        var j :| 0 <= j < |a| && a[j] == x;
        assert a[1..][j - 1] == x;
      }
    }
  }

  /** `keys.sort()`: the keys, each once, in text order. */
  method SortByText(keys: seq<int>) returns (s: seq<int>)
    ensures SortedByText(s)
    ensures forall x :: x in s <==> x in keys
  {
    s := [];
    for i := 0 to |keys|
      invariant SortedByText(s)
      invariant forall x :: x in s <==> x in keys[..i]
    {
      InsertByTextSpec(s, keys[i]);
      s := InsertByText(s, keys[i]);
      assert keys[..i + 1] == keys[..i] + [keys[i]];
    }
    assert keys[..|keys|] == keys;
  }

  // ---------------------------------------------------------------------------
  // Selection
  // ---------------------------------------------------------------------------

  /** The greatest index whose key is below `hash`, scanning down from `i`. */
  function GreatestBelow(keys: seq<int>, hash: int, i: nat): (r: Option<nat>)
    requires i <= |keys|
    ensures r.Some? ==> r.value < i
    decreases i
  {
    if i == 0 then None
    else if keys[i - 1] < hash then Some(i - 1)
    else GreatestBelow(keys, hash, i - 1)
  }

  lemma {:induction false} GreatestBelowSpec(keys: seq<int>, hash: int, i: nat)
    requires i <= |keys|
    ensures match GreatestBelow(keys, hash, i)
      case Some(j) => keys[j] < hash && forall t :: j < t < i ==> keys[t] >= hash
      case None => forall t :: 0 <= t < i ==> keys[t] >= hash
    decreases i
  {
    if i > 0 && keys[i - 1] >= hash {
      GreatestBelowSpec(keys, hash, i - 1);
    }
  }

  /**
   * The ring key `_selectForKey(hash)` looks up: the key after the last one
   * below `hash` when the last key reaches `hash`, and the first key when
   * it does not or when no key is below `hash`.
   */
  function KeyFor(keys: seq<int>, hash: int): (r: Option<int>)
    ensures r.Some? <==> keys != []
    ensures r.Some? ==> r.value in keys
  {
    if keys == [] then None
    else if keys[|keys| - 1] >= hash then
      match GreatestBelow(keys, hash, |keys|)
      case Some(i) => (if i + 1 < |keys| then Some(keys[i + 1]) else Some(keys[0]))
      case None => Some(keys[0])
    else Some(keys[0])
  }

  /** With the last key below `hash`, or no key below it, the first key is looked up. */
  lemma KeyForWraps(keys: seq<int>, hash: int)
    requires keys != []
    ensures keys[|keys| - 1] < hash ==> KeyFor(keys, hash) == Some(keys[0])
    ensures (forall t :: 0 <= t < |keys| ==> keys[t] >= hash) ==> KeyFor(keys, hash) == Some(keys[0])
  {
    GreatestBelowSpec(keys, hash, |keys|);
  }

  /**
   * Otherwise the key after the last one below `hash` is looked up: when
   * `keys[i]` is below `hash` and every later key reaches it.
   */
  lemma KeyForSuccessor(keys: seq<int>, hash: int, i: nat)
    requires i < |keys| - 1 && keys[i] < hash
    requires forall t :: i < t < |keys| ==> keys[t] >= hash
    ensures KeyFor(keys, hash) == Some(keys[i + 1])
  {
    GreatestBelowSpec(keys, hash, |keys|);
    assert GreatestBelow(keys, hash, |keys|) == Some(i);
  }

  /** Keys sorted as text are not sorted as numbers: hash 5 is routed to key 10, not to 9. */
  lemma TextOrderQuirk()
    ensures SortedByText([-1, -2, 10, 9])
    ensures KeyFor([-1, -2, 10, 9], 5) == Some(10)
  {
    assert IntToString(-1) == "-1" && IntToString(-2) == "-2";
    assert IntToString(10) == "10" && IntToString(9) == "9";
    var ks := [-1, -2, 10, 9];
    assert GreatestBelow(ks, 5, 4) == GreatestBelow(ks, 5, 3) == GreatestBelow(ks, 5, 2) == Some(1);
  }

  /** `_buildKeyOfHash`: '' without arguments, else the JSON text of the first. */
  function KeyOfArgs(args: seq<Value>, stringify: Value -> string): (key: string)
    ensures args == [] ==> key == ""
    ensures args != [] ==> key == stringify(args[0])
  {
    if |args| == 0 then "" else stringify(args[0])
  }

  /** What `_doSelect` returns for a ring, its sorted keys and a request's arguments. */
  function Selected(nodes: map<int, Address>, keys: seq<int>, md5: string -> Digest, stringify: Value -> string,
                    args: seq<Value>): Option<Address>
  {
    match KeyFor(keys, Hash(md5(KeyOfArgs(args, stringify)), 0))
    case Some(k) => if k in nodes then Some(nodes[k]) else None
    case None => None
  }

  class ConsistentHash {
    /** `_virtualNodes`: ring key -> address */
    var virtualNodes: map<int, Address>
    /** `_sortKeys` */
    var sortKeys: seq<int>
    /** the addresses of the last `reset` */
    ghost var members: seq<Address>
    const md5: string -> Digest

    ghost predicate Valid()
      reads this
    {
      virtualNodes == Ring(members, md5) &&
      SortedByText(sortKeys) &&
      (forall k :: k in sortKeys <==> k in virtualNodes)
    }

    /** The balancer as constructed: `reset()` without a list leaves the ring empty. */
    constructor(md5: string -> Digest)
      ensures Valid() && this.md5 == md5
      ensures members == [] && virtualNodes == map[] && sortKeys == []
    {
      this.md5 := md5;
      virtualNodes := map[];
      sortKeys := [];
      members := [];
    }

    /** `reset(val)` with the active list it settles on: the ring is rebuilt for it. */
    method Reset(active: seq<Address>)
      modifies this
      ensures Valid() && members == active
      ensures virtualNodes == Ring(active, md5)
    {
      virtualNodes := map[];
      var keyOrder: seq<int> := [];
      for ai := 0 to |active|
        invariant virtualNodes == Ring(active[..ai], md5)
        invariant forall k :: k in keyOrder <==> k in virtualNodes
      {
        keyOrder := PlaceAddress(active[ai], keyOrder);
        assert active[..ai + 1][..ai] == active[..ai];
      }
      assert active[..|active|] == active;
      members := active;
      sortKeys := SortByText(keyOrder);
    }

    /** The virtual nodes of one address go on the ring, and their keys after `keyOrder`. */
    method PlaceAddress(address: Address, keyOrder: seq<int>) returns (keyOrder': seq<int>)
      requires forall k :: k in keyOrder <==> k in virtualNodes
      modifies this
      ensures virtualNodes == Place(old(virtualNodes), Points(address.host, md5), address)
      ensures forall k :: k in keyOrder' <==> k in virtualNodes
      ensures sortKeys == old(sortKeys) && members == old(members)
    {
      keyOrder' := keyOrder;
      ghost var base := virtualNodes;
      ghost var ps := Points(address.host, md5);
      for i := 0 to Num / 4
        invariant virtualNodes == Place(base, ps[..4 * i], address)
        invariant forall k :: k in keyOrder' <==> k in virtualNodes
        invariant sortKeys == old(sortKeys) && members == old(members)
      {
        var digest := md5(address.host + NatToString(i));
        for h := 0 to 4
          invariant virtualNodes == Place(base, ps[..4 * i + h], address)
          invariant forall k :: k in keyOrder' <==> k in virtualNodes
          invariant sortKeys == old(sortKeys) && members == old(members)
        {
          var m := Hash(digest, h);
          assert (4 * i + h) / 4 == i && (4 * i + h) % 4 == h;
          assert ps[4 * i + h] == m;
          PlaceSnoc(base, ps, 4 * i + h, address);
          virtualNodes := virtualNodes[m := address];
          keyOrder' := keyOrder' + [m];
        }
      }
      assert ps[..Num] == ps;
    }

    /** `_selectForKey(hash)`: the node of `KeyFor(sortKeys, hash)`, none on an empty ring. */
    method SelectForKey(hash: int) returns (r: Option<Address>)
      requires forall k :: k in sortKeys ==> k in virtualNodes
      ensures r == match KeyFor(sortKeys, hash)
        case Some(k) => Some(virtualNodes[k])
        case None => None
    {
      var len := |sortKeys|;
      if len == 0 {
        return None;
      }
      var key := sortKeys[0];
      if sortKeys[len - 1] >= hash {
        var i := len - 1;
        while i >= 0
          invariant -1 <= i < len
          invariant GreatestBelow(sortKeys, hash, len) == GreatestBelow(sortKeys, hash, i + 1)
          invariant key == sortKeys[0]
        {
          if sortKeys[i] < hash {
            assert GreatestBelow(sortKeys, hash, len) == Some(i) && i + 1 < len;
            key := sortKeys[i + 1];
            break;
          }
          i := i - 1;
        }
      }
      assert KeyFor(sortKeys, hash) == Some(key);
      assert key in sortKeys;
      r := Some(virtualNodes[key]);
    }

    /** `_doSelect(request)`: the node for word 0 of the digest of the request's key. */
    method DoSelect(args: seq<Value>, stringify: Value -> string) returns (r: Option<Address>)
      requires Valid()
      ensures r == Selected(virtualNodes, sortKeys, md5, stringify, args)
      ensures r.Some? <==> members != []
      ensures r.Some? ==> r.value in members
    {
      if members != [] {
        LastOwnsItsPoints(members, md5);
        var ps := Points(members[|members| - 1].host, md5);
        var k := ps[0];
        assert k in ps;
        assert k in sortKeys;
      }
      var key := KeyOfArgs(args, stringify);
      var digest := md5(key);
      r := SelectForKey(Hash(digest, 0));
      if r.Some? {
        var k := KeyFor(sortKeys, Hash(digest, 0)).value;
        RingNodes(members, md5, k);
      }
    }
  }
}
