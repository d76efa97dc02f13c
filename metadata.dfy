/**
 * gRPC metadata: a multimap from lower-case keys to lists of values,
 * with the key and value rules of the Custom-Metadata section of the
 * "gRPC over HTTP/2" protocol document: keys of `[0-9a-z_.-]`, binary
 * values under keys ending in '-bin' (sent base64-encoded), printable
 * ASCII text under every other key.
 */
module GrpcMetadata {
  import opened Common
  import opened Base64

  /** A metadata value: a string, or a `Buffer` of bytes. */
  datatype MetaValue = Text(text: string) | Binary(data: seq<byte>)

  type Repr = map<string, seq<MetaValue>>

  predicate LegalKeyChar(c: char)
  {
    '0' <= c <= '9' || 'a' <= c <= 'z' || c == '_' || c == '.' || c == '-'
  }

  /** `isLegalKey`: one or more of `[0-9a-z_.-]`. */
  predicate IsLegalKey(key: string)
  {
    key != [] && forall i :: 0 <= i < |key| ==> LegalKeyChar(key[i])
  }

  /** `isLegalNonBinaryValue`: only printable ASCII, ' ' to '~'. */
  predicate IsLegalNonBinaryValue(s: string)
  {
    forall i :: 0 <= i < |s| ==> ' ' <= s[i] <= '~'
  }

  /** `isBinaryKey`. */
  predicate IsBinaryKey(key: string)
  {
    EndsWith(key, "-bin")
  }

  /**
   * `validate(key, value)`: the error thrown for an illegal key or, when a
   * value is given, for a value of the wrong kind for its key or a text
   * with characters outside printable ASCII.
   */
  function Validate(key: string, value: Option<MetaValue>): (r: Option<string>)
    ensures r.None? <==>
      IsLegalKey(key) &&
      (value.Some? ==>
        (IsBinaryKey(key) ==> value.value.Binary?) &&
        (!IsBinaryKey(key) ==> value.value.Text? && IsLegalNonBinaryValue(value.value.text)))
  {
    if !IsLegalKey(key) then Some("Metadata key \"" + key + "\" contains illegal characters")
    else if value.None? then None
    else if IsBinaryKey(key) then
      if value.value.Binary? then None else Some("keys that end with '-bin' must have Buffer values")
    else if value.value.Binary? then Some("keys that don't end with '-bin' must have String values")
    else if !IsLegalNonBinaryValue(value.value.text) then
      Some("Metadata string value \"" + value.value.text + "\" contains illegal characters")
    else None
  }

  /** A legal key is already lower-case, so normalising keeps it. */
  lemma LegalKeyIsLower(key: string)
    requires IsLegalKey(key)
    ensures ToLower(key) == key
  {
  }

  /** Normalising twice is normalising once. */
  lemma ToLowerIdempotent(key: string)
    ensures ToLower(ToLower(key)) == ToLower(key)
  {
  }

  /**
   * A key the representation, a plain object, can only read as inherited:
   * an inherited name with no own entry. `add` and `merge` read the key's
   * list without asking whether it is the object's own, so they find the
   * inherited value there.
   */
  predicate Unreadable(repr: Repr, k: string)
  {
    InheritedName(k) && k !in repr
  }

  /** The TypeError `add` throws when the value it finds under the key has no `push`. */
  const PushError: string := "this.internalRepr[key].push is not a function"
  /** The TypeError `merge` throws when the value it finds under the key has no `concat`. */
  const ConcatError: string := "(this.internalRepr[key] || []).concat is not a function"

  /** The `name` of an error a metadata operation throws: a TypeError for an inherited key, else an Error. */
  function ErrorName(message: string): string
  {
    if message == PushError || message == ConcatError then "TypeError" else "Error"
  }

  /**
   * Of the inherited names, only `constructor` and `__proto__` are legal
   * keys: every other one holds an upper-case letter.
   */
  lemma InheritedLegalKeys(k: string)
    requires InheritedName(k) && k != "constructor" && k != "__proto__"
    ensures !IsLegalKey(k)
  {
    if k == "hasOwnProperty" {
      assert !LegalKeyChar(k[3]);
    } else if k == "isPrototypeOf" {
      assert !LegalKeyChar(k[2]);
    } else if k == "propertyIsEnumerable" {
      assert !LegalKeyChar(k[8]);
    } else if k == "toString" {
      assert !LegalKeyChar(k[2]);
    } else if k == "toLocaleString" {
      assert !LegalKeyChar(k[2]);
    } else if k == "valueOf" {
      assert !LegalKeyChar(k[5]);
    } else if k == "__defineGetter__" {
      assert !LegalKeyChar(k[8]);
    } else if k == "__defineSetter__" {
      assert !LegalKeyChar(k[8]);
    } else if k == "__lookupGetter__" {
      assert !LegalKeyChar(k[8]);
    } else if k == "__lookupSetter__" {
      assert !LegalKeyChar(k[8]);
    }
  }

  /** The values stored under `k`, none when absent. */
  function Values(repr: Repr, k: string): seq<MetaValue>
  {
    if k in repr then repr[k] else []
  }

  /** Every key legal, every list non-empty, every value of the kind its key demands. */
  predicate WellFormed(repr: Repr)
  {
    forall k :: k in repr ==>
      IsLegalKey(k) && repr[k] != [] &&
      forall i :: 0 <= i < |repr[k]| ==> Validate(k, Some(repr[k][i])).None?
  }

  /** `get(key)`, from a representation: the key's values, [] when absent, or the validation error. */
  function Lookup(repr: Repr, key: string): (r: Result<seq<MetaValue>>)
    ensures r.Err? <==> !IsLegalKey(ToLower(key))
    ensures r.Ok? ==> r.value == Values(repr, ToLower(key))
  {
    var k := ToLower(key);
    var e := Validate(k, None);
    if e.Some? then Err(e.value) else Ok(Values(repr, k))
  }

  /**
   * One `add` on a representation: an invalid pair throws its validation
   * error; a valid value under a key that is only inherited throws the
   * TypeError; otherwise the value is appended to the key's list, which
   * starts if missing. A throw changes nothing.
   */
  function AddOne(repr: Repr, key: string, value: MetaValue): (r: (Option<string>, Repr))
    ensures var k := ToLower(key);
      (r.0.None? <==> Validate(k, Some(value)).None? && !Unreadable(repr, k)) &&
      (r.0.None? ==> r.1 == repr[k := Values(repr, k) + [value]]) &&
      (r.0.Some? ==> r.1 == repr) &&
      (Validate(k, Some(value)).None? && Unreadable(repr, k) ==> r.0 == Some(PushError))
  {
    var k := ToLower(key);
    var e := Validate(k, Some(value));
    if e.Some? then (e, repr)
    else if Unreadable(repr, k) then (Some(PushError), repr)
    else (None, repr[k := Values(repr, k) + [value]])
  }

  /** `add` for each value in turn, stopping at the first that fails. */
  function AddAll(repr: Repr, key: string, values: seq<MetaValue>): (r: (Option<string>, Repr))
    decreases |values|
  {
    if values == [] then (None, repr)
    else
      var (e, next) := AddOne(repr, key, values[0]);
      if e.Some? then (e, next) else AddAll(next, key, values[1..])
  }

  /** Values that all pass validation under a lower-case key are appended in order. */
  lemma {:induction false} AddAllValid(repr: Repr, k: string, values: seq<MetaValue>)
    requires ToLower(k) == k && !Unreadable(repr, k)
    requires forall i :: 0 <= i < |values| ==> Validate(k, Some(values[i])).None?
    ensures AddAll(repr, k, values) == (None, if values == [] then repr else repr[k := Values(repr, k) + values])
    decreases |values|
  {
    if values != [] {
      var v, rest := values[0], values[1..];
      var next := repr[k := Values(repr, k) + [v]];
      assert AddOne(repr, k, v) == (None, next);
      assert AddAll(repr, k, values) == AddAll(next, k, rest);
      forall i | 0 <= i < |rest|
        ensures Validate(k, Some(rest[i])).None?
      {
        assert rest[i] == values[i + 1];
      }
      assert k in next;
      AddAllValid(next, k, rest);
      assert values == [v] + rest;
      AppendedInTurn(repr, k, v, rest);
    }
  }

  /** Appending one value and then the rest under a key appends them all at once. */
  lemma AppendedInTurn(repr: Repr, k: string, v: MetaValue, rest: seq<MetaValue>)
    ensures var next := repr[k := Values(repr, k) + [v]];
      (if rest == [] then next else next[k := Values(next, k) + rest]) == repr[k := Values(repr, k) + ([v] + rest)]
  {
    var next := repr[k := Values(repr, k) + [v]];
    if rest == [] {
      assert [v] + rest == [v];
    } else {
      assert Values(next, k) + rest == Values(repr, k) + ([v] + rest);
    }
  }

  /** `merge(other)` on representations: per key, own values first, then the other's. */
  function Merged(own: Repr, other: Repr): (r: Repr)
  {
    map k | k in own.Keys + other.Keys :: if k in other then Values(own, k) + other[k] else own[k]
  }

  /** Merging gives every key the concatenation of both sides' values, and keeps well-formedness. */
  lemma MergedSpec(own: Repr, other: Repr)
    ensures forall k :: Values(Merged(own, other), k) == Values(own, k) + Values(other, k)
    ensures WellFormed(own) && WellFormed(other) ==> WellFormed(Merged(own, other))
  {
    forall k
      ensures Values(Merged(own, other), k) == Values(own, k) + Values(other, k)
    {
      if k !in other {
        assert Values(own, k) + [] == Values(own, k);
      }
    }
    if WellFormed(own) && WellFormed(other) {
      var m := Merged(own, other);
      forall k | k in m
        ensures IsLegalKey(k) && m[k] != [] && forall i :: 0 <= i < |m[k]| ==> Validate(k, Some(m[k][i])).None?
      {
        MergedKeyValid(own, other, k);
      }
    }
  }

  /** A merged key of two well-formed representations is legal, has values, and each of them is valid for it. */
  lemma MergedKeyValid(own: Repr, other: Repr, k: string)
    requires WellFormed(own) && WellFormed(other) && k in Merged(own, other)
    ensures var vs := Merged(own, other)[k];
      IsLegalKey(k) && vs != [] && forall i :: 0 <= i < |vs| ==> Validate(k, Some(vs[i])).None?
  {
    var vs := Merged(own, other)[k];
    forall i | 0 <= i < |vs|
      ensures Validate(k, Some(vs[i])).None?
    {
      if k in other && i >= |Values(own, k)| {
        assert vs[i] == other[k][i - |Values(own, k)|];
      }
    }
  }

  /**
   * `merge(other)` on representations, the other's keys visited in the
   * order `keys`: each key's values are appended to this side's, until a
   * key this side can only read as inherited throws the TypeError, with the
   * keys before it already merged.
   */
  function MergeKeys(own: Repr, other: Repr, keys: seq<string>): (r: (Option<string>, Repr))
    decreases |keys|
  {
    if keys == [] then (None, own)
    else if keys[0] !in other then MergeKeys(own, other, keys[1..])
    else if Unreadable(own, keys[0]) then (Some(ConcatError), own)
    else MergeKeys(own[keys[0] := Values(own, keys[0]) + other[keys[0]]], other, keys[1..])
  }

  /** How many keys `merge` gets through: up to the first this side can only read as inherited. */
  function MergeableCount(own: Repr, keys: seq<string>): (j: nat)
    ensures j <= |keys|
    ensures forall i :: 0 <= i < j ==> !Unreadable(own, keys[i])
    ensures j < |keys| ==> Unreadable(own, keys[j])
    decreases |keys|
  {
    if keys == [] || Unreadable(own, keys[0]) then 0 else 1 + MergeableCount(own, keys[1..])
  }

  /**
   * `merge` throws exactly when some key of the other side is, on this
   * side, only inherited; it has then merged the keys before the first
   * such one. Otherwise every key gets both sides' values, as `Merged` says.
   */
  lemma {:induction false} MergeKeysSpec(own: Repr, other: Repr, keys: seq<string>)
    requires forall i :: 0 <= i < |keys| ==> keys[i] in other
    requires forall i, i' :: 0 <= i < i' < |keys| ==> keys[i] != keys[i']
    ensures var j := MergeableCount(own, keys);
      MergeKeys(own, other, keys) ==
        (if j < |keys| then Some(ConcatError) else None, Merged(own, Restrict(other, keys[..j])))
    decreases |keys|, 2
  {
    if keys == [] || Unreadable(own, keys[0]) {
      assert MergeableCount(own, keys) == 0;
      MergedNothing(own, other, keys);
    } else {
      MergeKeysFirst(own, other, keys);
    }
  }

  /** The inductive step of `MergeKeysSpec`: the first key is merged, then the rest. */
  lemma {:induction false} MergeKeysFirst(own: Repr, other: Repr, keys: seq<string>)
    requires forall i :: 0 <= i < |keys| ==> keys[i] in other
    requires forall i, i' :: 0 <= i < i' < |keys| ==> keys[i] != keys[i']
    requires keys != [] && !Unreadable(own, keys[0])
    ensures var j := MergeableCount(own, keys);
      MergeKeys(own, other, keys) ==
        (if j < |keys| then Some(ConcatError) else None, Merged(own, Restrict(other, keys[..j])))
    decreases |keys|, 1
  {
    var next := own[keys[0] := Values(own, keys[0]) + other[keys[0]]];
    var rest := keys[1..];
    assert MergeKeys(own, other, keys) == MergeKeys(next, other, rest);
    var j' := MergeableCount(own, rest);
    MergeKeysRest(own, other, keys);
    assert Merged(next, Restrict(other, rest[..j'])) == Merged(own, Restrict(other, keys[..j' + 1])) by {
      MergedStep(own, other, keys, j');
    }
    assert MergeableCount(own, keys) == j' + 1;
  }

  /** The keys after the first, merged into the side that has taken the first. */
  lemma {:induction false} MergeKeysRest(own: Repr, other: Repr, keys: seq<string>)
    requires forall i :: 0 <= i < |keys| ==> keys[i] in other
    requires forall i, i' :: 0 <= i < i' < |keys| ==> keys[i] != keys[i']
    requires keys != [] && !Unreadable(own, keys[0])
    ensures var next := own[keys[0] := Values(own, keys[0]) + other[keys[0]]];
      var j := MergeableCount(own, keys[1..]);
      MergeKeys(next, other, keys[1..]) ==
        (if j < |keys| - 1 then Some(ConcatError) else None, Merged(next, Restrict(other, keys[1..][..j])))
    decreases |keys|, 0
  {
    var next := own[keys[0] := Values(own, keys[0]) + other[keys[0]]];
    var rest := keys[1..];
    forall i | 0 <= i < |rest|
      ensures rest[i] in other && (rest[i] in own <==> rest[i] in next)
    {
      assert rest[i] == keys[i + 1];
    }
    forall i, i' | 0 <= i < i' < |rest|
      ensures rest[i] != rest[i']
    {
      assert rest[i] == keys[i + 1] && rest[i'] == keys[i' + 1];
    }
    MergeableCountSame(own, next, rest);
    MergeKeysSpec(next, other, rest);
  }

  /** When every key of the other side is readable here and `keys` lists them all, `merge` is `Merged`. */
  lemma MergeKeysWhole(own: Repr, other: Repr, keys: seq<string>)
    requires forall k :: k in other <==> k in keys
    requires forall i, i' :: 0 <= i < i' < |keys| ==> keys[i] != keys[i']
    requires forall k :: k in other ==> !Unreadable(own, k)
    ensures MergeKeys(own, other, keys) == (None, Merged(own, other))
  {
    forall i | 0 <= i < |keys|
      ensures !Unreadable(own, keys[i])
    {
      assert keys[i] in other;
    }
    MergeKeysSpec(own, other, keys);
    if MergeableCount(own, keys) < |keys| {
      assert false;
    }
    assert Restrict(other, keys[..|keys|]) == other by {
      assert keys[..|keys|] == keys;
    }
  }

  lemma MergedNothing(own: Repr, other: Repr, keys: seq<string>)
    ensures Merged(own, Restrict(other, keys[..0])) == own
  {
    assert Restrict(other, keys[..0]) == map[];
  }

  /** The keys after the first are unaffected by merging the first: they are distinct from it. */
  lemma {:induction false} MergeableCountSame(a: Repr, b: Repr, keys: seq<string>)
    requires forall i :: 0 <= i < |keys| ==> (keys[i] in a <==> keys[i] in b)
    ensures MergeableCount(a, keys) == MergeableCount(b, keys)
    decreases |keys|
  {
    if keys != [] {
      MergeableCountSame(a, b, keys[1..]);
    }
  }

  /** Merging the first key, then the next `j`, is merging the first `j + 1`. */
  lemma MergedStep(own: Repr, other: Repr, keys: seq<string>, j: nat)
    requires forall i :: 0 <= i < |keys| ==> keys[i] in other
    requires forall i, i' :: 0 <= i < i' < |keys| ==> keys[i] != keys[i']
    requires 0 < |keys| && j < |keys|
    ensures var k := keys[0];
      Merged(own[k := Values(own, k) + other[k]], Restrict(other, keys[1..][..j])) ==
      Merged(own, Restrict(other, keys[..j + 1]))
  {
    RestrictCons(other, keys, j);
    MergedFirst(own, Restrict(other, keys[1..][..j]), keys[0], other[keys[0]]);
  }

  /** Restricting to the first key and `j` more adds the first key's entry to the restriction to those `j`. */
  lemma RestrictCons(other: Repr, keys: seq<string>, j: nat)
    requires forall i, i' :: 0 <= i < i' < |keys| ==> keys[i] != keys[i']
    requires 0 < |keys| && j < |keys| && keys[0] in other
    ensures keys[0] !in Restrict(other, keys[1..][..j])
    ensures Restrict(other, keys[..j + 1]) == Restrict(other, keys[1..][..j])[keys[0] := other[keys[0]]]
  {
    var k := keys[0];
    var later := keys[1..][..j];
    assert keys[..j + 1] == [k] + later;
    forall i | 0 <= i < j
      ensures later[i] != k
    {
      assert later[i] == keys[i + 1];
    }
    var r0, r1 := Restrict(other, keys[..j + 1]), Restrict(other, later)[k := other[k]];
    forall x
      ensures x in r0 <==> x in r1
    {
      assert x in keys[..j + 1] <==> x == k || x in later;
    }
  }

  /** Appending values to one key first is merging a side that holds that key too. */
  lemma MergedFirst(own: Repr, rest: Repr, k: string, vs: seq<MetaValue>)
    requires k !in rest
    ensures Merged(own[k := Values(own, k) + vs], rest) == Merged(own, rest[k := vs])
  {
    var lhs, rhs := Merged(own[k := Values(own, k) + vs], rest), Merged(own, rest[k := vs]);
    assert lhs.Keys == rhs.Keys;
    forall x | x in lhs
      ensures lhs[x] == rhs[x]
    {
    }
  }

  /** `getMap()` on a representation: the first value of every key that has one. */
  function FirstValues(repr: Repr): (r: map<string, MetaValue>)
    ensures forall k :: k in r <==> k in repr && repr[k] != []
    ensures forall k :: k in r ==> r[k] == repr[k][0]
  {
    map k | k in repr && repr[k] != [] :: repr[k][0]
  }

  /** A value as an HTTP/2 header text: a string as it is, bytes in base64. */
  function HeaderText(v: MetaValue): string
  {
    match v
    case Text(s) => s
    case Binary(d) => Encode(d)
  }

  /** `toHttp2Headers()`: every key with the header texts of its values. */
  function ToHeaders(repr: Repr): (r: map<string, seq<string>>)
    ensures r.Keys == repr.Keys
    ensures forall k :: k in r ==> |r[k]| == |repr[k]|
  {
    map k | k in repr :: seq(|repr[k]|, i requires 0 <= i < |repr[k]| => HeaderText(repr[k][i]))
  }

  /** An incoming header's value: a list of strings, one string, or nothing. */
  datatype HeaderValue = Listed(items: seq<string>) | Joined(text: string) | NoValue

  /**
   * The values `fromHttp2Headers` adds for one header: list items as they
   * are, a string's comma-separated pieces trimmed; under a binary key each
   * piece is base64-decoded.
   */
  function HeaderValues(key: string, h: HeaderValue): (r: seq<MetaValue>)
  {
    var pieces :=
      match h
      case Listed(items) => items
      case Joined(text) =>
        var parts := Split(text, ',');
        seq(|parts|, i requires 0 <= i < |parts| => Trim(parts[i]))
      case NoValue => [];
    if IsBinaryKey(key) then seq(|pieces|, i requires 0 <= i < |pieces| => Binary(Decode(pieces[i])))
    else seq(|pieces|, i requires 0 <= i < |pieces| => Text(pieces[i]))
  }

  /** `fromHttp2Headers(headers)` on a representation: the headers in order, stopping at the first error. */
  function FromEntries(repr: Repr, entries: seq<(string, HeaderValue)>): (r: (Option<string>, Repr))
    decreases |entries|
  {
    if entries == [] then (None, repr)
    else
      var (e, next) := AddAll(repr, entries[0].0, HeaderValues(entries[0].0, entries[0].1));
      if e.Some? then (e, next) else FromEntries(next, entries[1..])
  }

  /** The entries of headers as `toHttp2Headers` writes them, keys in the order `keys`. */
  function HeaderEntries(headers: map<string, seq<string>>, keys: seq<string>): (r: seq<(string, HeaderValue)>)
    requires forall i :: 0 <= i < |keys| ==> keys[i] in headers
    ensures |r| == |keys|
  {
    seq(|keys|, i requires 0 <= i < |keys| => (keys[i], Listed(headers[keys[i]])))
  }

  /** The part of `repr` under the keys `keys`. */
  function Restrict(repr: Repr, keys: seq<string>): Repr
  {
    map k | k in repr && k in keys :: repr[k]
  }

  /** A key's values come back from their header texts. */
  lemma HeaderValuesRoundTrip(repr: Repr, k: string)
    requires WellFormed(repr) && k in repr
    ensures HeaderValues(k, Listed(ToHeaders(repr)[k])) == repr[k]
  {
    var vs := repr[k];
    var hv := HeaderValues(k, Listed(ToHeaders(repr)[k]));
    forall i | 0 <= i < |vs|
      ensures hv[i] == vs[i]
    {
      assert Validate(k, Some(vs[i])).None?;
      if IsBinaryKey(k) {
        DecodeEncode(vs[i].data);
      }
    }
  }

  /**
   * The headers of a well-formed metadata read back, in any key order,
   * into an empty metadata give the same metadata: nothing fails, text
   * values return as they were and binary values survive base64.
   */
  lemma HeadersRoundTrip(repr: Repr, keys: seq<string>)
    requires WellFormed(repr) && forall k :: k in repr ==> !InheritedName(k)
    requires forall k :: k in repr <==> k in keys
    requires forall i, j :: 0 <= i < j < |keys| ==> keys[i] != keys[j]
    ensures FromEntries(map[], HeaderEntries(ToHeaders(repr), keys)) == (None, repr)
  {
    var entries := HeaderEntries(ToHeaders(repr), keys);
    HeadersRoundTripFrom(repr, keys, 0);
    assert entries[0..] == entries;
    RestrictEnds(repr, keys);
  }

  /** Restricting to no key leaves nothing; to all the keys, everything. */
  lemma RestrictEnds(repr: Repr, keys: seq<string>)
    requires forall k :: k in repr <==> k in keys
    ensures Restrict(repr, keys[..0]) == map[]
    ensures Restrict(repr, keys) == repr
  {
  }

  lemma {:induction false} HeadersRoundTripFrom(repr: Repr, keys: seq<string>, j: nat)
    requires WellFormed(repr) && forall k :: k in repr ==> !InheritedName(k)
    requires forall k :: k in repr <==> k in keys
    requires forall i, i' :: 0 <= i < i' < |keys| ==> keys[i] != keys[i']
    requires j <= |keys|
    ensures FromEntries(Restrict(repr, keys[..j]), HeaderEntries(ToHeaders(repr), keys)[j..]) ==
      (None, Restrict(repr, keys))
    decreases |keys| - j
  {
    var entries := HeaderEntries(ToHeaders(repr), keys);
    if j == |keys| {
      assert keys[..j] == keys;
      assert entries[j..] == [];
    } else {
      var acc := Restrict(repr, keys[..j]);
      var next := Restrict(repr, keys[..j + 1]);
      AddKeyStep(repr, keys, j);
      FromEntriesStep(acc, entries[j..], next);
      assert entries[j..][1..] == entries[j + 1..];
      HeadersRoundTripFrom(repr, keys, j + 1);
    }
  }

  /** Adding the values of the `j`-th key to the metadata of the keys before it gives that of the keys up to it. */
  lemma AddKeyStep(repr: Repr, keys: seq<string>, j: nat)
    requires WellFormed(repr) && forall k :: k in repr ==> !InheritedName(k)
    requires forall k :: k in repr <==> k in keys
    requires forall i, i' :: 0 <= i < i' < |keys| ==> keys[i] != keys[i']
    requires j < |keys|
    ensures var entry := HeaderEntries(ToHeaders(repr), keys)[j];
      AddAll(Restrict(repr, keys[..j]), entry.0, HeaderValues(entry.0, entry.1)) ==
      (None, Restrict(repr, keys[..j + 1]))
  {
    var k := keys[j];
    var acc := Restrict(repr, keys[..j]);
    assert k in repr;
    var entry := HeaderEntries(ToHeaders(repr), keys)[j];
    assert entry == (k, Listed(ToHeaders(repr)[k]));
    HeaderValuesRoundTrip(repr, k);
    LegalKeyIsLower(k);
    AddAllValid(acc, k, repr[k]);
    RestrictSnoc(repr, keys, j);
    assert repr[k] != [] && Values(acc, k) == [];
    assert Values(acc, k) + repr[k] == repr[k];
    assert AddAll(acc, k, repr[k]) == (None, acc[k := repr[k]]);
  }

  /** `constructor` and `__proto__` are legal keys, neither of them binary. */
  lemma InheritedKeysAreLegal()
    ensures IsLegalKey("constructor") && !IsBinaryKey("constructor")
    ensures IsLegalKey("__proto__") && !IsBinaryKey("__proto__")
  {
    assert "constructor"[|"constructor"| - 4..] == "ctor";
    assert "__proto__"[|"__proto__"| - 4..] == "to__";
  }

  /**
   * `set('constructor', v)` stores an own key, so a well-formed metadata
   * can hold an inherited name; yet its headers do not read back: adding
   * them to an empty metadata finds the inherited value and throws.
   */
  lemma InheritedKeyDoesNotReadBack(k: string, v: MetaValue)
    requires (k == "constructor" || k == "__proto__") && Validate(k, Some(v)).None?
    ensures WellFormed(map[k := [v]])
    ensures FromEntries(map[], HeaderEntries(ToHeaders(map[k := [v]]), [k])) == (Some(PushError), map[])
  {
    InheritedKeysAreLegal();
    SingleWellFormed(k, v);
    var entries := HeaderEntries(ToHeaders(map[k := [v]]), [k]);
    assert entries != [] && entries[0].0 == k && HeaderValues(k, entries[0].1) == [v] by {
      SingleEntry(k, v);
    }
    assert AddAll(map[], k, [v]) == (Some(PushError), map[]) by {
      assert Unreadable(map[], k);
      LegalKeyIsLower(k);
      assert AddOne(map[], k, v) == (Some(PushError), map[]);
    }
    FromEntriesFails(map[], entries, k, [v]);
  }

  /** The headers of a single-entry metadata list that entry's key with its value. */
  lemma SingleEntry(k: string, v: MetaValue)
    requires IsLegalKey(k) && Validate(k, Some(v)).None?
    ensures var entries := HeaderEntries(ToHeaders(map[k := [v]]), [k]);
      entries != [] && entries[0].0 == k && HeaderValues(k, entries[0].1) == [v]
  {
    var repr := map[k := [v]];
    SingleWellFormed(k, v);
    HeaderValuesRoundTrip(repr, k);
    var h := ToHeaders(repr);
    assert HeaderEntries(h, [k])[0] == (k, Listed(h[k]));
  }

  /** One valid value under a legal key is a well-formed metadata. */
  lemma SingleWellFormed(k: string, v: MetaValue)
    requires IsLegalKey(k) && Validate(k, Some(v)).None?
    ensures WellFormed(map[k := [v]])
  {
    assert map[k := [v]][k] == [v];
  }

  /** `fromHttp2Headers` stops at a first header that throws, with that header's error. */
  lemma FromEntriesFails(acc: Repr, entries: seq<(string, HeaderValue)>, key: string, values: seq<MetaValue>)
    requires entries != [] && entries[0].0 == key && HeaderValues(key, entries[0].1) == values
    requires AddAll(acc, key, values).0.Some?
    ensures FromEntries(acc, entries) == AddAll(acc, key, values)
  {
  }

  /** Restricting to one more key, not among the earlier distinct ones, adds that key's entry. */
  lemma RestrictSnoc(repr: Repr, keys: seq<string>, j: nat)
    requires forall i, i' :: 0 <= i < i' < |keys| ==> keys[i] != keys[i']
    requires j < |keys| && keys[j] in repr
    ensures keys[j] !in Restrict(repr, keys[..j])
    ensures Restrict(repr, keys[..j + 1]) == Restrict(repr, keys[..j])[keys[j] := repr[keys[j]]]
  {
    var k := keys[j];
    var acc := Restrict(repr, keys[..j]);
    assert k !in acc by {
      forall i | 0 <= i < j ensures keys[i] != k { }
    }
    assert keys[..j + 1] == keys[..j] + [k];
    var next := Restrict(repr, keys[..j + 1]);
    forall x
      ensures x in acc[k := repr[k]] <==> x in next
    {
      assert x in keys[..j + 1] <==> x in keys[..j] || x == k;
    }
  }

  lemma FromEntriesStep(acc: Repr, entries: seq<(string, HeaderValue)>, next: Repr)
    requires entries != []
    requires AddAll(acc, entries[0].0, HeaderValues(entries[0].0, entries[0].1)) == (None, next)
    ensures FromEntries(acc, entries) == FromEntries(next, entries[1..])
  {
  }

  /** A `Metadata` object. */
  class Metadata {
    var internalRepr: Repr

    constructor()
      ensures internalRepr == map[]
    {
      internalRepr := map[];
    }

    /**
     * `set(key, value)`: the key, lower-cased, holds just this value; an
     * invalid pair throws and changes nothing. Assigning `__proto__`
     * replaces the object's prototype instead of storing an entry.
     */
    method Set(key: string, value: MetaValue) returns (err: Option<string>)
      modifies this
      ensures err == Validate(ToLower(key), Some(value))
      ensures err.None? && ToLower(key) != "__proto__" ==> internalRepr == old(internalRepr)[ToLower(key) := [value]]
      ensures err.Some? || ToLower(key) == "__proto__" ==> internalRepr == old(internalRepr)
    {
      var k := ToLower(key);
      err := Validate(k, Some(value));
      if err.None? && k != "__proto__" {
        internalRepr := internalRepr[k := [value]];
      }
    }

    /** `add(key, value)`: the value is appended to the key's list, which starts if missing. */
    method Add(key: string, value: MetaValue) returns (err: Option<string>)
      modifies this
      ensures (err, internalRepr) == AddOne(old(internalRepr), key, value)
    {
      var k := ToLower(key);
      err := Validate(k, Some(value));
      if err.None? {
        if k !in internalRepr && InheritedName(k) {
          err := Some(PushError);
        } else if k !in internalRepr {
          assert Values(internalRepr, k) + [value] == [value];
          internalRepr := internalRepr[k := [value]];
        } else {
          internalRepr := internalRepr[k := internalRepr[k] + [value]];
        }
      }
    }

    /** `remove(key)`: the key and its values go; an illegal key throws. */
    method Remove(key: string) returns (err: Option<string>)
      modifies this
      ensures err == Validate(ToLower(key), None)
      ensures err.None? ==> internalRepr == old(internalRepr) - {ToLower(key)}
      ensures err.Some? ==> internalRepr == old(internalRepr)
    {
      var k := ToLower(key);
      err := Validate(k, None);
      if err.None? && k in internalRepr {
        internalRepr := internalRepr - {k};
      }
    }

    /** `get(key)`. */
    function Get(key: string): (r: Result<seq<MetaValue>>)
      reads this
      ensures r == Lookup(internalRepr, key)
    {
      var k := ToLower(key);
      var e := Validate(k, None);
      if e.Some? then Err(e.value)
      else if k in internalRepr then Ok(internalRepr[k])
      else Ok([])
    }

    /** `getMap()`. */
    function GetMap(): (r: map<string, MetaValue>)
      reads this
      ensures r == FirstValues(internalRepr)
    {
      map k | k in internalRepr && |internalRepr[k]| > 0 :: internalRepr[k][0]
    }

    /**
     * `merge(other)`, the other's keys visited in the order `keys` its
     * object lists them. Each key is written once, so the other's values
     * are those it held before, even when it is this same metadata.
     */
    method Merge(other: Metadata, keys: seq<string>) returns (err: Option<string>)
      requires forall k :: k in other.internalRepr <==> k in keys
      requires forall i, i' :: 0 <= i < i' < |keys| ==> keys[i] != keys[i']
      modifies this
      ensures (err, internalRepr) == MergeKeys(old(internalRepr), old(other.internalRepr), keys)
    {
      var from := other.internalRepr;
      var i := 0;
      while i < |keys|
        invariant 0 <= i <= |keys|
        invariant MergeKeys(internalRepr, from, keys[i..]) == MergeKeys(old(internalRepr), from, keys)
      {
        assert keys[i..][0] == keys[i] && keys[i..][1..] == keys[i + 1..];
        var k := keys[i];
        if k !in internalRepr && InheritedName(k) {
          err := Some(ConcatError);
          return;
        }
        internalRepr := internalRepr[k := Values(internalRepr, k) + from[k]];
        i := i + 1;
      }
      assert keys[i..] == [];
      err := None;
    }

    /** `toHttp2Headers()`. */
    function ToHttp2Headers(): (r: map<string, seq<string>>)
      reads this
      ensures r == ToHeaders(internalRepr)
    {
      var repr := internalRepr;
      map k | k in repr :: seq(|repr[k]|, i requires 0 <= i < |repr[k]| => HeaderText(repr[k][i]))
    }

    /**
     * `fromHttp2Headers(headers)`, the headers given in the order the
     * object lists them: each value is added in turn; the first that fails
     * validation throws, leaving what was added before it.
     */
    method FromHttp2Headers(entries: seq<(string, HeaderValue)>) returns (err: Option<string>)
      modifies this
      ensures (err, internalRepr) == FromEntries(old(internalRepr), entries)
    {
      var i := 0;
      err := None;
      while i < |entries|
        invariant 0 <= i <= |entries|
        invariant err.None?
        invariant FromEntries(internalRepr, entries[i..]) == FromEntries(old(internalRepr), entries)
      {
        assert entries[i..][0] == entries[i] && entries[i..][1..] == entries[i + 1..];
        ghost var before := internalRepr;
        err := AddValues(entries[i].0, HeaderValues(entries[i].0, entries[i].1));
        if err.Some? {
          assert FromEntries(before, entries[i..]) == (err, internalRepr);
          return;
        }
        i := i + 1;
      }
      assert entries[i..] == [];
    }

    /** `add(key, v)` for each value in turn, until one throws. */
    method AddValues(key: string, values: seq<MetaValue>) returns (err: Option<string>)
      modifies this
      ensures (err, internalRepr) == AddAll(old(internalRepr), key, values)
    {
      var j := 0;
      err := None;
      while j < |values|
        invariant 0 <= j <= |values|
        invariant err.None?
        invariant AddAll(internalRepr, key, values[j..]) == AddAll(old(internalRepr), key, values)
      {
        assert values[j..][0] == values[j] && values[j..][1..] == values[j + 1..];
        ghost var before := internalRepr;
        err := Add(key, values[j]);
        if err.Some? {
          assert AddAll(before, key, values[j..]) == (err, internalRepr);
          return;
        }
        j := j + 1;
      }
      assert values[j..] == [];
    }
  }
}
