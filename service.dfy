/**
 * A published service on the server: its id, the return types its API
 * description declares, the registration it publishes (with its custom
 * metadata), the conversion of results for the Java side, and the result
 * codes an invocation records.
 */
module Services {
  import opened Common
  import opened GrpcCallStream
  import opened GrpcResponses

  /** One method of the API description: its name, return type and generic types. */
  datatype MethodMeta = MethodMeta(name: string, returnType: Value, generic: Value)

  /** A `returnTypes` entry: `{ $class, generic }`. */
  datatype ReturnType = ReturnType(cls: Value, generic: Value)

  /**
   * The options a service is built from. A missing `uniqueId` or
   * `interfaceName` is "", a missing `apiMeta` is None.
   */
  datatype ServiceOptions = ServiceOptions(
    interfaceName: string,
    version: string,
    group: string,
    uniqueId: string,
    customMeta: Value,
    apiMeta: Option<seq<MethodMeta>>,
    hasRegistry: bool)

  /** `id`: `interface:version`, then `:uniqueId` when one is set. */
  function ServiceId(o: ServiceOptions): (id: string)
  {
    if o.uniqueId != "" then o.interfaceName + ":" + o.version + ":" + o.uniqueId
    else o.interfaceName + ":" + o.version
  }

  /**
   * The id splits back at ':' into the interface, the version and the
   * unique id when it is set, when none of them holds a ':'; its first
   * piece, which the server reads as the interface, is the interface.
   */
  lemma ServiceIdSplits(o: ServiceOptions)
    requires ':' !in o.interfaceName && ':' !in o.version && ':' !in o.uniqueId
    ensures Split(ServiceId(o), ':') ==
      [o.interfaceName, o.version] + (if o.uniqueId != "" then [o.uniqueId] else [])
    ensures Split(ServiceId(o), ':')[0] == o.interfaceName
  {
    var pieces := [o.interfaceName, o.version] + (if o.uniqueId != "" then [o.uniqueId] else []);
    if o.uniqueId != "" {
      assert Join(pieces[1..], ':') == o.version + ":" + o.uniqueId;
    }
    assert Join(pieces, ':') == ServiceId(o);
    SplitJoin(pieces, ':');
  }

  /** `customMeta`: an object's own keys, an array's indices; {} for a value that is not an object; none for null. */
  function CustomMetaOf(v: Value): (r: Option<map<string, Value>>)
  {
    match v
    case Object(fields) => Some(fields)
    case List(items) => Some(IndexFields(items))
    case Null => None
    case _ => Some(map[])
  }

  /** An array's entries under the texts of their indices. */
  function IndexFields(items: seq<Value>): (r: map<string, Value>)
    ensures forall i :: 0 <= i < |items| ==> NatToString(i) in r
  {
    if items == [] then map[]
    else IndexFields(items[..|items| - 1])[NatToString(|items| - 1) := items[|items| - 1]]
  }

  /** The `returnTypes` entry of one method. */
  function ReturnTypeOf(m: MethodMeta): ReturnType
  {
    ReturnType(m.returnType, m.generic)
  }

  /** `returnTypes` after the methods in order: a later method of the same name replaces an earlier one. */
  function ReturnTypes(methods: seq<MethodMeta>): (r: map<string, ReturnType>)
  {
    if methods == [] then map[]
    else ReturnTypes(methods[..|methods| - 1])[methods[|methods| - 1].name := ReturnTypeOf(methods[|methods| - 1])]
  }

  /** Every method has an entry and there is no other. */
  lemma {:induction false} ReturnTypesKeys(methods: seq<MethodMeta>)
    ensures forall k :: k in ReturnTypes(methods) <==> exists i :: 0 <= i < |methods| && methods[i].name == k
    decreases |methods|
  {
    if methods != [] {
      var init := methods[..|methods| - 1];
      ReturnTypesKeys(init);
      forall k
        ensures k in ReturnTypes(methods) <==> exists i :: 0 <= i < |methods| && methods[i].name == k
      {
        if k in ReturnTypes(methods) && k != methods[|methods| - 1].name {
          assert k in ReturnTypes(init);
          var i :| 0 <= i < |init| && init[i].name == k;
          assert methods[i].name == k;
        }
        if exists i :: 0 <= i < |methods| && methods[i].name == k {
          var i :| 0 <= i < |methods| && methods[i].name == k;
          if i < |init| {
            assert init[i].name == k;
          }
        }
      }
    }
  }

  /** Each name's entry is that of the last method of that name. */
  lemma {:induction false} ReturnTypesLast(methods: seq<MethodMeta>, i: nat)
    requires i < |methods|
    requires forall j :: i < j < |methods| ==> methods[j].name != methods[i].name
    ensures methods[i].name in ReturnTypes(methods)
    ensures ReturnTypes(methods)[methods[i].name] == ReturnTypeOf(methods[i])
    decreases |methods|
  {
    if i < |methods| - 1 {
      var init := methods[..|methods| - 1];
      assert init[i] == methods[i];
      forall j | i < j < |init|
        ensures init[j].name != init[i].name
      {
        assert init[j] == methods[j];
      }
      ReturnTypesLast(init, i);
    }
  }

  // ---------------------------------------------------------------------------
  // Registration
  // ---------------------------------------------------------------------------

  /** A URL as the registration handles it: the text before the query, and the query's name-value pairs in order. */
  datatype Url = Url(base: string, query: seq<(string, string)>)

  /** The first value of a query parameter. */
  function Param(query: seq<(string, string)>, name: string): (r: Option<string>)
  {
    if query == [] then None
    else if query[0].0 == name then Some(query[0].1)
    else Param(query[1..], name)
  }

  /** `searchParams.set(name, value)`: the first pair of that name takes the value and the others go; none, and the pair is appended. */
  function SetParam(query: seq<(string, string)>, name: string, value: string): (r: seq<(string, string)>)
  {
    if Param(query, name).None? then query + [(name, value)]
    else SetFirst(query, name, value)
  }

  function SetFirst(query: seq<(string, string)>, name: string, value: string): seq<(string, string)>
  {
    if query == [] then []
    else if query[0].0 == name then [(name, value)] + Without(query[1..], name)
    else [query[0]] + SetFirst(query[1..], name, value)
  }

  function Without(query: seq<(string, string)>, name: string): (r: seq<(string, string)>)
    ensures Param(r, name).None? && Count(r, name) == 0
    ensures forall other :: other != name ==> Param(r, other) == Param(query, other) && Count(r, other) == Count(query, other)
    ensures Count(query, name) == 0 ==> r == query
  {
    if query == [] then []
    else if query[0].0 == name then Without(query[1..], name)
    else
      var rest := Without(query[1..], name);
      assert ([query[0]] + rest)[1..] == rest && query == [query[0]] + query[1..];
      [query[0]] + rest
  }

  /** How many pairs have the name. */
  function Count(query: seq<(string, string)>, name: string): nat
  {
    if query == [] then 0 else (if query[0].0 == name then 1 else 0) + Count(query[1..], name)
  }

  /** After `set`, the parameter reads as the value and no other parameter changes. */
  lemma {:induction false} SetParamSpec(query: seq<(string, string)>, name: string, value: string)
    ensures Param(SetParam(query, name, value), name) == Some(value)
    ensures forall other :: other != name ==> Param(SetParam(query, name, value), other) == Param(query, other)
  {
    if Param(query, name).None? {
      AppendParam(query, name, value);
    } else {
      SetFirstSpec(query, name, value);
    }
  }

  lemma {:induction false} AppendParam(query: seq<(string, string)>, name: string, value: string)
    requires Param(query, name).None?
    ensures Param(query + [(name, value)], name) == Some(value)
    ensures forall other :: other != name ==> Param(query + [(name, value)], other) == Param(query, other)
    decreases |query|
  {
    if query != [] {
      assert (query + [(name, value)])[1..] == query[1..] + [(name, value)];
      AppendParam(query[1..], name, value);
    }
  }

  lemma {:induction false} SetFirstSpec(query: seq<(string, string)>, name: string, value: string)
    ensures Param(query, name).Some? ==> Param(SetFirst(query, name, value), name) == Some(value)
    ensures forall other :: other != name ==> Param(SetFirst(query, name, value), other) == Param(query, other)
    decreases |query|
  {
    if query != [] && query[0].0 != name {
      SetFirstSpec(query[1..], name, value);
    }
  }

  /** After `set`, the name has one pair and other names keep their pairs. */
  lemma {:induction false} SetParamCount(query: seq<(string, string)>, name: string, value: string)
    ensures Count(SetParam(query, name, value), name) == 1
    ensures forall other :: other != name ==> Count(SetParam(query, name, value), other) == Count(query, other)
  {
    if Param(query, name).None? {
      AppendCount(query, name, value);
    } else {
      SetFirstCount(query, name, value);
    }
  }

  lemma {:induction false} AppendCount(query: seq<(string, string)>, name: string, value: string)
    requires Param(query, name).None?
    ensures Count(query + [(name, value)], name) == 1
    ensures forall other :: other != name ==> Count(query + [(name, value)], other) == Count(query, other)
    decreases |query|
  {
    if query != [] {
      assert (query + [(name, value)])[1..] == query[1..] + [(name, value)];
      AppendCount(query[1..], name, value);
    }
  }

  lemma {:induction false} SetFirstCount(query: seq<(string, string)>, name: string, value: string)
    requires Param(query, name).Some?
    ensures Count(SetFirst(query, name, value), name) == 1
    ensures forall other :: other != name ==> Count(SetFirst(query, name, value), other) == Count(query, other)
    decreases |query|
  {
    if query[0].0 == name {
      var w := Without(query[1..], name);
      assert ([(name, value)] + w)[1..] == w;
    } else {
      SetFirstCount(query[1..], name, value);
      assert ([query[0]] + SetFirst(query[1..], name, value))[1..] == SetFirst(query[1..], name, value);
    }
  }

  /** Setting a name that has one pair, to the value it holds, changes nothing. */
  lemma {:induction false} SetParamSame(query: seq<(string, string)>, name: string, value: string)
    requires Count(query, name) == 1 && Param(query, name) == Some(value)
    ensures SetParam(query, name, value) == query
  {
    SetFirstSame(query, name, value);
  }

  lemma {:induction false} SetFirstSame(query: seq<(string, string)>, name: string, value: string)
    requires Count(query, name) == 1 && Param(query, name) == Some(value)
    ensures SetFirst(query, name, value) == query
    decreases |query|
  {
    if query[0].0 == name {
      assert query == [(name, value)] + query[1..];
    } else {
      SetFirstSame(query[1..], name, value);
      assert query == [query[0]] + query[1..];
    }
  }

  /** `String(value)` for the values a URL parameter is set to. */
  function JsString(v: Value): string
  {
    match v
    case Undefined => "undefined"
    case Null => "null"
    case Bool(b) => if b then "true" else "false"
    case Number(n) => IntToString(n)
    case Str(s) => s
    case Object(_) => "[object Object]"
    case Failure(name, message) => if message == "" then name else name + ": " + message
    case _ => ""
  }

  /** Keys the custom metadata may not set. */
  const BlockList: set<string> := {"interface", "version", "group"}

  /** A custom entry is published when it is defined and not blocked. */
  predicate Published(key: string, value: Value)
  {
    value != Undefined && key !in BlockList
  }

  /** The query after setting the custom entries, in the order `keys`, that are published. */
  function CustomQuery(query: seq<(string, string)>, meta: map<string, Value>, keys: seq<string>): seq<(string, string)>
    requires forall i :: 0 <= i < |keys| ==> keys[i] in meta
  {
    if keys == [] then query
    else
      var last := keys[|keys| - 1];
      var q := CustomQuery(query, meta, keys[..|keys| - 1]);
      if Published(last, meta[last]) then SetParam(q, last, JsString(meta[last])) else q
  }

  /**
   * The published custom entries that reach the registration. They are
   * gathered by `Object.assign` into a plain object, where `__proto__` runs
   * the prototype setter instead of making an own key, so that one entry is
   * never copied on.
   */
  function CustomEntries(meta: map<string, Value>): (r: map<string, Value>)
  {
    map k | k in meta && Published(k, meta[k]) && k != "__proto__" :: meta[k]
  }

  /** The query of the registration URL: interface, version and group, then the published custom entries. */
  function RegQuery(o: ServiceOptions, url: Url, meta: map<string, Value>, keys: seq<string>): seq<(string, string)>
    requires forall i :: 0 <= i < |keys| ==> keys[i] in meta
  {
    var q := SetParam(SetParam(SetParam(url.query, "interface", o.interfaceName), "version", o.version), "group", o.group);
    CustomQuery(q, meta, keys)
  }

  /**
   * The registration `normalizeReg` builds: interface, version, group and
   * the URL's text, then the published custom entries, which replace
   * those fields where they share a key.
   */
  function Registration(o: ServiceOptions, urlText: string, meta: map<string, Value>): (r: map<string, Value>)
  {
    map["interfaceName" := Str(o.interfaceName), "version" := Str(o.version), "group" := Str(o.group),
        "url" := Str(urlText)] + CustomEntries(meta)
  }

  /**
   * The query carries the service's interface, version and group, which
   * custom entries cannot change, and every published custom entry as
   * text; the registration carries every published entry too, except
   * `__proto__`, which the query alone receives.
   */
  lemma {:induction false} RegQuerySpec(o: ServiceOptions, url: Url, meta: map<string, Value>, keys: seq<string>)
    requires forall i :: 0 <= i < |keys| ==> keys[i] in meta
    requires forall k :: k in meta ==> k in keys
    requires forall i, j :: 0 <= i < j < |keys| ==> keys[i] != keys[j]
    ensures var q := RegQuery(o, url, meta, keys);
      Param(q, "interface") == Some(o.interfaceName) && Param(q, "version") == Some(o.version) &&
      Param(q, "group") == Some(o.group) &&
      forall k :: k in meta && Published(k, meta[k]) ==> Param(q, k) == Some(JsString(meta[k]))
    ensures forall urlText, k :: k in meta && Published(k, meta[k]) && k != "__proto__" ==>
      Registration(o, urlText, meta)[k] == meta[k]
    ensures forall urlText :: "__proto__" !in Registration(o, urlText, meta)
  {
    var q0 := SetParam(SetParam(SetParam(url.query, "interface", o.interfaceName), "version", o.version), "group", o.group);
    SetParamSpec(url.query, "interface", o.interfaceName);
    SetParamSpec(SetParam(url.query, "interface", o.interfaceName), "version", o.version);
    SetParamSpec(SetParam(SetParam(url.query, "interface", o.interfaceName), "version", o.version), "group", o.group);
    CustomQuerySpec(q0, meta, keys);
  }

  lemma {:induction false} CustomQuerySpec(query: seq<(string, string)>, meta: map<string, Value>, keys: seq<string>)
    requires forall i :: 0 <= i < |keys| ==> keys[i] in meta
    requires forall i, j :: 0 <= i < j < |keys| ==> keys[i] != keys[j]
    ensures forall k :: k in BlockList ==>
      Param(CustomQuery(query, meta, keys), k) == Param(query, k) && Count(CustomQuery(query, meta, keys), k) == Count(query, k)
    ensures forall i :: 0 <= i < |keys| && Published(keys[i], meta[keys[i]]) ==>
      Param(CustomQuery(query, meta, keys), keys[i]) == Some(JsString(meta[keys[i]])) &&
      Count(CustomQuery(query, meta, keys), keys[i]) == 1
    decreases |keys|
  {
    if keys != [] {
      var last := keys[|keys| - 1];
      var init := keys[..|keys| - 1];
      var q := CustomQuery(query, meta, init);
      CustomQuerySpec(query, meta, init);
      if Published(last, meta[last]) {
        SetParamSpec(q, last, JsString(meta[last]));
        SetParamCount(q, last, JsString(meta[last]));
      }
      forall i | 0 <= i < |keys| && Published(keys[i], meta[keys[i]])
        ensures Param(CustomQuery(query, meta, keys), keys[i]) == Some(JsString(meta[keys[i]]))
        ensures Count(CustomQuery(query, meta, keys), keys[i]) == 1
      {
        if i < |init| {
          assert init[i] == keys[i] && keys[i] != last;
        }
      }
    }
  }

  /** Custom entries already set, each once, to their values are set again without change. */
  lemma {:induction false} CustomQueryFixed(query: seq<(string, string)>, meta: map<string, Value>, keys: seq<string>)
    requires forall i :: 0 <= i < |keys| ==> keys[i] in meta
    requires forall i :: 0 <= i < |keys| && Published(keys[i], meta[keys[i]]) ==>
      Count(query, keys[i]) == 1 && Param(query, keys[i]) == Some(JsString(meta[keys[i]]))
    ensures CustomQuery(query, meta, keys) == query
    decreases |keys|
  {
    if keys != [] {
      var last := keys[|keys| - 1];
      var init := keys[..|keys| - 1];
      forall i | 0 <= i < |init| && Published(init[i], meta[init[i]])
        ensures Count(query, init[i]) == 1 && Param(query, init[i]) == Some(JsString(meta[init[i]]))
      {
        assert init[i] == keys[i];
      }
      CustomQueryFixed(query, meta, init);
      if Published(last, meta[last]) {
        SetParamSame(query, last, JsString(meta[last]));
      }
    }
  }

  /**
   * Normalizing a URL that is already normalized gives it back: `unPublish`
   * unregisters the very registration `publish` registered.
   */
  lemma RegQueryIdempotent(o: ServiceOptions, url: Url, meta: map<string, Value>, keys: seq<string>)
    requires forall i :: 0 <= i < |keys| ==> keys[i] in meta
    requires forall i, j :: 0 <= i < j < |keys| ==> keys[i] != keys[j]
    ensures var url' := Url(url.base, RegQuery(o, url, meta, keys));
      RegQuery(o, url', meta, keys) == url'.query
  {
    var q1 := SetParam(url.query, "interface", o.interfaceName);
    var q2 := SetParam(q1, "version", o.version);
    var q0 := SetParam(q2, "group", o.group);
    SetParamSpec(url.query, "interface", o.interfaceName);
    SetParamSpec(q1, "version", o.version);
    SetParamSpec(q2, "group", o.group);
    SetParamCount(url.query, "interface", o.interfaceName);
    SetParamCount(q1, "version", o.version);
    SetParamCount(q2, "group", o.group);
    var q := CustomQuery(q0, meta, keys);
    CustomQuerySpec(q0, meta, keys);
    assert "interface" in BlockList && "version" in BlockList && "group" in BlockList;
    SetParamSame(q, "interface", o.interfaceName);
    SetParamSame(q, "version", o.version);
    SetParamSame(q, "group", o.group);
    CustomQueryFixed(q, meta, keys);
  }

  /** Custom entries named `interfaceName` or `url` are not blocked, so they replace the registration's own fields. */
  lemma CustomMetaOverridesRegistration(o: ServiceOptions, urlText: string, meta: map<string, Value>)
    requires "url" in meta && meta["url"] == Str("elsewhere")
    ensures Registration(o, urlText, meta)["url"] == Str("elsewhere")
  {
    assert "url" !in BlockList;
  }

  // ---------------------------------------------------------------------------
  // Results
  // ---------------------------------------------------------------------------

  /** Whether a result already carries a Java class: an object with a truthy `$class`. */
  predicate HasJavaClass(v: Value)
  {
    v.Object? && "$class" in v.fields && Truthy(v.fields["$class"])
  }

  /**
   * `convertResult`: protobuf results and null or undefined ones are left
   * alone; an error becomes a 'java.lang.Exception'; a result with a Java
   * class, or of a method without a return type, is left alone; any other
   * result is wrapped in its return type's class and generic types.
   * `returnTypes` is a plain object, so a method name it does not hold but
   * inherits from `Object.prototype` finds a truthy value without `$class`
   * or `generic`: the result is wrapped with both undefined.
   */
  function ConvertResult(codecType: string, returnTypes: map<string, ReturnType>, methodName: string, result: Value)
    : (r: Value)
  {
    if codecType == "protobuf" || result == Null || result == Undefined then result
    else if result.Failure? then Object(map["$class" := Str("java.lang.Exception"), "$" := result])
    else if HasJavaClass(result) then result
    else if methodName !in returnTypes && InheritedName(methodName) then
      Object(map["$class" := Undefined, "$" := result, "generic" := Undefined])
    else if methodName !in returnTypes then result
    else
      var rt := returnTypes[methodName];
      Object(map["$class" := rt.cls, "$" := result, "generic" := rt.generic])
  }

  /**
   * A converted result is the result itself or a wrapper holding it under
   * '$'; converting a wrapper again leaves it alone when its class is set,
   * as an exception's always is. A method without its own return type
   * leaves the result alone, unless its name is inherited.
   */
  lemma ConvertResultSpec(codecType: string, returnTypes: map<string, ReturnType>, methodName: string, result: Value)
    ensures var r := ConvertResult(codecType, returnTypes, methodName, result);
      r == result || (r.Object? && "$" in r.fields && r.fields["$"] == result)
    ensures result.Failure? && codecType != "protobuf" ==>
      ConvertResult(codecType, returnTypes, methodName, result).fields["$class"] == Str("java.lang.Exception")
    ensures var r := ConvertResult(codecType, returnTypes, methodName, result);
      HasJavaClass(r) ==> ConvertResult(codecType, returnTypes, methodName, r) == r
    ensures codecType == "protobuf" || HasJavaClass(result) ==> ConvertResult(codecType, returnTypes, methodName, result) == result
    ensures (codecType != "protobuf" && !result.Failure? && result != Null && result != Undefined &&
             !HasJavaClass(result) && methodName in returnTypes) ==>
      ConvertResult(codecType, returnTypes, methodName, result) ==
        Object(map["$class" := returnTypes[methodName].cls, "$" := result, "generic" := returnTypes[methodName].generic])
    ensures (codecType != "protobuf" && !result.Failure? && result != Null && result != Undefined &&
             !HasJavaClass(result) && methodName !in returnTypes) ==>
      ConvertResult(codecType, returnTypes, methodName, result) ==
        if InheritedName(methodName) then Object(map["$class" := Undefined, "$" := result, "generic" := Undefined])
        else result
  {
  }

  // ---------------------------------------------------------------------------
  // Invocation
  // ---------------------------------------------------------------------------

  /** A name as JavaScript writes it into text: the name, or 'undefined'. */
  function NameText(name: Option<string>): (t: string)
  {
    if name.Some? then name.value else "undefined"
  }

  /** What calling the delegate's method came to: no such async method, a value, or a thrown error. */
  datatype MethodOutcome = NoMethod | Returned(value: Value) | Threw(name: string, message: string, resultCode: string)

  /**
   * The result code an invocation sets, if any, and the data it would
   * send: a missing method is '04' with a 'Can not find method' message; a
   * thrown error keeps its own result code, else '02' for a 'SystemError'
   * and '01' for any other; a returned value sets none.
   */
  function CallResult(id: string, methodName: string, outcome: MethodOutcome): (r: (Option<string>, SendData))
  {
    match outcome
    case NoMethod => (Some("04"), SendData(true, "Can not find method: " + id + "#" + methodName + "()", Null))
    case Returned(v) => (None, SendData(false, "", v))
    case Threw(name, message, rc) =>
      var code := if rc != "" then rc else if name == "SystemError" then "02" else "01";
      (Some(code), SendData(true, message, Failure(name, message)))
  }

  lemma CallResultSpec(id: string, methodName: string, outcome: MethodOutcome)
    ensures var (code, data) := CallResult(id, methodName, outcome);
      (code.None? <==> outcome.Returned?) && (data.isError <==> !outcome.Returned?)
    ensures outcome.NoMethod? ==> CallResult(id, methodName, outcome).0 == Some("04")
    ensures outcome.NoMethod? ==>
      CallResult(id, methodName, outcome).1.errorMsg == "Can not find method: " + id + "#" + methodName + "()"
    ensures outcome.Threw? && outcome.resultCode == "" ==>
      CallResult(id, methodName, outcome).0 == Some(if outcome.name == "SystemError" then "02" else "01")
    ensures outcome.Threw? && outcome.resultCode != "" ==> CallResult(id, methodName, outcome).0 == Some(outcome.resultCode)
    ensures outcome.Threw? ==> CallResult(id, methodName, outcome).1.errorMsg == outcome.message
    ensures outcome.Returned? ==> CallResult(id, methodName, outcome).1.appResponse == outcome.value
  {
  }

  /** `timeout && rt >= timeout`: a deadline that is set and reads as a number the call has reached. */
  predicate TimedOut(timeout: Deadline, rt: int)
  {
    match timeout
    case Millis(ms) => ms != 0 && rt >= ms
    case HeaderText(t) => t != "" && JsNumber(t).Some? && rt >= JsNumber(t).value
    case _ => false
  }

  /** No deadline, or NaN, never times a call out; a deadline of n ms does so from rt n on. */
  lemma TimedOutSpec(rt: int, ms: int)
    ensures !TimedOut(NoDeadline, rt) && !TimedOut(NotANumber, rt)
    ensures ms != 0 ==> (TimedOut(Millis(ms), rt) <==> rt >= ms)
    ensures !TimedOut(Millis(0), rt)
  {
  }

  /** An `RpcService`. */
  class RpcService {
    const options: ServiceOptions
    const id: string
    const customMeta: Option<map<string, Value>>
    const returnTypes: map<string, ReturnType>
    /** the registration URL last published, whose text is `publishUrl` */
    var publishUrl: Option<Url>

    /** `new RpcService(options)`, once its options have passed the `interfaceName` assertion. */
    constructor(o: ServiceOptions)
      requires o.interfaceName != ""
      ensures options == o && id == ServiceId(o) && customMeta == CustomMetaOf(o.customMeta)
      ensures returnTypes == ReturnTypes(if o.apiMeta.Some? then o.apiMeta.value else [])
      ensures publishUrl.None?
    {
      options := o;
      customMeta := CustomMetaOf(o.customMeta);
      id := ServiceId(o);
      var methods := if o.apiMeta.Some? then o.apiMeta.value else [];
      var types: map<string, ReturnType> := map[];
      var i := 0;
      while i < |methods|
        invariant 0 <= i <= |methods|
        invariant types == ReturnTypes(methods[..i])
      {
        assert methods[..i + 1][..i] == methods[..i];
        types := types[methods[i].name := ReturnTypeOf(methods[i])];
        i := i + 1;
      }
      assert methods[..i] == methods;
      returnTypes := types;
      publishUrl := None;
    }

    /**
     * `normalizeReg(url)`: the URL's query with the interface, version,
     * group and published custom entries set, in the order `keys` of the
     * custom metadata's own keys; and the registration, `serialize` giving
     * the URL's text. A null custom metadata throws.
     */
    method NormalizeReg(url: Url, keys: seq<string>, serialize: Url -> string)
      returns (r: Result<(map<string, Value>, Url)>)
      requires customMeta.Some? ==> forall i :: 0 <= i < |keys| ==> keys[i] in customMeta.value
      ensures customMeta.None? ==> r.Err?
      ensures customMeta.Some? ==>
        var url' := Url(url.base, RegQuery(options, url, customMeta.value, keys));
        r == Ok((Registration(options, serialize(url'), customMeta.value), url'))
    {
      if customMeta.None? {
        return Err("Cannot convert undefined or null to object");
      }
      var meta := customMeta.value;
      var query := SetParam(SetParam(SetParam(url.query, "interface", options.interfaceName), "version", options.version),
        "group", options.group);
      var i := 0;
      while i < |keys|
        invariant 0 <= i <= |keys|
        invariant query == CustomQuery(SetParam(SetParam(SetParam(url.query, "interface", options.interfaceName), "version",
          options.version), "group", options.group), meta, keys[..i])
      {
        assert keys[..i + 1][..i] == keys[..i];
        var value := meta[keys[i]];
        if Published(keys[i], value) {
          query := SetParam(query, keys[i], JsString(value));
        }
        i := i + 1;
      }
      assert keys[..i] == keys;
      var url' := Url(url.base, query);
      r := Ok((Registration(options, serialize(url'), meta), url'));
    }

    /**
     * `publish(url)`: without a registry nothing happens; otherwise the
     * registration URL becomes `publishUrl` and the registration is
     * returned for the registry to register.
     */
    method Publish(url: Url, keys: seq<string>, serialize: Url -> string) returns (r: Option<Result<map<string, Value>>>)
      requires customMeta.Some? ==> forall i :: 0 <= i < |keys| ==> keys[i] in customMeta.value
      modifies this
      ensures !options.hasRegistry ==> r.None? && publishUrl == old(publishUrl)
      ensures options.hasRegistry && customMeta.None? ==> r.Some? && r.value.Err? && publishUrl == old(publishUrl)
      ensures options.hasRegistry && customMeta.Some? ==>
        var url' := Url(url.base, RegQuery(options, url, customMeta.value, keys));
        r == Some(Ok(Registration(options, serialize(url'), customMeta.value))) && publishUrl == Some(url')
    {
      if !options.hasRegistry {
        return None;
      }
      var reg := NormalizeReg(url, keys, serialize);
      if reg.Err? {
        return Some(Err(reg.error));
      }
      publishUrl := Some(reg.value.1);
      r := Some(Ok(reg.value.0));
    }

    /**
     * `unPublish()`: without a registry or a published URL nothing
     * happens; otherwise the registration of the published URL, normalized
     * again, is returned for the registry to unregister. Since
     * normalizing is idempotent, that is the registration `publish`
     * registered.
     */
    method UnPublish(keys: seq<string>, serialize: Url -> string) returns (r: Option<Result<map<string, Value>>>)
      requires customMeta.Some? ==> forall i :: 0 <= i < |keys| ==> keys[i] in customMeta.value
      requires customMeta.Some? ==> forall i, j :: 0 <= i < j < |keys| ==> keys[i] != keys[j]
      ensures !options.hasRegistry || publishUrl.None? ==> r.None?
      ensures options.hasRegistry && publishUrl.Some? && customMeta.None? ==> r.Some? && r.value.Err?
      ensures options.hasRegistry && publishUrl.Some? && customMeta.Some? ==>
        var pu := publishUrl.value;
        r == Some(Ok(Registration(options, serialize(Url(pu.base, RegQuery(options, pu, customMeta.value, keys))), customMeta.value)))
      ensures forall url: Url ::
        (options.hasRegistry && customMeta.Some? &&
         publishUrl == Some(Url(url.base, RegQuery(options, url, customMeta.value, keys)))) ==>
        r == Some(Ok(Registration(options, serialize(publishUrl.value), customMeta.value)))
    {
      if !options.hasRegistry || publishUrl.None? {
        return None;
      }
      var reg := NormalizeReg(publishUrl.value, keys, serialize);
      if reg.Err? {
        return Some(Err(reg.error));
      }
      forall url: Url | customMeta.Some? && publishUrl == Some(Url(url.base, RegQuery(options, url, customMeta.value, keys)))
        ensures reg.value.1 == publishUrl.value
      {
        RegQueryIdempotent(options, url, customMeta.value, keys);
      }
      r := Some(Ok(reg.value.0));
    }

    /**
     * `invoke(ctx, req, res)`, `outcome` being what the delegate's method
     * came to, `encode` the response type's encoding and `now`,
     * `encodeStart` the clock.
     */
    method Invoke(req: ServerRequest, res: GrpcResponse, outcome: MethodOutcome,
                  encode: Value -> seq<byte>, encodeStart: int, now: int)
      requires forall v :: |encode(v)| <= MaxFrameLength
      modifies res
      ensures var (m, reply) := InvokeResult(old(res.meta), old(res.closed), res.hasResponseType, id, returnTypes,
                                             req, outcome, encode, encodeStart, now);
        res.meta == m && res.sent == old(res.sent) + (if reply.Some? && res.streamOpen then [reply.value] else [])
      ensures res.closed == old(res.closed)
    {
      ghost var result := InvokeResult(res.meta, res.closed, res.hasResponseType, id, returnTypes, req, outcome,
                                       encode, encodeStart, now);
      var methodName := NameText(req.methodName);
      var code, data := CallResult(id, methodName, outcome).0, CallResult(id, methodName, outcome).1;
      if code.Some? {
        res.meta := res.meta.(resultCode := code.value);
      }
      res.meta := res.meta.(rt := now - res.meta.start);
      if TimedOut(req.timeout, res.meta.rt) {
        res.meta := res.meta.(resultCode := "03");
        assert result == (res.meta, None);
        return;
      }
      if res.closed {
        assert result == (res.meta, None);
        return;
      }
      data := data.(appResponse := ConvertResult(req.codecType, returnTypes, methodName, data.appResponse));
      ghost var sent := SendOutcome(res.meta, data, res.hasResponseType, encode(data.appResponse), encodeStart, now);
      assert result == (sent.0, Some(sent.1));
      res.Send(data, encode(data.appResponse), encodeStart, now);
    }
  }

  /**
   * What an invocation leaves in the response's meta and the reply it
   * sends, if any: the call's result code and rt are recorded; past the
   * deadline the code becomes '03' and nothing is sent; on a closed stream
   * nothing is sent; otherwise the converted result or the error is sent.
   */
  function InvokeResult(meta: ResponseMeta, closed: bool, hasResponseType: bool, id: string,
                        returnTypes: map<string, ReturnType>, req: ServerRequest, outcome: MethodOutcome,
                        encode: Value -> seq<byte>, encodeStart: int, now: int): (r: (ResponseMeta, Option<Reply>))
    requires forall v :: |encode(v)| <= MaxFrameLength
  {
    var methodName := NameText(req.methodName);
    var (code, data) := CallResult(id, methodName, outcome);
    var meta1 := meta.(resultCode := if code.Some? then code.value else meta.resultCode, rt := now - meta.start);
    if TimedOut(req.timeout, meta1.rt) then (meta1.(resultCode := "03"), None)
    else if closed then (meta1, None)
    else
      var data' := data.(appResponse := ConvertResult(req.codecType, returnTypes, methodName, data.appResponse));
      var (m, reply) := SendOutcome(meta1, data', hasResponseType, encode(data'.appResponse), encodeStart, now);
      (m, Some(reply))
  }

  /**
   * Past the deadline a call records '03' and sends nothing, whatever the
   * method did; on a closed stream it records the method's code and sends
   * nothing. Answered in time, every failure (a missing method or a thrown
   * error, whatever its own code) leaves '02' and sends gRPC status 2
   * with the failure's message, while a value keeps the response's code
   * and, for a method with a response type, sends the frame of the
   * converted value's encoding.
   */
  lemma InvokeResultSpec(meta: ResponseMeta, closed: bool, hasResponseType: bool, id: string,
                         returnTypes: map<string, ReturnType>, req: ServerRequest, outcome: MethodOutcome,
                         encode: Value -> seq<byte>, encodeStart: int, now: int)
    requires forall v :: |encode(v)| <= MaxFrameLength
    ensures var (m, reply) := InvokeResult(meta, closed, hasResponseType, id, returnTypes, req, outcome, encode, encodeStart, now);
      m.rt == now - meta.start && m.start == meta.start && m.reqSize == meta.reqSize
    ensures var (m, reply) := InvokeResult(meta, closed, hasResponseType, id, returnTypes, req, outcome, encode, encodeStart, now);
      TimedOut(req.timeout, now - meta.start) ==> m.resultCode == "03" && reply.None?
    ensures var (m, reply) := InvokeResult(meta, closed, hasResponseType, id, returnTypes, req, outcome, encode, encodeStart, now);
      !TimedOut(req.timeout, now - meta.start) && closed ==>
        reply.None? && m.resultCode == (if outcome.Returned? then meta.resultCode else CallResult(id, NameText(req.methodName), outcome).0.value)
    ensures var (m, reply) := InvokeResult(meta, closed, hasResponseType, id, returnTypes, req, outcome, encode, encodeStart, now);
      !TimedOut(req.timeout, now - meta.start) && !closed && !outcome.Returned? ==>
        m.resultCode == "02" && reply.Some? && reply.value.trailers["grpc-status"] == Number(2) &&
        reply.value.trailers["grpc-message"] == Str(CallResult(id, NameText(req.methodName), outcome).1.errorMsg)
    ensures var (m, reply) := InvokeResult(meta, closed, hasResponseType, id, returnTypes, req, outcome, encode, encodeStart, now);
      !TimedOut(req.timeout, now - meta.start) && !closed && outcome.Returned? ==>
        m.resultCode == meta.resultCode && reply.Some? && reply.value.trailers["grpc-status"] == Number(0) &&
        (hasResponseType ==>
           reply.value.body == Frame(encode(ConvertResult(req.codecType, returnTypes, NameText(req.methodName), outcome.value))))
  {
    var methodName := NameText(req.methodName);
    var (code, data) := CallResult(id, methodName, outcome);
    var meta1 := meta.(resultCode := if code.Some? then code.value else meta.resultCode, rt := now - meta.start);
    if !TimedOut(req.timeout, meta1.rt) && !closed {
      var data' := data.(appResponse := ConvertResult(req.codecType, returnTypes, methodName, data.appResponse));
      SendOutcomeSpec(meta1, data', hasResponseType, encode(data'.appResponse), encodeStart, now);
    }
  }
}
