/**
 * The balancer of an address group: the factory that turns the group's
 * `loadbalancerClass` option into a balancer, and the base class's
 * `select`, which handles lists of size 0 and 1 itself and hands longer
 * lists to the balancer's own `_doSelect`.
 *
 * A class the application supplies is known here only by name; its
 * `_doSelect` is passed in as a function (`supplied`).
 */
module Balancing {
  import opened Common
  import opened RandomBalancing
  import opened RoundRobinBalancing
  import opened ConsistentHashing

  /** The balancer classes: the three built in, or one the application supplies. */
  datatype Kind = RandomKind | RoundRobinKind | ConsistentHashKind | Supplied(className: string)

  /**
   * The `loadbalancerClass` option as the factory sees it: a string, a
   * class (a function value), or any other value, kept as its text.
   */
  datatype ClassOption = Named(name: string) | ClassValue(kind: Kind) | OtherValue(text: string)

  /** The table of built-in balancers, by name. */
  function BuiltIn(name: string): Option<Kind>
  {
    if name == "random" then Some(RandomKind)
    else if name == "roundRobin" then Some(RoundRobinKind)
    else if name == "consistentHash" then Some(ConsistentHashKind)
    else None
  }

  /**
   * The table of built-in balancers is a plain object, so a name it does
   * not hold can still find a property of `Object.prototype`: a method such
   * as `toString` passes the assertion and then cannot be called with `new`.
   */
  const NotConstructorError: string := "loadbalancerClass is not a constructor"

  /**
   * `constructor` finds `Object`, and `new Object(group)` is the group
   * itself, which has no `reset`; the group's first address list throws.
   */
  const NoResetError: string := "this._loadbalancer.reset is not a function"

  /** The factory's assertion message for an option that is not a class. */
  function InvalidError(text: string): string
  {
    "loadbalancerClass:" + text + " invalid"
  }

  /**
   * The factory's choice of class: a name is looked up among the built-in
   * balancers, a class is taken as it is, and anything else fails the
   * factory's assertion.
   */
  function Resolve(option: ClassOption): (r: Result<Kind>)
    ensures r.Err? ==> !option.ClassValue?
    ensures option.OtherValue? ==> r == Err(InvalidError(option.text))
  {
    match option
    case Named(name) =>
      if BuiltIn(name).Some? then Ok(BuiltIn(name).value)
      else if name == "constructor" then Err(NoResetError)
      else if InheritedName(name) && name != "__proto__" then Err(NotConstructorError)
      else Err(InvalidError(name))
    case ClassValue(kind) => Ok(kind)
    case OtherValue(text) => Err(InvalidError(text))
  }

  /**
   * Exactly the three built-in names resolve, each to its own balancer; a
   * class is never refused and is used unchanged; any other value is
   * refused. A refused name fails the assertion unless the table inherits
   * it: `constructor` yields a balancer without `reset`, the inherited
   * methods cannot be constructed, and `__proto__` is an object.
   */
  lemma ResolveSpec(option: ClassOption)
    ensures option.Named? ==>
      (Resolve(option).Ok? <==> option.name in {"random", "roundRobin", "consistentHash"}) &&
      (Resolve(option).Ok? ==> !Resolve(option).value.Supplied?)
    ensures option.Named? && Resolve(option).Err? ==>
      Resolve(option).error ==
        if option.name == "constructor" then NoResetError
        else if InheritedName(option.name) && option.name != "__proto__" then NotConstructorError
        else InvalidError(option.name)
    ensures Resolve(Named("random")) == Ok(RandomKind)
    ensures Resolve(Named("roundRobin")) == Ok(RoundRobinKind)
    ensures Resolve(Named("consistentHash")) == Ok(ConsistentHashKind)
    ensures Resolve(Named("toString")) == Err(NotConstructorError)
    ensures Resolve(Named("__proto__")) == Err(InvalidError("__proto__"))
    ensures option.ClassValue? ==> Resolve(option) == Ok(option.kind)
    ensures option.OtherValue? ==> Resolve(option).Err?
  {
  }

  /**
   * A balancer bound to its group. Only the balancer of its kind has state:
   * the round-robin cursor or the consistent-hash ring.
   */
  class LoadBalancer {
    const kind: Kind
    const roundRobin: WeightRoundRobin?
    const ring: ConsistentHash?
    /** the active list handed to the last `reset` */
    ghost var active: seq<Address>

    ghost predicate Valid()
      reads this, roundRobin, ring
    {
      (kind.RoundRobinKind? <==> roundRobin != null) &&
      (kind.ConsistentHashKind? <==> ring != null) &&
      (roundRobin != null && active != [] ==> roundRobin.offset < |active|) &&
      (ring != null ==> ring.Valid() && ring.members == active)
    }

    /** `new loadbalancerClass(addressGroup)`, whose constructor calls `reset()` without a list. */
    constructor(kind: Kind, md5: string -> Digest)
      ensures Valid() && this.kind == kind && active == []
      ensures roundRobin != null ==> fresh(roundRobin) && roundRobin.offset == 0 && !roundRobin.inFilter
      ensures ring != null ==> fresh(ring) && ring.virtualNodes == map[] && ring.md5 == md5
    {
      this.kind := kind;
      if kind.RoundRobinKind? {
        roundRobin := new WeightRoundRobin();
      } else {
        roundRobin := null;
      }
      if kind.ConsistentHashKind? {
        ring := new ConsistentHash(md5);
      } else {
        ring := null;
      }
      active := [];
    }

    /**
     * `reset(val)` with the active list the group settles on: the round
     * robin draws a new cursor, the consistent hash rebuilds its ring, the
     * other balancers keep nothing.
     */
    method Reset(list: seq<Address>, u: real)
      requires Valid() && 0.0 <= u < 1.0
      modifies this, roundRobin, ring
      ensures Valid() && active == list
      ensures roundRobin != null ==>
        roundRobin.offset == Draw(u, |list| as real) &&
        roundRobin.filterOffset == old(roundRobin.filterOffset) && roundRobin.inFilter == old(roundRobin.inFilter)
      ensures ring != null ==> ring.virtualNodes == Ring(list, ring.md5)
    {
      if roundRobin != null {
        roundRobin.Reset(list, u);
      }
      if ring != null {
        ring.Reset(list);
      }
      active := list;
    }

    /**
     * `select(request)`: nothing from an empty list, the only address of a
     * one-address list, and otherwise the balancer's own choice over the
     * list. `weight` is the group's `getWeight`; `u` and `draws` are the
     * random draws; `args` are the request's arguments.
     */
    method Select(addrs: seq<Address>, weight: Address -> real, u: real, draws: seq<real>,
                  args: seq<Value>, stringify: Value -> string, supplied: seq<Address> -> Option<Address>)
      returns (r: Option<Address>)
      requires Valid() && (addrs == active || addrs == [])
      requires 0.0 <= u < 1.0 && |addrs| <= |draws|
      modifies roundRobin
      ensures Valid()
      ensures |addrs| == 0 ==> r == None
      ensures |addrs| == 1 ==> r == Some(addrs[0])
      ensures |addrs| > 1 ==> match kind
        case RandomKind => r == Choice(addrs, weight, u)
        case ConsistentHashKind => r == Selected(ring.virtualNodes, ring.sortKeys, ring.md5, stringify, args)
        case RoundRobinKind => r.Some? && Picked(addrs, weight, draws, u, old(roundRobin.State()), r.value, roundRobin.State())
        case Supplied(_) => r == supplied(addrs)
      ensures !kind.Supplied? && (forall a :: a in addrs ==> weight(a) >= 0.0) ==>
        (r.Some? <==> addrs != []) && (r.Some? ==> r.value in addrs)
    {
      if |addrs| == 0 {
        return None;
      }
      if |addrs| == 1 {
        return Some(addrs[0]);
      }
      match kind
      case RandomKind =>
        r := RandomBalancing.DoSelect(addrs, weight, u);
        if forall a :: a in addrs ==> weight(a) >= 0.0 {
          ChoiceInList(addrs, weight, u);
        }
      case RoundRobinKind =>
        var address := roundRobin.DoSelect(addrs, weight, draws, u);
        r := Some(address);
      case ConsistentHashKind =>
        r := ring.DoSelect(args, stringify);
      case Supplied(_) =>
        r := supplied(addrs);
    }
  }
}
