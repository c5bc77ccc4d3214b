/**
 * The call envelope: the raw argument array of one call, plus the list of
 * (parameter name, value) pairs it resolves on first request and caches.
 */
module Arguments {
  import opened Wrappers
  import opened Descriptors

  datatype Pair = Pair(key: string, value: Value)

  function MissingMessage(typeName: string, methodName: string): string {
    "Could not find " + methodName + " in " + typeName
  }

  /** `Type.GetType(typeName)?.GetMethod(methodName)`, reduced to its parameter names. */
  function ResolveParameters(catalog: Catalog, typeName: string, methodName: string): Option<seq<string>> {
    if typeName !in catalog then None
    else match LookupMethod(catalog[typeName], methodName)
      case Some(m) => Some(m.params)
      case None => None
  }

  function Keys(ps: seq<Pair>): (r: seq<string>)
    ensures |r| == |ps| && forall i :: 0 <= i < |ps| ==> r[i] == ps[i].key
  {
    seq(|ps|, i requires 0 <= i < |ps| => ps[i].key)
  }

  function Values(ps: seq<Pair>): (r: seq<Value>)
    ensures |r| == |ps| && forall i :: 0 <= i < |ps| ==> r[i] == ps[i].value
  {
    seq(|ps|, i requires 0 <= i < |ps| => ps[i].value)
  }

  /**
   * What reading `ArgumentPairs` yields: the missing-method error when the type
   * or the method does not resolve, an out-of-range error when there are fewer
   * arguments than parameters, and otherwise one pair per parameter.
   */
  function Pairs(catalog: Catalog, typeName: string, methodName: string, args: seq<Value>): (r: Result<seq<Pair>, Fault>)
    ensures ResolveParameters(catalog, typeName, methodName).None? ==>
      r == Err(MissingMethod(MissingMessage(typeName, methodName)))
    ensures ResolveParameters(catalog, typeName, methodName).Some? ==>
      var names := ResolveParameters(catalog, typeName, methodName).value;
      (r.Err? <==> |args| < |names|) &&
      (r.Err? ==> r.error == ArgumentOutOfRange) &&
      (r.Ok? ==> Keys(r.value) == names && Values(r.value) == args[..|names|])
  {
    match ResolveParameters(catalog, typeName, methodName)
    case None => Err(MissingMethod(MissingMessage(typeName, methodName)))
    case Some(names) =>
      if |args| < |names| then Err(ArgumentOutOfRange)
      else Ok(seq(|names|, i requires 0 <= i < |names| => Pair(names[i], args[i])))
  }

  /** Pair i carries parameter i's name and argument i, null values included. */
  lemma PairAt(catalog: Catalog, typeName: string, methodName: string, args: seq<Value>, i: nat)
    requires Pairs(catalog, typeName, methodName, args).Ok?
    requires i < |Pairs(catalog, typeName, methodName, args).value|
    ensures ResolveParameters(catalog, typeName, methodName).Some?
    ensures var names := ResolveParameters(catalog, typeName, methodName).value;
      i < |names| && i < |args| &&
      Pairs(catalog, typeName, methodName, args).value[i] == Pair(names[i], args[i])
  {
    var ps := Pairs(catalog, typeName, methodName, args).value;
    assert Keys(ps)[i] == ps[i].key && Values(ps)[i] == ps[i].value;
  }

  class MethodArgs {
    const typeName: string
    const methodName: string
    /** The argument values exactly as passed in. */
    const Arguments: seq<Value>
    /** The runtime types `Type.GetType` resolves against. */
    const catalog: Catalog
    /** The `Lazy` holder: empty until the first read, then the value or the exception it produced. */
    var cache: Option<Result<seq<Pair>, Fault>>
    /** How many times the value factory has run. */
    ghost var evaluations: nat

    /** What the named view of these arguments is, whenever it is computed. */
    function Resolved(): Result<seq<Pair>, Fault> {
      Pairs(catalog, typeName, methodName, Arguments)
    }

    ghost predicate Valid()
      reads this
    {
      match cache
      case None => evaluations == 0
      case Some(r) => evaluations == 1 && r == Resolved()
    }

    /** Stores the three values; no name resolution happens here. */
    constructor (typeName: string, methodName: string, args: seq<Value>, catalog: Catalog)
      ensures Valid()
      ensures this.typeName == typeName && this.methodName == methodName
      ensures Arguments == args && this.catalog == catalog
      ensures cache == None && evaluations == 0
    {
      this.typeName := typeName;
      this.methodName := methodName;
      Arguments := args;
      this.catalog := catalog;
      cache := None;
      evaluations := 0;
    }

    /** The value factory: resolves the method and pairs each parameter with its argument. */
    method ValueFactory() returns (r: Result<seq<Pair>, Fault>)
      ensures r == Resolved()
    {
      var resolved := ResolveParameters(catalog, typeName, methodName);
      if resolved.None? {
        return Err(MissingMethod(MissingMessage(typeName, methodName)));
      }
      var names := resolved.value;
      var acc: seq<Pair> := [];
      for i := 0 to |names|
        invariant i <= |Arguments|
        invariant |acc| == i
        invariant forall k :: 0 <= k < i ==> acc[k] == Pair(names[k], Arguments[k])
      {
        if i >= |Arguments| {
          return Err(ArgumentOutOfRange);
        }
        acc := acc + [Pair(names[i], Arguments[i])];
      }
      assert acc == seq(|names|, k requires 0 <= k < |names| => Pair(names[k], Arguments[k]));
      return Ok(acc);
    }

    /** `ArgumentPairs`: runs the factory on the first read only; later reads return what it produced. */
    method ArgumentPairs() returns (r: Result<seq<Pair>, Fault>)
      requires Valid()
      modifies this`cache, this`evaluations
      ensures Valid()
      ensures r == Resolved() && cache == Some(r) && evaluations == 1
      ensures old(cache).Some? ==> cache == old(cache) && evaluations == old(evaluations)
    {
      if cache.None? {
        var v := ValueFactory();
        cache := Some(v);
        evaluations := evaluations + 1;
      }
      r := cache.value;
    }
  }
}
