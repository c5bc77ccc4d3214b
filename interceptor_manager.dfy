/**
 * The chain registry: a dictionary from `name + "_" + token` to a chain of
 * interceptors ending in a terminal invoker, and the entry points that drive
 * a registered chain for one call.
 */
module Managers {
  import opened Wrappers
  import opened Descriptors
  import opened Arguments
  import opened Interceptors

  type Chains = map<string, seq<Interceptor>>

  /** Every stored chain is non-empty and ends in a terminal invoker. */
  ghost predicate ValidChains(chains: Chains) {
    forall key :: key in chains ==> |chains[key]| > 0 && chains[key][|chains[key]| - 1].Invoker?
  }

  /** The dictionary after a registration, and the exception the registration threw, if any. */
  datatype Registration = Registration(chains: Chains, failure: Option<Fault>)

  /**
   * `RegisterMethodInterceptorChain(m, interceptors)`: stores `interceptors` followed by
   * an invoker for `m` under the member's key; `Dictionary.Add` refuses a key already present.
   */
  function Register(chains: Chains, m: Member, interceptors: seq<Interceptor>): (r: Registration)
    ensures r.failure.Some? <==> MemberKey(m) in chains
    ensures r.failure.Some? ==> r.failure.value == DuplicateKey(MemberKey(m))
    ensures r.chains.Keys == chains.Keys + {MemberKey(m)}
    ensures forall key :: key in chains ==> r.chains[key] == chains[key]
    ensures r.failure.None? ==>
      var chain := r.chains[MemberKey(m)];
      |chain| == |interceptors| + 1 && chain[..|interceptors|] == interceptors &&
      chain[|interceptors|] == Invoker(m)
    ensures ValidChains(chains) ==> ValidChains(r.chains)
  {
    var key := MemberKey(m);
    if key in chains then Registration(chains, Some(DuplicateKey(key)))
    else Registration(chains[key := interceptors + [Invoker(m)]], None)
  }

  function NotFoundMessage(key: string): string {
    "Could not find first interceptor for " + key
  }

  /** The context `InvokeInterceptors` builds: a fresh envelope over (typeName, methodName, args). */
  function CallContext(args: seq<Value>, behaviour: Behaviour, typeName: string, methodName: string,
                       catalog: Catalog, isVoid: bool): Context {
    Context(methodName, args, Pairs(catalog, typeName, methodName, args), behaviour, isVoid)
  }

  /** What `InvokeInterceptors<T>` (or `InvokeInterceptorsVoid` when `isVoid`) does for one call. */
  function Invoke(chains: Chains, args: seq<Value>, behaviour: Behaviour, typeName: string, methodName: string,
                  methodToken: string, catalog: Catalog, isVoid: bool): (e: Effect)
    requires ValidChains(chains)
    ensures Key(methodName, methodToken) !in chains ==>
      e == Effect(Threw(ChainNotFound(NotFoundMessage(Key(methodName, methodToken)))), [])
  {
    var key := Key(methodName, methodToken);
    if key !in chains then Effect(Threw(ChainNotFound(NotFoundMessage(key))), [])
    else
      var r := RunChain(chains[key], CallContext(args, behaviour, typeName, methodName, catalog, isVoid));
      Effect(r.out, r.calls)
  }

  /** Once `kinds` is registered for `m`, a call with m's name and token text runs `kinds`
      first to last around the invoker for `m`. */
  lemma RegisteredChainRuns(chains: Chains, m: Member, kinds: seq<InterceptorKind>, args: seq<Value>,
                            behaviour: Behaviour, typeName: string, catalog: Catalog, isVoid: bool)
    requires ValidChains(chains) && MemberKey(m) !in chains
    ensures var after := Register(chains, m, Instances(kinds)).chains;
      ValidChains(after) &&
      Invoke(after, args, behaviour, typeName, m.name, IntToString(m.token), catalog, isVoid)
        == Nested(kinds, m, CallContext(args, behaviour, typeName, m.name, catalog, isVoid))
  {
    var after := Register(chains, m, Instances(kinds)).chains;
    assert after[MemberKey(m)] == Instances(kinds) + [Invoker(m)];
    ChainIsNested(kinds, m, CallContext(args, behaviour, typeName, m.name, catalog, isVoid));
  }

  class InterceptorManagerService {
    /** `RegisteredInterceptors`. */
    var chains: Chains

    ghost predicate Valid()
      reads this
    {
      ValidChains(chains)
    }

    /** A new manager holds no chains. */
    constructor ()
      ensures Valid() && chains == map[]
    {
      chains := map[];
    }

    method RegisterMethodInterceptorChain(m: Member, interceptors: seq<Interceptor>) returns (failure: Option<Fault>)
      requires Valid()
      modifies this`chains
      ensures Valid()
      ensures Registration(chains, failure) == Register(old(chains), m, interceptors)
    {
      var queue := interceptors + [Invoker(m)];
      var key := MemberKey(m);
      if key in chains {
        return Some(DuplicateKey(key));
      }
      chains := chains[key := queue];
      failure := None;
    }

    /** Looks the chain up and returns a fresh cursor over it. */
    method GetInterceptorChain(methodName: string, methodToken: string) returns (r: Result<Cursor, Fault>)
      ensures Key(methodName, methodToken) !in chains ==>
        r == Err(ChainNotFound(NotFoundMessage(Key(methodName, methodToken))))
      ensures Key(methodName, methodToken) in chains ==>
        r.Ok? && fresh(r.value) && r.value.chain == chains[Key(methodName, methodToken)] && r.value.pos == 0
    {
      var methodIdentifier := Key(methodName, methodToken);
      if methodIdentifier !in chains {
        return Err(ChainNotFound(NotFoundMessage(methodIdentifier)));
      }
      var cursor := new Cursor(chains[methodIdentifier]);
      return Ok(cursor);
    }

    /** Shared body of the two entry points: build the envelope, take the first link, execute it. */
    method Drive(args: seq<Value>, instance: Target, typeName: string, methodName: string, methodToken: string,
                 catalog: Catalog, isVoid: bool) returns (o: Outcome)
      requires Valid()
      modifies instance`received
      ensures var e := Invoke(chains, args, instance.behaviour, typeName, methodName, methodToken, catalog, isVoid);
        o == e.out && instance.received == old(instance.received) + e.calls
    {
      var methodArgs := new MethodArgs(typeName, methodName, args, catalog);
      var found := GetInterceptorChain(methodName, methodToken);
      if found.Err? {
        return Threw(found.error);
      }
      var cursor := found.value;
      var first := cursor.GetNext();
      o := Execute(first.value, cursor, methodName, methodArgs, instance, isVoid);
    }

    /** `InvokeInterceptors<T>`. */
    method InvokeInterceptors(args: seq<Value>, instance: Target, typeName: string, methodName: string,
                              methodToken: string, catalog: Catalog) returns (o: Outcome)
      requires Valid()
      modifies instance`received
      ensures var e := Invoke(chains, args, instance.behaviour, typeName, methodName, methodToken, catalog, false);
        o == e.out && instance.received == old(instance.received) + e.calls
    {
      o := Drive(args, instance, typeName, methodName, methodToken, catalog, false);
    }

    /** `InvokeInterceptorsVoid`. */
    method InvokeInterceptorsVoid(args: seq<Value>, instance: Target, typeName: string, methodName: string,
                                  methodToken: string, catalog: Catalog) returns (o: Outcome)
      requires Valid()
      modifies instance`received
      ensures var e := Invoke(chains, args, instance.behaviour, typeName, methodName, methodToken, catalog, true);
        o == e.out && instance.received == old(instance.received) + e.calls
    {
      o := Drive(args, instance, typeName, methodName, methodToken, catalog, true);
    }

    /** `MethodHasInterceptors`: whether a chain is stored under `methodName + "_" + methodToken`. */
    method MethodHasInterceptors(methodName: string, methodToken: string) returns (r: bool)
      ensures r <==> Key(methodName, methodToken) in chains
    {
      var methodIdentifier := Key(methodName, methodToken);
      r := methodIdentifier in chains;
    }
  }
}
