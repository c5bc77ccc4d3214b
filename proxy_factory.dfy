/**
 * The proxy factory: registers a chain for every member the source matches,
 * then fixes, member by member, whether the generated proxy passes the call
 * straight to the wrapped instance or hands it to the manager. The generated
 * type itself is a dispatch table with one entry per member.
 */
module Factories {
  import opened Wrappers
  import opened Descriptors
  import opened Interceptors
  import opened Managers
  import TypeParsing

  /** What the generated body of one member does. */
  datatype Entry =
    | PassThrough
      /** Calls `InvokeInterceptorsVoid` when `isVoid`, otherwise `InvokeInterceptors<ReturnType>`. */
    | Chain(methodName: string, methodToken: string, isVoid: bool)

  /** `RegisterInterceptors`: one registration per member with a non-empty match, in member
      order; the first exception the manager throws ends the loop and the construction. */
  function RegisterAll(chains: Chains, members: seq<Member>, matching: Member -> seq<Interceptor>): (r: Registration)
    ensures ValidChains(chains) ==> ValidChains(r.chains)
    ensures forall key :: key in chains ==> key in r.chains && r.chains[key] == chains[key]
    decreases |members|
  {
    if |members| == 0 then Registration(chains, None)
    else
      var found := matching(members[0]);
      if |found| == 0 then RegisterAll(chains, members[1..], matching)
      else
        var r := Register(chains, members[0], found);
        if r.failure.Some? then r else RegisterAll(r.chains, members[1..], matching)
  }

  /** The registration keys of `members`. */
  ghost function MemberKeys(members: seq<Member>): set<string> {
    set m | m in members :: MemberKey(m)
  }

  lemma MemberKeysTail(members: seq<Member>)
    requires |members| > 0
    ensures MemberKeys(members) == {MemberKey(members[0])} + MemberKeys(members[1..])
  {
    assert forall x :: x in members <==> x == members[0] || x in members[1..];
  }

  /** Registration adds no key other than those of the members it visits. */
  lemma {:induction false} RegisterAllAddsMemberKeys(chains: Chains, members: seq<Member>,
                                                     matching: Member -> seq<Interceptor>)
    ensures RegisterAll(chains, members, matching).chains.Keys <= chains.Keys + MemberKeys(members)
    decreases |members|
  {
    if |members| > 0 {
      var found := matching(members[0]);
      var after := if |found| == 0 then chains else Register(chains, members[0], found).chains;
      RegisterAllAddsMemberKeys(after, members[1..], matching);
      assert MemberKeys(members) == {MemberKey(members[0])} + MemberKeys(members[1..]) by {
        assert forall x :: x in members <==> x == members[0] || x in members[1..];
      }
    }
  }

  /** The choice `ImplementMethod` makes for `m`: pass through unless the source has
      interceptors and the manager holds a chain under the member's name and token text. */
  function Decide(interceptors: seq<Interceptor>, chains: Chains, m: Member): (e: Entry)
    ensures e.PassThrough? <==> |interceptors| == 0 || MemberKey(m) !in chains
    ensures e.Chain? ==> Key(e.methodName, e.methodToken) == MemberKey(m) && e.isVoid == m.isVoid
  {
    if |interceptors| == 0 || MemberKey(m) !in chains then PassThrough
    else Chain(m.name, IntToString(m.token), m.isVoid)
  }

  /** `CreateMethods`: one entry per member, in member order. */
  function Table(interceptors: seq<Interceptor>, chains: Chains, members: seq<Member>): (t: seq<Entry>)
    ensures |t| == |members|
    ensures forall i :: 0 <= i < |members| ==> t[i] == Decide(interceptors, chains, members[i])
  {
    seq(|members|, i requires 0 <= i < |members| => Decide(interceptors, chains, members[i]))
  }

  /** Every chain entry of a table looks up a key that is present. */
  ghost predicate Routed(table: seq<Entry>, chains: Chains) {
    forall i :: 0 <= i < |table| && table[i].Chain? ==> Key(table[i].methodName, table[i].methodToken) in chains
  }

  /** What a call of member `m` with `actuals` does through `entry`: a pass-through enters
      the wrapped instance's member directly, a chain entry goes through the manager. */
  function Dispatch(entry: Entry, m: Member, chains: Chains, typeName: string, catalog: Catalog,
                    actuals: seq<Value>, behaviour: Behaviour): (e: Effect)
    requires ValidChains(chains)
    ensures entry.PassThrough? ==> e.calls == [Invocation(m, actuals)] && e.out == DirectCall(m, behaviour, actuals)
    ensures entry.Chain? && Key(entry.methodName, entry.methodToken) !in chains ==>
      e.out == Threw(ChainNotFound(NotFoundMessage(Key(entry.methodName, entry.methodToken)))) && e.calls == []
  {
    match entry
    case PassThrough => Effect(DirectCall(m, behaviour, actuals), [Invocation(m, actuals)])
    case Chain(methodName, methodToken, isVoid) =>
      Invoke(chains, actuals, behaviour, typeName, methodName, methodToken, catalog, isVoid)
  }

  /** The table of a factory never names a key the manager lacks. */
  lemma TableIsRouted(interceptors: seq<Interceptor>, chains: Chains, members: seq<Member>)
    ensures Routed(Table(interceptors, chains, members), chains)
  {
    var t := Table(interceptors, chains, members);
    forall i | 0 <= i < |t| && t[i].Chain? ensures Key(t[i].methodName, t[i].methodToken) in chains {
      assert t[i] == Decide(interceptors, chains, members[i]);
    }
  }

  /** Members with distinct (name, token) pairs and no chain yet all register without error;
      exactly the matched ones get a chain, made of their matches and their invoker. */
  lemma {:induction false} RegisterAllSucceeds(chains: Chains, members: seq<Member>,
                                               matching: Member -> seq<Interceptor>)
    requires UniqueIdentities(members)
    requires forall m :: m in members ==> MemberKey(m) !in chains
    ensures var r := RegisterAll(chains, members, matching);
      r.failure.None? &&
      (forall i :: 0 <= i < |members| ==> (MemberKey(members[i]) in r.chains <==> |matching(members[i])| > 0)) &&
      (forall i :: 0 <= i < |members| && |matching(members[i])| > 0 ==>
         r.chains[MemberKey(members[i])] == matching(members[i]) + [Invoker(members[i])])
    decreases |members|
  {
    if |members| > 0 {
      var m := members[0];
      var rest := members[1..];
      var after := if |matching(m)| == 0 then chains else Register(chains, m, matching(m)).chains;
      assert UniqueIdentities(rest) by {
        forall i, j | 0 <= i < j < |rest| ensures rest[i].name != rest[j].name || rest[i].token != rest[j].token {
          assert rest[i] == members[i + 1] && rest[j] == members[j + 1];
        }
      }
      forall x | x in rest ensures MemberKey(x) != MemberKey(m) && MemberKey(x) !in after {
        var j :| 0 <= j < |rest| && rest[j] == x;
        assert members[j + 1] == x;
        if MemberKey(x) == MemberKey(m) {
          MemberKeyInjective(x, m);
        }
      }
      RegisterAllSucceeds(after, rest, matching);
      RegisterAllAddsMemberKeys(after, rest, matching);
      var r := RegisterAll(chains, members, matching);
      assert r == RegisterAll(after, rest, matching);
      forall i | 0 <= i < |members|
        ensures MemberKey(members[i]) in r.chains <==> |matching(members[i])| > 0
        ensures |matching(members[i])| > 0 ==> r.chains[MemberKey(members[i])] == matching(members[i]) + [Invoker(members[i])]
      {
        if i > 0 {
          assert members[i] == rest[i - 1];
        }
      }
    }
  }

  /** One step of registration, with the manager's `Register` written out. */
  lemma RegisterAllUnfold(chains: Chains, members: seq<Member>, matching: Member -> seq<Interceptor>)
    requires |members| > 0
    ensures var m := members[0];
      var found := matching(m);
      RegisterAll(chains, members, matching) ==
        if |found| == 0 then RegisterAll(chains, members[1..], matching)
        else if MemberKey(m) in chains then Registration(chains, Some(DuplicateKey(MemberKey(m))))
        else RegisterAll(chains[MemberKey(m) := found + [Invoker(m)]], members[1..], matching)
  {
  }

  /** The only exception registration can end with is the manager's duplicate-key error,
      for the key of a member it visits. */
  lemma {:induction false} RegisterAllFailsOnDuplicate(chains: Chains, members: seq<Member>,
                                                       matching: Member -> seq<Interceptor>)
    ensures var r := RegisterAll(chains, members, matching);
      r.failure.Some? ==> r.failure.value.DuplicateKey? && r.failure.value.key in MemberKeys(members)
    decreases |members|
  {
    if |members| > 0 {
      var m := members[0];
      var found := matching(m);
      if |found| == 0 || MemberKey(m) !in chains {
        var after := if |found| == 0 then chains else chains[MemberKey(m) := found + [Invoker(m)]];
        RegisterAllFailsOnDuplicate(after, members[1..], matching);
        MemberKeysTail(members);
      } else {
        MemberKeysTail(members);
      }
    }
  }

  /** Registration cannot get past a matched member whose key the manager already holds. */
  lemma {:induction false} RegistrationStopsAtKnownKey(chains: Chains, members: seq<Member>,
                                                       matching: Member -> seq<Interceptor>, k: nat)
    requires k < |members| && |matching(members[k])| > 0 && MemberKey(members[k]) in chains
    ensures RegisterAll(chains, members, matching).failure.Some?
    decreases |members|
  {
    RegisterAllUnfold(chains, members, matching);
    var m := members[0];
    var found := matching(m);
    if k > 0 && !(|found| > 0 && MemberKey(m) in chains) {
      var after := if |found| == 0 then chains else chains[MemberKey(m) := found + [Invoker(m)]];
      assert members[1..][k - 1] == members[k];
      RegistrationStopsAtKnownKey(after, members[1..], matching, k - 1);
    }
  }

  /** Registering the same members again, on a manager that already holds the chain of one
      matched member, fails with the manager's duplicate-key error: a second factory cannot
      share the manager of a first. */
  lemma ReRegistrationFails(chains: Chains, members: seq<Member>, matching: Member -> seq<Interceptor>, k: nat)
    requires k < |members| && |matching(members[k])| > 0 && MemberKey(members[k]) in chains
    ensures var r := RegisterAll(chains, members, matching);
      r.failure.Some? && r.failure.value.DuplicateKey? && r.failure.value.key in MemberKeys(members)
  {
    RegistrationStopsAtKnownKey(chains, members, matching, k);
    RegisterAllFailsOnDuplicate(chains, members, matching);
  }

  /** End to end: a matched member of a freshly registered factory runs its interceptors, first
      to last, around the invoker, through the overload its return kind selects. */
  lemma DispatchRunsChain(chains: Chains, members: seq<Member>, matching: Member -> seq<Interceptor>,
                          interceptors: seq<Interceptor>, i: nat, kinds: seq<InterceptorKind>,
                          typeName: string, catalog: Catalog, actuals: seq<Value>, behaviour: Behaviour)
    requires ValidChains(chains) && UniqueIdentities(members)
    requires forall m :: m in members ==> MemberKey(m) !in chains
    requires i < |members| && matching(members[i]) == Instances(kinds) && |kinds| > 0 && |interceptors| > 0
    ensures var reg := RegisterAll(chains, members, matching);
      var m := members[i];
      var entry := Table(interceptors, reg.chains, members)[i];
      entry == Chain(m.name, IntToString(m.token), m.isVoid) &&
      Dispatch(entry, m, reg.chains, typeName, catalog, actuals, behaviour)
        == Nested(kinds, m, CallContext(actuals, behaviour, typeName, m.name, catalog, m.isVoid))
  {
    var m := members[i];
    RegisterAllSucceeds(chains, members, matching);
    var reg := RegisterAll(chains, members, matching);
    assert reg.chains[MemberKey(m)] == Instances(kinds) + [Invoker(m)];
    ChainIsNested(kinds, m, CallContext(actuals, behaviour, typeName, m.name, catalog, m.isVoid));
  }

  /** A member the source does not match passes straight through: one direct call of the
      wrapped instance's member with the same arguments, whatever the source holds. */
  lemma UnmatchedPassesThrough(chains: Chains, members: seq<Member>, matching: Member -> seq<Interceptor>,
                               interceptors: seq<Interceptor>, i: nat,
                               typeName: string, catalog: Catalog, actuals: seq<Value>, behaviour: Behaviour)
    requires ValidChains(chains) && UniqueIdentities(members)
    requires forall m :: m in members ==> MemberKey(m) !in chains
    requires i < |members| && matching(members[i]) == []
    ensures var reg := RegisterAll(chains, members, matching);
      var entry := Table(interceptors, reg.chains, members)[i];
      entry == PassThrough &&
      Dispatch(entry, members[i], reg.chains, typeName, catalog, actuals, behaviour)
        == Effect(DirectCall(members[i], behaviour, actuals), [Invocation(members[i], actuals)])
  {
    RegisterAllSucceeds(chains, members, matching);
  }

  /** Through forwarding interceptors every call of a matched member enters its body once;
      nothing is remembered between calls, so K calls enter it K times. */
  lemma ForwardingCallEntersOnce(chains: Chains, members: seq<Member>, matching: Member -> seq<Interceptor>,
                                 interceptors: seq<Interceptor>, i: nat, kinds: seq<InterceptorKind>,
                                 typeName: string, catalog: Catalog, actuals: seq<Value>, behaviour: Behaviour)
    requires ValidChains(chains) && UniqueIdentities(members)
    requires forall m :: m in members ==> MemberKey(m) !in chains
    requires i < |members| && matching(members[i]) == Instances(kinds) && |kinds| > 0 && |interceptors| > 0
    requires Forwarding(kinds) && |actuals| == |members[i].params|
    ensures var reg := RegisterAll(chains, members, matching);
      Dispatch(Table(interceptors, reg.chains, members)[i], members[i], reg.chains, typeName, catalog, actuals, behaviour).calls
        == [Invocation(members[i], actuals)]
  {
    var m := members[i];
    DispatchRunsChain(chains, members, matching, interceptors, i, kinds, typeName, catalog, actuals, behaviour);
    ForwardingEntersOnce(kinds, m, CallContext(actuals, behaviour, typeName, m.name, catalog, m.isVoid));
  }

  /** `EmitArgArray`: a new `object[]` with one slot per parameter, slot i holding argument i. */
  method PackArguments(actuals: seq<Value>) returns (a: array<Value>)
    ensures fresh(a) && a[..] == actuals
  {
    a := new Value[|actuals|](_ => Null);
    for i := 0 to |actuals|
      invariant a[..i] == actuals[..i]
    {
      a[i] := actuals[i];
    }
  }

  /** The generated proxy type: the wrapped instance, the manager, and one body per member. */
  class Proxy {
    const instance: Target
    const service: InterceptorManagerService
    const members: seq<Member>
    const table: seq<Entry>
    /** `AssemblyQualifiedName ?? FullName` of the proxied interface. */
    const typeName: string
    const catalog: Catalog

    ghost predicate Valid()
      reads service
    {
      service.Valid() && |table| == |members| && Routed(table, service.chains)
    }

    constructor (instance: Target, service: InterceptorManagerService, members: seq<Member>,
                 table: seq<Entry>, typeName: string, catalog: Catalog)
      ensures this.instance == instance && this.service == service && this.members == members
      ensures this.table == table && this.typeName == typeName && this.catalog == catalog
    {
      this.instance := instance;
      this.service := service;
      this.members := members;
      this.table := table;
      this.typeName := typeName;
      this.catalog := catalog;
    }

    /** A call of member `i` on the proxy with `actuals`, one per parameter. */
    method Invoke(i: nat, actuals: seq<Value>) returns (o: Outcome)
      requires Valid() && i < |members| && |actuals| == |members[i].params|
      modifies instance`received
      ensures var e := Dispatch(table[i], members[i], service.chains, typeName, catalog, actuals, instance.behaviour);
        o == e.out && instance.received == old(instance.received) + e.calls
    {
      var m := members[i];
      match table[i]
      case PassThrough =>
        o := DirectCall(m, instance.behaviour, actuals);
        instance.received := instance.received + [Invocation(m, actuals)];
      case Chain(methodName, methodToken, isVoid) =>
        var argArray := PackArguments(actuals);
        if isVoid {
          o := service.InvokeInterceptorsVoid(argArray[..], instance, typeName, methodName, methodToken, catalog);
        } else {
          o := service.InvokeInterceptors(argArray[..], instance, typeName, methodName, methodToken, catalog);
        }
    }
  }

  /** What `GenerateProxy` hands back: the instance itself, or a proxy around it. */
  datatype Implementation = Unproxied(target: Target) | Proxied(proxy: Proxy)

  /** `RegisterInterceptors`: asks the source once per member and registers each non-empty match. */
  method RegisterInterceptors(members: seq<Member>, matching: Member -> seq<Interceptor>,
                              manager: InterceptorManagerService) returns (failure: Option<Fault>)
    requires manager.Valid()
    modifies manager`chains
    ensures manager.Valid()
    ensures Registration(manager.chains, failure) == RegisterAll(old(manager.chains), members, matching)
  {
    for i := 0 to |members|
      invariant manager.Valid()
      invariant RegisterAll(old(manager.chains), members, matching) == RegisterAll(manager.chains, members[i..], matching)
    {
      assert members[i..][0] == members[i] && members[i..][1..] == members[i + 1..];
      var validInterceptors := matching(members[i]);
      if |validInterceptors| > 0 {
        failure := manager.RegisterMethodInterceptorChain(members[i], validInterceptors);
        if failure.Some? {
          return;
        }
      }
    }
    failure := None;
  }

  /** `CreateMethods`: asks the manager, member by member, whether to route through a chain. */
  method CreateMethods(members: seq<Member>, manager: InterceptorManagerService,
                       interceptors: seq<Interceptor>) returns (table: seq<Entry>)
    ensures table == Table(interceptors, manager.chains, members)
  {
    table := [];
    for i := 0 to |members|
      invariant table == Table(interceptors, manager.chains, members[..i])
    {
      var mi := members[i];
      var methodToken := IntToString(mi.token);
      var entry := PassThrough;
      if |interceptors| > 0 {
        var has := manager.MethodHasInterceptors(mi.name, methodToken);
        if has {
          entry := Chain(mi.name, methodToken, mi.isVoid);
        }
      }
      assert members[..i + 1] == members[..i] + [mi];
      table := table + [entry];
    }
    assert members[..|members|] == members;
  }

  class ProxyFactory {
    const contract: ContractType
    /** `Interceptors`: the source's `GetInterceptors()`, taken before registration. */
    const interceptors: seq<Interceptor>
    const manager: InterceptorManagerService
    const table: seq<Entry>
    const catalog: Catalog

    ghost predicate Valid()
      reads manager
    {
      manager.Valid() && |table| == |contract.members| && Routed(table, manager.chains)
    }

    constructor Init(contract: ContractType, interceptors: seq<Interceptor>, manager: InterceptorManagerService,
                     table: seq<Entry>, catalog: Catalog)
      ensures this.contract == contract && this.interceptors == interceptors && this.manager == manager
      ensures this.table == table && this.catalog == catalog
    {
      this.contract := contract;
      this.interceptors := interceptors;
      this.manager := manager;
      this.table := table;
      this.catalog := catalog;
    }

    /** `new ProxyFactory<T>(source, manager)`: registration first, then the dispatch table
        built against the chains registration left; a registration error ends construction. */
    static method Create(contract: ContractType, source: Source, manager: InterceptorManagerService,
                         catalog: Catalog) returns (r: Result<ProxyFactory, Fault>)
      requires manager.Valid()
      modifies manager`chains
      ensures manager.Valid()
      ensures var reg := RegisterAll(old(manager.chains), contract.members, source.matching);
        manager.chains == reg.chains &&
        (reg.failure.Some? ==> r == Err(reg.failure.value)) &&
        (reg.failure.None? ==>
           r.Ok? && fresh(r.value) && r.value.Valid() &&
           r.value.contract == contract && r.value.manager == manager && r.value.catalog == catalog &&
           r.value.interceptors == source.interceptors &&
           r.value.table == Table(source.interceptors, reg.chains, contract.members))
    {
      var interceptors := source.interceptors;
      var failure := RegisterInterceptors(contract.members, source.matching, manager);
      if failure.Some? {
        return Err(failure.value);
      }
      var table := CreateMethods(contract.members, manager, interceptors);
      TableIsRouted(interceptors, manager.chains, contract.members);
      var factory := new ProxyFactory.Init(contract, interceptors, manager, table, catalog);
      return Ok(factory);
    }

    /** `new ProxyFactory<T>()`: the attribute-driven source over T and a new manager; the
        marked members of an interface are registered on that manager from an empty dictionary,
        which cannot fail when member identities are unique (`RegisterAllSucceeds`). */
    static method CreateDefault(contract: ContractType, catalog: Catalog) returns (r: Result<ProxyFactory, Fault>)
      ensures !contract.isInterface ==> r == Err(TypeLoad("Expected an interface but got " + contract.name))
      ensures contract.isInterface ==>
        var source := TypeParsing.AsSource(TypeParsing.TypeParsingService(contract));
        var reg := RegisterAll(map[], contract.members, source.matching);
        (reg.failure.Some? ==> r == Err(reg.failure.value)) &&
        (reg.failure.None? ==>
           r.Ok? && fresh(r.value) && fresh(r.value.manager) && r.value.Valid() &&
           r.value.contract == contract && r.value.catalog == catalog &&
           r.value.interceptors == TypeParsing.GetInterceptors(TypeParsing.TypeParsingService(contract)) &&
           r.value.manager.chains == reg.chains &&
           r.value.table == Table(source.interceptors, reg.chains, contract.members))
      ensures contract.isInterface && UniqueIdentities(contract.members) ==> r.Ok?
    {
      var parsed := TypeParsing.New(contract);
      if parsed.Err? {
        return Err(parsed.error);
      }
      var source := TypeParsing.AsSource(parsed.value);
      var manager := new InterceptorManagerService();
      if UniqueIdentities(contract.members) {
        RegisterAllSucceeds(map[], contract.members, source.matching);
      }
      r := Create(contract, source, manager, catalog);
    }

    /** `GenerateProxy(inner)`: the instance itself when the source has no interceptors at all,
        whatever the members matched; otherwise a new proxy over it and this factory's manager. */
    method GenerateProxy(inner: Target) returns (r: Implementation)
      requires Valid()
      ensures |interceptors| == 0 ==> r == Unproxied(inner)
      ensures |interceptors| > 0 ==>
        r.Proxied? && fresh(r.proxy) && r.proxy.Valid() &&
        r.proxy.instance == inner && r.proxy.service == manager &&
        r.proxy.members == contract.members && r.proxy.table == table &&
        r.proxy.typeName == contract.qualifiedName && r.proxy.catalog == catalog
    {
      if |interceptors| == 0 {
        return Unproxied(inner);
      }
      var proxy := new Proxy(inner, manager, contract.members, table, contract.qualifiedName, catalog);
      return Proxied(proxy);
    }
  }
}
