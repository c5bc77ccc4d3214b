# AutoProxyGenerator interception engine, in Dafny

This project models the dispatch engine of AutoProxyGenerator and proves properties of the model. AutoProxyGenerator is a C# library that builds, at run time, a proxy implementing an interface. Each proxy member either calls the wrapped instance directly or sends the call through a chain of interceptors that ends in the real member.

The model covers these parts:

- **Type and member descriptors** (`descriptors.dfy`, module `Descriptors`). Reflection is replaced by plain data. A type has a short name (used in the type-load message) and an assembly-qualified name (the name a proxy passes to `Type.GetType`). An interface is a sequence of members. Each member has a name, an integer metadata token, parameter names, a void-or-value return kind and its attributes. The wrapped instance is a `Target`. It holds a behaviour function and a ghost log of the member bodies entered. The chain key is `name + "_" + token text`, and it is proved injective on (name, token).
- **Call envelope** (`method_args.dfy`, class `Arguments.MethodArgs`). It holds the raw arguments. On the first read it lazily pairs parameter names with argument values. The `Lazy` holder is an `Option` field that caches the result, or the exception the factory threw.
- **Terminal invoker** (`method_invoker.dfy`, module `Invokers`). It calls the member with the envelope's arguments and never asks for a next link. It unwraps `TargetInvocationException`.
- **Chain execution** (`interceptors.dfy`, module `Interceptors`).
  - The per-call enumerator is a `Cursor` class.
  - `Execute` is the imperative recursion through the links, proved equal to the pure `RunLink`.
  - `RunLink` is proved equal to nested application of the interceptors around the invoker (`Nested`).
- **Chain registry** (`interceptor_manager.dfy`, class `Managers.InterceptorManagerService`). A dictionary from key to chain, with the two invoke entry points.
- **Attribute-driven interceptor source** (`type_parsing.dfy`, module `TypeParsing`). It filters intercept markers and removes duplicate types, keeping each at its first occurrence.
- **Proxy factory** (`proxy_factory.dfy`, module `Factories`).
  - Registration is done member by member.
  - The generated type is a dispatch table with one entry per member: pass-through, or chain with its void or value entry point.
  - `EmitArgArray` is modelled as the argument array that gets packed.
  - `GenerateProxy` either returns the instance itself or wraps it in a proxy.

Interceptor types are a small closed set: `Forward`, `AppendSuffix(s)`, `ReverseResult`, `AppendArgs` and `ShortCircuit(v)`. A custom interceptor that calls `getNext()` past the end of its chain fails with a null reference, as the C# code does.

With the manager as written, the chain `[A, B]` runs `A` outermost: `A` calls `B`, and `B` calls the invoker. `OuterLinkTransformsLast` states this for the suffix and reverse kinds. So the registered chain `[Concatenate, Reverse]` first reverses the result and then appends to it. Some string expectations in the factory tests assume the opposite order. They come from a test manager that is not part of this model. The model follows `InterceptorManagerService` as written and proves nothing about those literals.

## Model

| member | source | states |
|---|---|---|
| Descriptors.LookupMethod | AutoProxyGenerator/Collections/MethodArgs.cs:31-33 | A found member belongs to the type and has the requested name; nothing is found exactly when no member has that name |
| Descriptors.IntToString | AutoProxyGenerator/Factories/ProxyFactory.cs:165 | The token text of a metadata token never contains the `_` separator |
| Descriptors.IntToStringInjective | AutoProxyGenerator/Factories/ProxyFactory.cs:165 | Different tokens have different token texts |
| Descriptors.KeySplit | AutoProxyGenerator/AutoProxyGenerator/Services/InterceptorManagerService.cs:32 | A key `name + "_" + token` determines both the name and the token text |
| Descriptors.MemberKeyInjective | AutoProxyGenerator/AutoProxyGenerator/Services/InterceptorManagerService.cs:27 | Two members with the same registration key have the same name and the same metadata token |
| Descriptors.MemberKeyShape | AutoProxyGenerator/AutoProxyGenerator/Services/InterceptorManagerService.cs:27 | A member's registration key (`Descriptors.MemberKey`) is its name, then `_`, then token text that contains no `_` |
| Arguments.Pairs | AutoProxyGenerator/Collections/MethodArgs.cs:28-45 | Missing-method error exactly when the type or method does not resolve; out-of-range error exactly when there are fewer arguments than parameters; otherwise the keys are the parameter names and the values are the leading arguments, in order |
| Arguments.PairAt | AutoProxyGenerator/Collections/MethodArgs.cs:40-43 | Pair i is (name of parameter i, argument i), null values included |
| Arguments.MethodArgs.constructor | AutoProxyGenerator/Collections/MethodArgs.cs:20-26 | Stores the arguments unchanged and resolves nothing, so any type and method names are accepted |
| Arguments.MethodArgs.ValueFactory | AutoProxyGenerator/Collections/MethodArgs.cs:28-45 | The loop yields exactly the pair list (or error) `Pairs` specifies |
| Arguments.MethodArgs.ArgumentPairs | AutoProxyGenerator/Collections/MethodArgs.cs:56 | The first read runs the factory once and caches its value or exception; later reads return the cached result without re-running it; `Arguments` never changes |
| Invokers.Unwrap | AutoProxyGenerator/MethodInterceptors/MethodInvoker.cs:32-35 | A reflection wrapper is replaced by its inner exception, or rethrown when it has none; every other outcome passes unchanged |
| Invokers.Execute | AutoProxyGenerator/MethodInterceptors/MethodInvoker.cs:26-36 | Wrong argument count: a parameter-count error; otherwise the body's own result or exception, with a void body read as null |
| Invokers.ExecuteVoid | AutoProxyGenerator/MethodInterceptors/MethodInvoker.cs:38-48 | The same call with the same arguments; returns no value; the body's own exception |
| Invokers.ShouldProcess | AutoProxyGenerator/MethodInterceptors/MethodInvoker.cs:50-54 | Always true |
| Invokers.InvokerAgreesWithDirectCall | AutoProxyGenerator/MethodInterceptors/MethodInvoker.cs:26-48 | Through the overload for its return kind, the invoker answers exactly as a direct call on the instance |
| Interceptors.Cursor.constructor | AutoProxyGenerator/AutoProxyGenerator/Services/InterceptorManagerService.cs:42 | A new enumerator is positioned before the first link |
| Interceptors.Cursor.GetNext | AutoProxyGenerator/AutoProxyGenerator/Services/InterceptorManagerService.cs:43-50 | Returns the link at the cursor and advances by one; once exhausted returns null and stays |
| Interceptors.RunLink | AutoProxyGenerator/AutoProxyGenerator/Services/InterceptorManagerService.cs:43-59 | The cursor only moves forward and never past the end of the chain; the invoker never moves it |
| Interceptors.RunChain | AutoProxyGenerator/AutoProxyGenerator/Services/InterceptorManagerService.cs:57-59 | The manager's own first `getNext()` consumes link 0, so every later request starts at link 1 |
| Interceptors.Execute | AutoProxyGenerator/AutoProxyGenerator/Services/InterceptorManagerService.cs:43-59 | Executing a link with the shared cursor gives the outcome, final cursor position and member-body entries of `RunLink` |
| Interceptors.RunLinkIsNested | AutoProxyGenerator/AutoProxyGenerator/Services/InterceptorManagerService.cs:43-59 | Running from link j of `kinds + [invoker]` is nested application of `kinds[j..]` around the invoker; without a short circuit the cursor ends exhausted |
| Interceptors.ChainIsNested | AutoProxyGenerator/AutoProxyGenerator/Services/InterceptorManagerService.cs:54-61 | A registered chain runs its interceptors first to last, the first outermost, around the invoker |
| Interceptors.ForwardingEntersOnce | AutoProxyGenerator/AutoProxyGenerator/Services/InterceptorManagerService.cs:54-61 | With no short circuit, one call enters the member body exactly once, with the call's arguments |
| Interceptors.FaultPropagates | AutoProxyGenerator/MethodInterceptors/MethodInvoker.cs:28-35 | An exception of the member body reaches the caller unchanged through forwarding interceptors |
| Interceptors.OuterLinkTransformsLast | AutoProxyGenerator/AutoProxyGenerator/Services/InterceptorManagerService.cs:24-25 | In `[A, B]` the invoker's result passes through B first and A last: [suffix, reverse] gives reverse-then-append, [reverse, suffix] gives append-then-reverse |
| Managers.Register | AutoProxyGenerator/AutoProxyGenerator/Services/InterceptorManagerService.cs:22-28 | Fails with a duplicate-key error exactly when the key is present; adds only that key; leaves every other chain unchanged; the new chain is the interceptors in order followed by one invoker; every chain stays non-empty and invoker-terminated |
| Managers.Invoke | AutoProxyGenerator/AutoProxyGenerator/Services/InterceptorManagerService.cs:30-36 | An unregistered key fails with "Could not find first interceptor for" the key, before any interceptor or member body runs |
| Managers.RegisteredChainRuns | AutoProxyGenerator/AutoProxyGenerator/Services/InterceptorManagerService.cs:22-61 | After registering a chain for a member, invoking with the member's name and token text runs that chain around the member's invoker |
| Managers.InterceptorManagerService.constructor | AutoProxyGenerator/AutoProxyGenerator/Services/InterceptorManagerService.cs:14-17 | A new manager holds no chains, so it reports no chain for any key |
| Managers.InterceptorManagerService.RegisterMethodInterceptorChain | AutoProxyGenerator/AutoProxyGenerator/Services/InterceptorManagerService.cs:22-28 | The dictionary and the error are exactly those of `Register` |
| Managers.InterceptorManagerService.GetInterceptorChain | AutoProxyGenerator/AutoProxyGenerator/Services/InterceptorManagerService.cs:30-52 | Missing key: the not-found error; otherwise a new cursor, private to this call, at the start of the stored chain |
| Managers.InterceptorManagerService.Drive | AutoProxyGenerator/AutoProxyGenerator/Services/InterceptorManagerService.cs:54-69 | The body both entry points share: the outcome and the appended member-body entries are exactly those of `Invoke` for the given return kind |
| Managers.InterceptorManagerService.InvokeInterceptors | AutoProxyGenerator/AutoProxyGenerator/Services/InterceptorManagerService.cs:54-61 | The outcome and member-body entries are those of `Invoke` on the value overload, with an envelope built from (type name, method name, arguments) |
| Managers.InterceptorManagerService.InvokeInterceptorsVoid | AutoProxyGenerator/AutoProxyGenerator/Services/InterceptorManagerService.cs:63-69 | The same on the void overload |
| Managers.InterceptorManagerService.MethodHasInterceptors | AutoProxyGenerator/AutoProxyGenerator/Services/InterceptorManagerService.cs:71-75 | True exactly when a chain is stored under `name + "_" + token` |
| TypeParsing.New | AutoProxyGenerator/AutoProxyGenerator/Services/TypeParsingService.cs:14-21 | Succeeds exactly for interfaces; otherwise a type-load error "Expected an interface but got" the type's short name |
| TypeParsing.InterceptTypesHas | AutoProxyGenerator/AutoProxyGenerator/Services/TypeParsingService.cs:37 | A type is listed exactly when an intercept marker names it; other attributes contribute nothing |
| TypeParsing.InterceptTypes | AutoProxyGenerator/AutoProxyGenerator/Services/TypeParsingService.cs:37 | The attribute filter yields at most one type per attribute; which types it yields is carried by `InterceptTypesHas`, and its behaviour on concatenation and on other attributes by `InterceptTypesConcat` and `OtherAttributesIgnored` |
| TypeParsing.Distinct | AutoProxyGenerator/AutoProxyGenerator/Services/TypeParsingService.cs:30 | Duplicate removal never lengthens its input; the kept elements, their uniqueness and their first-occurrence order are carried by `DistinctElements`, `DistinctNoRepeats` and `DistinctOrder` |
| TypeParsing.DistinctElements | AutoProxyGenerator/AutoProxyGenerator/Services/TypeParsingService.cs:41 | Duplicate removal keeps every element of the input and adds none |
| TypeParsing.DistinctNoRepeats | AutoProxyGenerator/AutoProxyGenerator/Services/TypeParsingService.cs:41 | Duplicate removal keeps each element exactly once |
| TypeParsing.DistinctOrder | AutoProxyGenerator/AutoProxyGenerator/Services/TypeParsingService.cs:30 | Kept elements appear in the order of their first occurrences in the input |
| TypeParsing.DistinctSnoc | AutoProxyGenerator/AutoProxyGenerator/Services/TypeParsingService.cs:30 | A later element is kept only if it has not occurred before |
| TypeParsing.InterceptTypesConcat | AutoProxyGenerator/AutoProxyGenerator/Services/TypeParsingService.cs:25-28 | The intercept types of concatenated attribute lists are the concatenation of their intercept types |
| TypeParsing.OtherAttributesIgnored | AutoProxyGenerator/AutoProxyGenerator/Services/TypeParsingService.cs:27 | Inserting an attribute that is not an intercept marker anywhere in one attribute list leaves that list's intercept types unchanged |
| TypeParsing.AllInterceptTypesUpdate | AutoProxyGenerator/AutoProxyGenerator/Services/TypeParsingService.cs:25-28 | Replacing one member by a member with the same intercept types leaves the accumulated intercept types of the interface unchanged |
| TypeParsing.OtherAttributeIgnoredByMatching | AutoProxyGenerator/AutoProxyGenerator/Services/TypeParsingService.cs:34-44 | A member's matching interceptors are the same with or without an extra non-intercept attribute |
| TypeParsing.OtherAttributeIgnoredByType | AutoProxyGenerator/AutoProxyGenerator/Services/TypeParsingService.cs:23-32 | The type's interceptors are the same with or without an extra non-intercept attribute on any one member |
| TypeParsing.MatchingHas | AutoProxyGenerator/AutoProxyGenerator/Services/TypeParsingService.cs:34-44 | A member matches a custom interceptor exactly for each type its intercept markers name, each once, so no markers means no matches |
| TypeParsing.FindMatchingInterceptors | AutoProxyGenerator/AutoProxyGenerator/Services/TypeParsingService.cs:34-44 | A member gets at most one interceptor per attribute; which ones, each once, is carried by `MatchingHas`, and the order by `DistinctOrder` |
| TypeParsing.GetInterceptors | AutoProxyGenerator/AutoProxyGenerator/Services/TypeParsingService.cs:23-32 | The type gets at most one interceptor per intercept marker across its members; membership and uniqueness are carried by `GetInterceptorsHas`, order by `DistinctOrder`, and emptiness by `NoneMatchIffNoInterceptors` |
| TypeParsing.GetInterceptorsHas | AutoProxyGenerator/AutoProxyGenerator/Services/TypeParsingService.cs:23-32 | Every interceptor is a custom one whose type some member's intercept marker names, and none repeats |
| TypeParsing.AllInterceptTypesHas | AutoProxyGenerator/AutoProxyGenerator/Services/TypeParsingService.cs:25-28 | A type occurs across the interface exactly when some member carries an intercept marker for it |
| TypeParsing.MatchingWithinAll | AutoProxyGenerator/AutoProxyGenerator/Services/TypeParsingService.cs:23-41 | For a member of the parsed interface, every matching interceptor is among `GetInterceptors` |
| TypeParsing.NoneMatchIffNoInterceptors | AutoProxyGenerator/AutoProxyGenerator/Services/TypeParsingService.cs:23-44 | `GetInterceptors` is empty exactly when no member of the interface matches anything |
| TypeParsing.FirstOccurrenceOrder | AutoProxyGenerator/AutoProxyGenerator/Services/TypeParsingService.cs:23-32 | Members marked [], [T1, T3], [T1, T2] give T1, T3, T2, and the second member matches T1, T3 |
| Factories.RegisterAll | AutoProxyGenerator/Factories/ProxyFactory.cs:78-89 | Registration keeps every existing chain, and every chain stays invoker-terminated |
| Factories.RegisterAllAddsMemberKeys | AutoProxyGenerator/Factories/ProxyFactory.cs:78-89 | Registration adds keys only for the members it visits: no key other than their registration keys |
| Factories.RegisterInterceptors | AutoProxyGenerator/Factories/ProxyFactory.cs:78-89 | The loop asks for the matches of each member in order and registers each non-empty match; the result is `RegisterAll`, stopping at the first error |
| Factories.RegisterAllSucceeds | AutoProxyGenerator/Factories/ProxyFactory.cs:78-89 | For members with distinct (name, token) and no prior chain, no error occurs, and a member has a chain exactly when its match is non-empty; that chain is its matches followed by its invoker |
| Factories.RegistrationStopsAtKnownKey | AutoProxyGenerator/Factories/ProxyFactory.cs:78-89 | Registration fails whenever some matched member's key is already registered |
| Factories.RegisterAllFailsOnDuplicate | AutoProxyGenerator/Factories/ProxyFactory.cs:86 | The only error registration can end with is the manager's duplicate-key error, for the key of one of the members it visits |
| Factories.ReRegistrationFails | AutoProxyGenerator/Factories/ProxyFactory.cs:86 | If a matched member's key is already registered, construction fails with the manager's duplicate-key error for one of the members' keys, so two factories cannot share a manager for overlapping members |
| Factories.Decide | AutoProxyGenerator/Factories/ProxyFactory.cs:175-182 | Pass-through exactly when the source has no interceptors at all or no chain exists for (name, token); otherwise the chain entry uses the registration key and the member's return kind |
| Factories.Table | AutoProxyGenerator/Factories/ProxyFactory.cs:264-273 | One entry per member, in member order, each the decision for that member |
| Factories.CreateMethods | AutoProxyGenerator/Factories/ProxyFactory.cs:264-273 | The loop builds exactly `Table` |
| Factories.TableIsRouted | AutoProxyGenerator/Factories/ProxyFactory.cs:164-175 | Every chain entry looks up the key it was registered under, so it never hits the not-found error |
| Factories.PackArguments | AutoProxyGenerator/Factories/ProxyFactory.cs:232-262 | A new array with one slot per argument, slot i holding argument i |
| Factories.Dispatch | AutoProxyGenerator/Factories/ProxyFactory.cs:195-229 | A pass-through entry makes exactly one direct call on the instance with the caller's arguments; a chain entry whose key the manager lacks fails with the not-found error and enters no body. The routed case is carried by `DispatchRunsChain` |
| Factories.DispatchRunsChain | AutoProxyGenerator/Factories/ProxyFactory.cs:207-230 | A matched member of a freshly registered factory calls its chain through the entry point for its return kind, and the call is nested application of its interceptors |
| Factories.UnmatchedPassesThrough | AutoProxyGenerator/Factories/ProxyFactory.cs:195-205 | On a manager that holds no chain for any of the type's members, a member without matches passes through: one direct call on the instance with the same arguments in order |
| Factories.ForwardingCallEntersOnce | AutoProxyGenerator/Factories/ProxyFactory.cs:207-230 | Through forwarding interceptors each call enters the member body exactly once, so K calls enter it K times |
| Factories.Proxy.constructor | AutoProxyGenerator/Factories/ProxyFactory.cs:135-160 | The proxy holds the wrapped instance and the manager |
| Factories.Proxy.Invoke | AutoProxyGenerator/Factories/ProxyFactory.cs:175-229 | A call returns the outcome of `Dispatch` for the member's entry and appends exactly its member-body entries to the instance's log; the manager is not touched |
| Factories.ProxyFactory.Create | AutoProxyGenerator/Factories/ProxyFactory.cs:36-54 | Takes the source's interceptors, registers before building the table, and builds the table against the chains registration left; a registration error ends construction |
| Factories.ProxyFactory.CreateDefault | AutoProxyGenerator/Factories/ProxyFactory.cs:24-29 | A non-interface type fails with the type-load error. For an interface, registration from an empty dictionary on a new manager either fails with its error or gives a factory over that type and catalog, holding the type's interceptors, the registered chains and the dispatch table built against them; with distinct member identities it always succeeds |
| Factories.ProxyFactory.GenerateProxy | AutoProxyGenerator/Factories/ProxyFactory.cs:66-76 | Returns the instance itself exactly when the source has no interceptors, whatever the members matched; otherwise a new proxy bound to the instance and this factory's manager, which names the type by its assembly-qualified name |

## Left out

- Reflection.Emit is not modelled: the dynamic assembly and module, the type builder, opcode emission, boxing, unboxing and the generic cast `(T)`. The generated type is a dispatch table whose entries are pass-through or chain(name, token, return kind). A result of the wrong runtime type, which would fail the cast, is not modelled.
- Reflection lookups are replaced by plain data. `Type.GetType` resolves against an explicit `Catalog` parameter. `GetMethod(name)` returns the first member with that name, so the ambiguity error for overloaded names is not modelled. A non-interface type given to the factory with a custom source fails inside Reflection.Emit; that failure is not modelled.
- The `GetInvokeInterceptorsMethod` check for the manager's entry points is not modelled. The model's manager always has both entry points.
- `Activator.CreateInstance` is not modelled. An interceptor instance is its kind, so instance identity and the fresh instances each LINQ enumeration creates are not distinguished.
- Thread safety of `Lazy<T>` and all concurrency are left out. The model is sequential. The cache is the single-threaded behaviour of the default `Lazy` mode, which also caches exceptions.
- `Task` results and other values the core only forwards are the opaque `Handle` values.
- Member bodies are a pure behaviour function of (member, arguments). Their side effects are seen only through the ghost log of entered bodies. Interceptors therefore cannot observe state changes that the wrapped instance makes between calls.
- The example application is not part of this model: a cache with wall-clock expiry, console output, thread sleeps and bootstrapping. The test doubles and mocks are not part of it either.
- Two factories given different managers cannot interfere, because each manager is a separate object with its own `chains` field. This is a framing fact of the classes, not a separate lemma.
- Factories.ForwardingCallEntersOnce: the statement that K calls enter the body K times follows from it together with `Factories.Proxy.Invoke`, which leaves the manager unchanged and appends each call's entries. No loop over K calls is modelled, because the library has none.
- A null instance is not modelled: `Target` is never null. In the library, `GenerateProxy(null)` returns null when there are no interceptors, and otherwise returns a proxy whose calls fail when they reach the missing instance.
- Interceptor types are a closed set of five kinds. None of them rewrites the arguments it passes on. The interface allows an interceptor to hand a different `MethodArgs` to the next link, and the invoker would then see those arguments. In the model the envelope is fixed for the whole call. So `Interceptors.ForwardingEntersOnce`, `Factories.DispatchRunsChain` and the invoker seeing the caller's arguments hold for these kinds only, and argument-rewriting interceptors are not modelled.
- Factories.UnmatchedPassesThrough: stated only for a manager that holds no chain for the type's members. The routing decision asks the manager, not the member's own matches. So on a shared manager, an unmatched member whose key another factory already registered goes through that other factory's chain whenever this source has any interceptors.
- Factories.Proxy.Invoke: requires exactly one argument per parameter. The generated method's signature enforces this at compile time.
