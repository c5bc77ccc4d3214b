/**
 * Interceptors and how a chain of them runs. Each link is given a `getNext`
 * that advances one cursor shared by the whole call; calling it returns the
 * next link, or null once the chain is exhausted.
 */
module Interceptors {
  import opened Wrappers
  import opened Descriptors
  import opened Arguments
  import Invokers

  /** An interceptor instance: one of the custom kinds, or the terminal invoker bound to a member. */
  datatype Interceptor = Custom(kind: InterceptorKind) | Invoker(member: Member)

  /** An interceptor source: `GetInterceptors()` and `FindMatchingInterceptors(type, method)`. */
  datatype Source = Source(interceptors: seq<Interceptor>, matching: Member -> seq<Interceptor>)

  /** One instance per interceptor type, in order. */
  function Instances(kinds: seq<InterceptorKind>): (r: seq<Interceptor>)
    ensures |r| == |kinds| && forall i :: 0 <= i < |kinds| ==> r[i] == Custom(kinds[i])
  {
    seq(|kinds|, i requires 0 <= i < |kinds| => Custom(kinds[i]))
  }

  /** What every link of one call sees: the method name, the envelope's arguments and the
      named view they resolve to, the target's member bodies, and which `Execute` overload runs. */
  datatype Context = Context(methodName: string, args: seq<Value>, pairs: Result<seq<Pair>, Fault>,
                             behaviour: Behaviour, isVoid: bool)

  /** The result of running from one link: the outcome, the member bodies entered, and where the cursor stops. */
  datatype Run = Run(out: Outcome, calls: seq<Invocation>, next: nat)

  /** The observable effect of a call: outcome and member bodies entered. */
  datatype Effect = Effect(out: Outcome, calls: seq<Invocation>)

  function Reverse(s: string): (r: string)
    ensures |r| == |s| && forall i :: 0 <= i < |s| ==> r[i] == s[|s| - 1 - i]
  {
    if |s| == 0 then "" else Reverse(s[1..]) + [s[0]]
  }

  /** `value.ToString()` as string concatenation renders it (null renders empty). */
  function Show(v: Value): string {
    match v
    case Null => ""
    case Str(s) => s
    case Num(n) => IntToString(n)
    case Handle(id) => "#" + IntToString(id)
  }

  function DescribePairs(ps: seq<Pair>): string
    decreases |ps|
  {
    if |ps| == 0 then "" else "_" + ps[0].key + ":" + Show(ps[0].value) + DescribePairs(ps[1..])
  }

  /** How a custom interceptor changes what the rest of the chain returned. Only string results
      of the value overload are changed; null, other values, void and exceptions pass unchanged. */
  function Transform(kind: InterceptorKind, inner: Outcome, ctx: Context): Outcome {
    if ctx.isVoid || !inner.Returned? || !inner.v.Str? then inner
    else match kind
      case AppendSuffix(suffix) => Returned(Str(inner.v.s + suffix))
      case ReverseResult => Returned(Str(Reverse(inner.v.s)))
      case AppendArgs =>
        (match ctx.pairs
         case Ok(ps) => Returned(Str(inner.v.s + "_" + ctx.methodName + DescribePairs(ps)))
         case Err(e) => Threw(e))
      case _ => inner
  }

  /** What the terminal invoker for `m` returns, through the overload in use. */
  function InvokerOutcome(m: Member, ctx: Context): Outcome {
    if ctx.isVoid then Invokers.ExecuteVoid(m, ctx.behaviour, ctx.args)
    else Invokers.Execute(m, ctx.behaviour, ctx.args)
  }

  /** The member bodies the terminal invoker for `m` enters: one, unless the argument count is refused. */
  function InvokerCalls(m: Member, ctx: Context): seq<Invocation> {
    if Invokers.EntersBody(m, ctx.args) then [Invocation(m, ctx.args)] else []
  }

  /**
   * Running `link` when the cursor's next position in `chain` is `p`: the invoker
   * runs the member and never advances the cursor; a short circuit returns at once;
   * every other link takes `chain[p]` from the cursor (null past the end, which
   * then fails with a null reference) and transforms what it returns.
   */
  function RunLink(chain: seq<Interceptor>, link: Interceptor, p: nat, ctx: Context): (r: Run)
    requires p <= |chain|
    ensures p <= r.next <= |chain|
    ensures link.Invoker? ==> r.next == p
    decreases |chain| - p
  {
    match link
    case Invoker(m) => Run(InvokerOutcome(m, ctx), InvokerCalls(m, ctx), p)
    case Custom(ShortCircuit(v)) => Run(if ctx.isVoid then Completed else Returned(v), [], p)
    case Custom(kind) =>
      if p < |chain| then
        var r := RunLink(chain, chain[p], p + 1, ctx);
        r.(out := Transform(kind, r.out, ctx))
      else Run(Threw(NullReference), [], p)
  }

  /** A call through `chain`: its first `getNext()` yields `chain[0]`, which is then executed. */
  function RunChain(chain: seq<Interceptor>, ctx: Context): (r: Run)
    requires |chain| > 0
    ensures 1 <= r.next <= |chain|
  {
    RunLink(chain, chain[0], 1, ctx)
  }

  // ---- reference semantics: the chain as nested function application ----

  /** No link short-circuits: every custom link calls the next one. */
  predicate Forwarding(kinds: seq<InterceptorKind>) {
    forall i :: 0 <= i < |kinds| ==> !kinds[i].ShortCircuit?
  }

  /** Interceptors `kinds` wrapped around the invoker for `m`: the first is outermost. */
  function Nested(kinds: seq<InterceptorKind>, m: Member, ctx: Context): Effect
    decreases |kinds|
  {
    if |kinds| == 0 then Effect(InvokerOutcome(m, ctx), InvokerCalls(m, ctx))
    else if kinds[0].ShortCircuit? then Effect(if ctx.isVoid then Completed else Returned(kinds[0].result), [])
    else
      var e := Nested(kinds[1..], m, ctx);
      Effect(Transform(kinds[0], e.out, ctx), e.calls)
  }

  /** Driving the cursor from link j of `kinds + [invoker]` is nested application of `kinds[j..]`;
      without a short circuit the cursor ends exhausted. */
  lemma {:induction false} RunLinkIsNested(kinds: seq<InterceptorKind>, m: Member, ctx: Context, j: nat)
    requires j <= |kinds|
    ensures var chain := Instances(kinds) + [Invoker(m)];
      var r := RunLink(chain, chain[j], j + 1, ctx);
      Effect(r.out, r.calls) == Nested(kinds[j..], m, ctx) &&
      (Forwarding(kinds[j..]) ==> r.next == |chain|)
    decreases |kinds| - j
  {
    var chain := Instances(kinds) + [Invoker(m)];
    if j < |kinds| {
      assert chain[j] == Custom(kinds[j]);
      assert kinds[j..][1..] == kinds[j + 1..];
      if !kinds[j].ShortCircuit? {
        RunLinkIsNested(kinds, m, ctx, j + 1);
        assert kinds[j + 1..] == kinds[j..][1..];
      } else {
        assert !Forwarding(kinds[j..]) by { assert kinds[j..][0].ShortCircuit?; }
      }
    } else {
      assert kinds[j..] == [];
    }
  }

  /** A registered chain runs its interceptors first to last around the invoker. */
  lemma ChainIsNested(kinds: seq<InterceptorKind>, m: Member, ctx: Context)
    ensures var r := RunChain(Instances(kinds) + [Invoker(m)], ctx);
      Effect(r.out, r.calls) == Nested(kinds, m, ctx)
  {
    RunLinkIsNested(kinds, m, ctx, 0);
    assert kinds[0..] == kinds;
  }

  /** With forwarding interceptors, the member body is entered exactly once per call. */
  lemma {:induction false} ForwardingEntersOnce(kinds: seq<InterceptorKind>, m: Member, ctx: Context)
    requires Forwarding(kinds) && |ctx.args| == |m.params|
    ensures Nested(kinds, m, ctx).calls == [Invocation(m, ctx.args)]
    decreases |kinds|
  {
    if |kinds| > 0 {
      assert Forwarding(kinds[1..]) by {
        forall i | 0 <= i < |kinds[1..]| ensures !kinds[1..][i].ShortCircuit? {
          assert kinds[1..][i] == kinds[i + 1];
        }
      }
      ForwardingEntersOnce(kinds[1..], m, ctx);
    }
  }

  /** An exception from the member body reaches the caller unchanged through forwarding interceptors. */
  lemma {:induction false} FaultPropagates(kinds: seq<InterceptorKind>, m: Member, ctx: Context, e: Fault)
    requires Forwarding(kinds) && |ctx.args| == |m.params|
    requires ctx.behaviour(m, ctx.args) == Threw(e)
    ensures Nested(kinds, m, ctx).out == Threw(e)
    decreases |kinds|
  {
    if |kinds| > 0 {
      assert Forwarding(kinds[1..]) by {
        forall i | 0 <= i < |kinds[1..]| ensures !kinds[1..][i].ShortCircuit? {
          assert kinds[1..][i] == kinds[i + 1];
        }
      }
      FaultPropagates(kinds[1..], m, ctx, e);
    }
  }

  /** The outer link sees the inner link's result: appending after reversing, or reversing after appending. */
  lemma OuterLinkTransformsLast(m: Member, ctx: Context, suffix: string, t: string)
    requires !ctx.isVoid && |ctx.args| == |m.params|
    requires ctx.behaviour(m, ctx.args) == Returned(Str(t))
    ensures Nested([AppendSuffix(suffix), ReverseResult], m, ctx).out == Returned(Str(Reverse(t) + suffix))
    ensures Nested([ReverseResult, AppendSuffix(suffix)], m, ctx).out == Returned(Str(Reverse(t + suffix)))
  {
    var base := Nested([], m, ctx);
    assert base.out == Returned(Str(t));
    assert [AppendSuffix(suffix), ReverseResult][1..] == [ReverseResult];
    assert [ReverseResult, AppendSuffix(suffix)][1..] == [AppendSuffix(suffix)];
    assert [ReverseResult][1..] == [] && [AppendSuffix(suffix)][1..] == [];
    assert Nested([ReverseResult], m, ctx).out == Returned(Str(Reverse(t)));
    assert Nested([AppendSuffix(suffix)], m, ctx).out == Returned(Str(t + suffix));
  }

  // ---- the per-call cursor ----

  /** The enumerator `getNext` advances: a position in one chain, owned by one call. */
  class Cursor {
    const chain: seq<Interceptor>
    var pos: nat

    constructor (chain: seq<Interceptor>)
      ensures this.chain == chain && pos == 0
    {
      this.chain := chain;
      pos := 0;
    }

    /** `getNext()`: the next link and one step on, or null once the chain is exhausted. */
    method GetNext() returns (r: Option<Interceptor>)
      modifies this`pos
      ensures old(pos) < |chain| ==> r == Some(chain[old(pos)]) && pos == old(pos) + 1
      ensures |chain| <= old(pos) ==> r == None && pos == old(pos)
    {
      if pos < |chain| {
        r := Some(chain[pos]);
        pos := pos + 1;
      } else {
        r := None;
      }
    }
  }

  /** The context a call with this envelope, instance and overload runs in. */
  function ContextOf(methodName: string, args: MethodArgs, instance: Target, isVoid: bool): Context {
    Context(methodName, args.Arguments, args.Resolved(), instance.behaviour, isVoid)
  }

  /**
   * `link.Execute(getNext, methodName, args, instance)` with `getNext` over `cursor`:
   * the invoker calls the member; the other kinds call `getNext()`, execute what it
   * returns with the same `getNext`, and transform the result.
   */
  method Execute(link: Interceptor, cursor: Cursor, methodName: string, args: MethodArgs,
                 instance: Target, isVoid: bool) returns (o: Outcome)
    requires cursor.pos <= |cursor.chain|
    requires args.Valid()
    modifies cursor`pos, args`cache, args`evaluations, instance`received
    ensures args.Valid()
    ensures var r := RunLink(cursor.chain, link, old(cursor.pos), ContextOf(methodName, args, instance, isVoid));
      o == r.out && cursor.pos == r.next && instance.received == old(instance.received) + r.calls
    decreases |cursor.chain| - cursor.pos
  {
    match link
    case Invoker(m) =>
      o := if isVoid then Invokers.ExecuteVoid(m, instance.behaviour, args.Arguments)
           else Invokers.Execute(m, instance.behaviour, args.Arguments);
      if Invokers.EntersBody(m, args.Arguments) {
        instance.received := instance.received + [Invocation(m, args.Arguments)];
      }
    case Custom(kind) =>
      if kind.ShortCircuit? {
        o := if isVoid then Completed else Returned(kind.result);
      } else {
        var next := cursor.GetNext();
        if next.None? {
          o := Threw(NullReference);
        } else {
          var inner := Execute(next.value, cursor, methodName, args, instance, isVoid);
          o := inner;
          if !isVoid && inner.Returned? && inner.v.Str? {
            match kind {
              case AppendSuffix(suffix) => o := Returned(Str(inner.v.s + suffix));
              case ReverseResult => o := Returned(Str(Reverse(inner.v.s)));
              case AppendArgs =>
                var pairs := args.ArgumentPairs();
                o := match pairs
                  case Ok(ps) => Returned(Str(inner.v.s + "_" + methodName + DescribePairs(ps)))
                  case Err(e) => Threw(e);
              case Forward =>
            }
          }
        }
      }
  }
}
