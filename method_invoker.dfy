/**
 * The terminal link of every chain: calls the real member on the instance
 * with the envelope's arguments through reflection, and rethrows the body's
 * own exception instead of the reflection wrapper around it.
 */
module Invokers {
  import opened Wrappers
  import opened Descriptors

  /** `MethodInfo.Invoke`: refuses a wrong argument count, otherwise runs the body
      and wraps whatever the body throws; a void body yields null. */
  function ReflectionInvoke(m: Member, behaviour: Behaviour, args: seq<Value>): Outcome {
    if |args| != |m.params| then Threw(TargetParameterCount)
    else match behaviour(m, args)
      case Threw(e) => Threw(TargetInvocation(Some(e)))
      case Completed => Returned(Null)
      case Returned(v) => Returned(v)
  }

  /** Whether `MethodInfo.Invoke` gets as far as running the member body. */
  predicate EntersBody(m: Member, args: seq<Value>) {
    |args| == |m.params|
  }

  /** `catch (TargetInvocationException ex) { throw ex.InnerException ?? ex; }`; nothing else is caught. */
  function Unwrap(o: Outcome): (r: Outcome)
    ensures o.Threw? && o.fault.TargetInvocation? && o.fault.inner.Some? ==> r == Threw(o.fault.inner.value)
    ensures !(o.Threw? && o.fault.TargetInvocation? && o.fault.inner.Some?) ==> r == o
  {
    match o
    case Threw(TargetInvocation(inner)) => Threw(inner.GetOr(o.fault))
    case _ => o
  }

  /** `Execute<T>`: the body's own result or exception, exactly as a direct call would give it. */
  function Execute(m: Member, behaviour: Behaviour, args: seq<Value>): (r: Outcome)
    ensures !EntersBody(m, args) ==> r == Threw(TargetParameterCount)
    ensures EntersBody(m, args) ==> r == AsValue(behaviour(m, args))
    ensures !r.Completed?
  {
    Unwrap(ReflectionInvoke(m, behaviour, args))
  }

  /** `Execute` (void): the same call; any value is discarded. */
  function ExecuteVoid(m: Member, behaviour: Behaviour, args: seq<Value>): (r: Outcome)
    ensures !EntersBody(m, args) ==> r == Threw(TargetParameterCount)
    ensures EntersBody(m, args) ==> r == AsVoid(behaviour(m, args))
    ensures !r.Returned?
  {
    AsVoid(Unwrap(ReflectionInvoke(m, behaviour, args)))
  }

  /** `ShouldProcess` accepts every attribute combination. */
  function ShouldProcess(typeAttrs: seq<Marker>, methodAttrs: seq<Marker>): (r: bool)
    ensures r
  {
    true
  }

  /** Through the invoker, a member answers exactly as a direct call on the instance does. */
  lemma InvokerAgreesWithDirectCall(m: Member, behaviour: Behaviour, args: seq<Value>)
    requires EntersBody(m, args)
    ensures (if m.isVoid then ExecuteVoid(m, behaviour, args) else Execute(m, behaviour, args))
            == DirectCall(m, behaviour, args)
  {
  }
}
