/**
 * The type and member descriptors that replace reflection: runtime values,
 * the exceptions the core can raise or forward, member and interface
 * descriptors, and the target object whose members get called.
 */
module Descriptors {
  import opened Wrappers

  /** A boxed argument or return value (`object`); `Handle` stands for any
      value the core only forwards (aggregates, tasks). */
  datatype Value = Null | Str(s: string) | Num(n: int) | Handle(id: nat)

  /** The exceptions of the core and the ones it forwards. */
  datatype Fault =
    | TargetInvocation(inner: Option<Fault>)  // wrapper MethodInfo.Invoke puts around what the body throws
    | TargetParameterCount                    // MethodInfo.Invoke called with the wrong number of arguments
    | MissingMethod(message: string)
    | ChainNotFound(message: string)          // the plain Exception of GetInterceptorChain
    | DuplicateKey(key: string)               // ArgumentException of Dictionary.Add
    | TypeLoad(message: string)
    | NullReference
    | ArgumentOutOfRange
    | Raised(exceptionType: string, message: string)  // anything a member body throws

  /** How a call ends: with a value, with no value (void), or with an exception. */
  datatype Outcome = Returned(v: Value) | Completed | Threw(fault: Fault)

  /** The interceptor types the model knows. A marker names one of them. */
  datatype InterceptorKind =
    | Forward                    // calls the next link and returns its result
    | AppendSuffix(suffix: string)  // appends a suffix to a string result
    | ReverseResult              // reverses a string result
    | AppendArgs                 // appends "_name" and "_key:value" per named argument to a string result
    | ShortCircuit(result: Value)   // returns a fixed value without calling the next link

  /** A custom attribute on a member; only `Intercept` markers are interceptor markers. */
  datatype Marker = Intercept(interceptorType: InterceptorKind) | OtherAttribute(name: string)

  /** One interface member: name, metadata token, parameter names, return kind, attributes. */
  datatype Member = Member(name: string, token: int, params: seq<string>, isVoid: bool, markers: seq<Marker>)

  /** A type known to the runtime: its short `Name`, the name a proxy hands to `Type.GetType`
      (`AssemblyQualifiedName ?? FullName`), whether it is an interface, and its members in
      `GetMethods` order. */
  datatype ContractType = ContractType(name: string, qualifiedName: string, isInterface: bool, members: seq<Member>)

  /** The types `Type.GetType` can resolve, by qualified name. */
  type Catalog = map<string, ContractType>

  /** What a member body does when called with some arguments. */
  type Behaviour = (Member, seq<Value>) -> Outcome

  /** One entry of a member body on the target. */
  datatype Invocation = Invocation(member: Member, args: seq<Value>)

  /** The wrapped instance. `received` records every member body entered, in order. */
  class Target {
    const behaviour: Behaviour
    ghost var received: seq<Invocation>

    constructor (behaviour: Behaviour)
      ensures this.behaviour == behaviour && received == []
    {
      this.behaviour := behaviour;
      received := [];
    }
  }

  /** A call result read as a value: a void body returns null through reflection. */
  function AsValue(o: Outcome): Outcome {
    if o.Completed? then Returned(Null) else o
  }

  /** A call result read as void: any value is discarded. */
  function AsVoid(o: Outcome): Outcome {
    if o.Returned? then Completed else o
  }

  /** What a direct (non-reflective) call of `m` on the target yields. */
  function DirectCall(m: Member, behaviour: Behaviour, args: seq<Value>): Outcome {
    if m.isVoid then AsVoid(behaviour(m, args)) else AsValue(behaviour(m, args))
  }

  /** `GetMethod(name)`: the first member with that name, if any. */
  function LookupMethod(t: ContractType, name: string): (r: Option<Member>)
    ensures r.Some? ==> r.value in t.members && r.value.name == name
    ensures r.None? ==> forall m :: m in t.members ==> m.name != name
    decreases |t.members|
  {
    if |t.members| == 0 then None
    else if t.members[0].name == name then Some(t.members[0])
    else LookupMethod(t.(members := t.members[1..]), name)
  }

  // ---- decimal text of integers (Int32.ToString) ----

  function DigitChar(d: nat): (c: char)
    requires d < 10
    ensures '0' <= c <= '9'
  {
    (48 + d) as char
  }

  /** The decimal digits of `n`, most significant first, without leading zeros. */
  function Digits(n: nat): (s: string)
    ensures |s| > 0
    ensures forall i :: 0 <= i < |s| ==> '0' <= s[i] <= '9'
    ensures n >= 10 ==> |s| >= 2
    decreases n
  {
    if n < 10 then [DigitChar(n)] else Digits(n / 10) + [DigitChar(n % 10)]
  }

  function IntToString(i: int): (s: string)
    ensures '_' !in s
  {
    if i < 0 then "-" + Digits(-i) else Digits(i)
  }

  lemma {:induction false} DigitsInjective(a: nat, b: nat)
    requires Digits(a) == Digits(b)
    ensures a == b
    decreases a
  {
    var s := Digits(a);
    if a < 10 && b < 10 {
      assert s[0] == DigitChar(a) && s[0] == DigitChar(b);
    } else if a < 10 || b < 10 {
      assert false;
    } else {
      assert s[..|s| - 1] == Digits(a / 10) && s[..|s| - 1] == Digits(b / 10);
      DigitsInjective(a / 10, b / 10);
      assert s[|s| - 1] == DigitChar(a % 10) && s[|s| - 1] == DigitChar(b % 10);
    }
  }

  lemma IntToStringInjective(a: int, b: int)
    requires IntToString(a) == IntToString(b)
    ensures a == b
  {
    var s := IntToString(a);
    assert (s[0] == '-') == (a < 0) == (b < 0);
    if a < 0 {
      assert s[1..] == Digits(-a) && s[1..] == Digits(-b);
      DigitsInjective(-a, -b);
    } else {
      DigitsInjective(a, b);
    }
  }

  // ---- chain keys ----

  /** The dictionary key `name + "_" + token`. */
  function Key(name: string, token: string): string {
    name + "_" + token
  }

  /** `method.Name + "_" + method.MetadataToken`, the key a member's chain is stored under. */
  function MemberKey(m: Member): string {
    Key(m.name, IntToString(m.token))
  }

  /** A member's key is its name, the separator, then token text free of separators. */
  lemma MemberKeyShape(m: Member)
    ensures var r := MemberKey(m);
      |r| > |m.name| && r[..|m.name|] == m.name && r[|m.name|] == '_' && '_' !in r[|m.name| + 1..]
  {
  }

  /** In `Key(n, t)` the underscore at `|n|` is the last one when `t` has none. */
  lemma LastUnderscore(n: string, t: string)
    requires '_' !in t
    ensures Key(n, t)[|n|] == '_'
    ensures forall i :: |n| < i < |Key(n, t)| ==> Key(n, t)[i] != '_'
  {
    var s := Key(n, t);
    forall i | |n| < i < |s| ensures s[i] != '_' {
      assert s[i] == t[i - |n| - 1];
    }
  }

  /** A key splits uniquely at its last underscore when the token text has none. */
  lemma KeySplit(n1: string, t1: string, n2: string, t2: string)
    requires '_' !in t1 && '_' !in t2
    requires Key(n1, t1) == Key(n2, t2)
    ensures n1 == n2 && t1 == t2
  {
    var s := Key(n1, t1);
    LastUnderscore(n1, t1);
    LastUnderscore(n2, t2);
    assert |n1| == |n2|;
    assert n1 == s[..|n1|] == n2;
    assert t1 == s[|n1| + 1..] == t2;
  }

  /** Two members share a chain key only when they share name and token. */
  lemma MemberKeyInjective(m1: Member, m2: Member)
    requires MemberKey(m1) == MemberKey(m2)
    ensures m1.name == m2.name && m1.token == m2.token
  {
    KeySplit(m1.name, IntToString(m1.token), m2.name, IntToString(m2.token));
    IntToStringInjective(m1.token, m2.token);
  }

  /** Member identity (name, token) is unique within a contract. */
  ghost predicate UniqueIdentities(members: seq<Member>) {
    forall i, j :: 0 <= i < j < |members| ==>
      members[i].name != members[j].name || members[i].token != members[j].token
  }
}
