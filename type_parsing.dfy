/**
 * The attribute-driven interceptor source: an interface whose members carry
 * markers, each intercept marker naming an interceptor type. Duplicate types
 * collapse to their first occurrence.
 */
module TypeParsing {
  import opened Wrappers
  import opened Descriptors
  import opened Interceptors

  // ---- duplicate removal ----

  /** The index of the first occurrence of `x` in `s`. */
  function FirstIndex<T(==,!new)>(s: seq<T>, x: T): (r: nat)
    requires x in s
    ensures r < |s| && s[r] == x
    ensures forall k :: 0 <= k < r ==> s[k] != x
  {
    if s[0] == x then 0 else 1 + FirstIndex(s[1..], x)
  }

  /** `Distinct()`: keeps an element only where it first occurs (`DistinctElements`,
      `DistinctNoRepeats`, `DistinctOrder`). */
  function Distinct<T(==,!new)>(s: seq<T>): (r: seq<T>)
    ensures |r| <= |s|
    decreases |s|
  {
    if |s| == 0 then []
    else
      var d := Distinct(s[..|s| - 1]);
      if s[|s| - 1] in d then d else d + [s[|s| - 1]]
  }

  /** `Distinct` keeps every element and adds none. */
  lemma {:induction false} DistinctElements<T(!new)>(s: seq<T>)
    ensures forall x :: x in Distinct(s) <==> x in s
    decreases |s|
  {
    if |s| > 0 {
      var init := s[..|s| - 1];
      DistinctElements(init);
      assert s == init + [s[|s| - 1]];
    }
  }

  /** `Distinct` keeps each element once. */
  lemma {:induction false} DistinctNoRepeats<T(!new)>(s: seq<T>)
    ensures forall i, j :: 0 <= i < j < |Distinct(s)| ==> Distinct(s)[i] != Distinct(s)[j]
    decreases |s|
  {
    if |s| > 0 {
      DistinctNoRepeats(s[..|s| - 1]);
    }
  }

  /** The elements kept by `Distinct` appear in the order of their first occurrences. */
  lemma {:induction false} DistinctOrder<T(!new)>(s: seq<T>)
    ensures forall i, j :: 0 <= i < j < |Distinct(s)| ==>
      Distinct(s)[i] in s && Distinct(s)[j] in s &&
      FirstIndex(s, Distinct(s)[i]) < FirstIndex(s, Distinct(s)[j])
    decreases |s|
  {
    DistinctElements(s);
    if |s| > 0 {
      var n := |s| - 1;
      var init := s[..n];
      DistinctOrder(init);
      DistinctElements(init);
      var d := Distinct(init);
      var r := Distinct(s);
      assert r == d || r == d + [s[n]];
      forall i, j | 0 <= i < j < |r| ensures FirstIndex(s, r[i]) < FirstIndex(s, r[j]) {
        assert r[i] == d[i] && d[i] in init;
        FirstIndexInPrefix(s, n, d[i]);
        if j < |d| {
          assert r[j] == d[j] && d[j] in init;
          FirstIndexInPrefix(s, n, d[j]);
          assert FirstIndex(init, d[i]) < FirstIndex(init, d[j]);
        } else {
          assert r[j] == s[n] && s[n] !in init;
          FirstIndexBeyondPrefix(s, n, s[n]);
        }
      }
    }
  }

  /** Within a prefix, an element first occurs where it first occurs in the whole sequence. */
  lemma FirstIndexInPrefix<T(!new)>(s: seq<T>, n: nat, x: T)
    requires n <= |s| && x in s[..n]
    ensures FirstIndex(s, x) == FirstIndex(s[..n], x)
  {
    var a, b := FirstIndex(s, x), FirstIndex(s[..n], x);
    assert s[..n][b] == x && s[b] == x;
    assert a <= b;
    assert s[..n][a] == s[a];
  }

  /** An element missing from a prefix first occurs after it. */
  lemma FirstIndexBeyondPrefix<T(!new)>(s: seq<T>, n: nat, x: T)
    requires n <= |s| && x in s && x !in s[..n]
    ensures FirstIndex(s, x) >= n
  {
    forall k | 0 <= k < n ensures s[k] != x {
      assert s[k] == s[..n][k];
    }
  }

  /** Appending an element keeps it only if it has not occurred before. */
  lemma DistinctSnoc<T(!new)>(s: seq<T>, x: T)
    ensures Distinct(s + [x]) == if x in s then Distinct(s) else Distinct(s) + [x]
  {
    assert (s + [x])[..|s|] == s;
    DistinctElements(s);
  }

  // ---- reading the markers ----

  /** `.Where(a => a is InterceptAttribute).Select(a => a.InterceptorType)`: at most one type per attribute. */
  function InterceptTypes(markers: seq<Marker>): (r: seq<InterceptorKind>)
    ensures |r| <= |markers|
    decreases |markers|
  {
    if |markers| == 0 then []
    else
      var rest := InterceptTypes(markers[1..]);
      match markers[0]
      case Intercept(k) => [k] + rest
      case OtherAttribute(_) => rest
  }

  /** A type is listed exactly when an intercept marker names it. */
  lemma {:induction false} InterceptTypesHas(markers: seq<Marker>, k: InterceptorKind)
    ensures k in InterceptTypes(markers) <==> Intercept(k) in markers
    decreases |markers|
  {
    if |markers| > 0 {
      InterceptTypesHas(markers[1..], k);
      assert markers == [markers[0]] + markers[1..];
    }
  }

  /** The intercept types of concatenated attribute lists are concatenated. */
  lemma {:induction false} InterceptTypesConcat(a: seq<Marker>, b: seq<Marker>)
    ensures InterceptTypes(a + b) == InterceptTypes(a) + InterceptTypes(b)
    decreases |a|
  {
    if |a| > 0 {
      var rest := a[1..] + b;
      assert (a + b)[0] == a[0] && (a + b)[1..] == rest;
      InterceptTypesConcat(a[1..], b);
      match a[0]
      case Intercept(k) =>
        calc {
          InterceptTypes(a + b);
          [k] + InterceptTypes(rest);
          [k] + (InterceptTypes(a[1..]) + InterceptTypes(b));
          InterceptTypes(a) + InterceptTypes(b);
        }
      case OtherAttribute(_) =>
    } else {
      assert a + b == b;
    }
  }

  /** An attribute that is not an intercept marker makes no difference. */
  lemma OtherAttributesIgnored(a: seq<Marker>, name: string, b: seq<Marker>)
    ensures InterceptTypes(a + [OtherAttribute(name)] + b) == InterceptTypes(a + b)
  {
    InterceptTypesConcat(a + [OtherAttribute(name)], b);
    InterceptTypesConcat(a, [OtherAttribute(name)]);
    InterceptTypesConcat(a, b);
  }

  /** The intercept types of all members, member by member (`SelectMany`). */
  function AllInterceptTypes(members: seq<Member>): (r: seq<InterceptorKind>)
    decreases |members|
  {
    if |members| == 0 then [] else InterceptTypes(members[0].markers) + AllInterceptTypes(members[1..])
  }

  /** Replacing one member by one with the same intercept types leaves the accumulation unchanged. */
  lemma {:induction false} AllInterceptTypesUpdate(members: seq<Member>, i: int, m: Member)
    requires 0 <= i < |members|
    requires InterceptTypes(m.markers) == InterceptTypes(members[i].markers)
    ensures AllInterceptTypes(members[i := m]) == AllInterceptTypes(members)
    decreases |members|
  {
    if i == 0 {
      assert members[i := m][1..] == members[1..];
    } else {
      assert members[i := m][1..] == members[1..][i - 1 := m];
      AllInterceptTypesUpdate(members[1..], i - 1, m);
    }
  }

  /** A type occurs across the interface exactly when some member carries a marker for it. */
  lemma {:induction false} AllInterceptTypesHas(members: seq<Member>, k: InterceptorKind)
    ensures k in AllInterceptTypes(members) <==> exists m :: m in members && Intercept(k) in m.markers
    decreases |members|
  {
    if |members| > 0 {
      AllInterceptTypesHas(members[1..], k);
      InterceptTypesHas(members[0].markers, k);
      assert forall m :: m in members <==> m == members[0] || m in members[1..];
    }
  }

  /** An instance per kind holds exactly the custom interceptors of those kinds. */
  lemma InstancesHas(kinds: seq<InterceptorKind>)
    ensures forall x :: x in Instances(kinds) ==> x.Custom? && x.kind in kinds
    ensures forall k :: k in kinds ==> Custom(k) in Instances(kinds)
  {
    var r := Instances(kinds);
    forall k | k in kinds ensures Custom(k) in r {
      var i :| 0 <= i < |kinds| && kinds[i] == k;
      assert r[i] == Custom(k);
    }
  }

  // ---- the service ----

  /** A source that parses one interface type. */
  datatype TypeParsingService = TypeParsingService(typeToParse: ContractType)

  /** The constructor: only an interface is accepted. */
  function New(t: ContractType): (r: Result<TypeParsingService, Fault>)
    ensures r.Ok? <==> t.isInterface
    ensures r.Ok? ==> r.value.typeToParse == t
    ensures r.Err? ==> r.error == TypeLoad("Expected an interface but got " + t.name)
  {
    if !t.isInterface then Err(TypeLoad("Expected an interface but got " + t.name))
    else Ok(TypeParsingService(t))
  }

  /** `FindMatchingInterceptors`: an instance per distinct intercept type on the member
      (`MatchingHas`); at most one per attribute. */
  function FindMatchingInterceptors(svc: TypeParsingService, m: Member): (r: seq<Interceptor>)
    ensures |r| <= |m.markers|
  {
    var types := InterceptTypes(m.markers);
    if |types| > 0 then Instances(Distinct(types)) else []
  }

  /** `GetInterceptors`: an instance per distinct intercept type across all members (`GetInterceptorsHas`). */
  function GetInterceptors(svc: TypeParsingService): (r: seq<Interceptor>)
    ensures |r| <= |AllInterceptTypes(svc.typeToParse.members)|
  {
    Instances(Distinct(AllInterceptTypes(svc.typeToParse.members)))
  }

  /** The source this service is to a proxy factory. */
  function AsSource(svc: TypeParsingService): Source {
    Source(GetInterceptors(svc), m => FindMatchingInterceptors(svc, m))
  }

  /** A member's matches do not change when an attribute other than an intercept marker is inserted. */
  lemma OtherAttributeIgnoredByMatching(svc: TypeParsingService, m: Member, a: seq<Marker>, name: string,
                                        b: seq<Marker>)
    ensures FindMatchingInterceptors(svc, m.(markers := a + [OtherAttribute(name)] + b))
         == FindMatchingInterceptors(svc, m.(markers := a + b))
  {
    OtherAttributesIgnored(a, name, b);
  }

  /** Nor do the type's interceptors when that attribute goes on any one of its members. */
  lemma OtherAttributeIgnoredByType(t: ContractType, i: int, a: seq<Marker>, name: string, b: seq<Marker>)
    requires 0 <= i < |t.members|
    ensures var m := t.members[i];
      GetInterceptors(TypeParsingService(t.(members := t.members[i := m.(markers := a + [OtherAttribute(name)] + b)])))
        == GetInterceptors(TypeParsingService(t.(members := t.members[i := m.(markers := a + b)])))
  {
    var m := t.members[i];
    var plain := t.members[i := m.(markers := a + b)];
    OtherAttributesIgnored(a, name, b);
    AllInterceptTypesUpdate(plain, i, m.(markers := a + [OtherAttribute(name)] + b));
    assert plain[i := m.(markers := a + [OtherAttribute(name)] + b)]
        == t.members[i := m.(markers := a + [OtherAttribute(name)] + b)];
  }

  /** A member matches one custom interceptor per type its intercept markers name, and no other. */
  lemma MatchingHas(svc: TypeParsingService, m: Member)
    ensures var r := FindMatchingInterceptors(svc, m);
      (forall x :: x in r ==> x.Custom? && Intercept(x.kind) in m.markers) &&
      (forall k :: Intercept(k) in m.markers ==> Custom(k) in r) &&
      (forall i, j :: 0 <= i < j < |r| ==> r[i] != r[j])
  {
    var types := InterceptTypes(m.markers);
    var r := FindMatchingInterceptors(svc, m);
    forall k ensures k in types <==> Intercept(k) in m.markers {
      InterceptTypesHas(m.markers, k);
    }
    if |types| > 0 {
      DistinctElements(types);
      DistinctNoRepeats(types);
      InstancesHas(Distinct(types));
    }
  }

  /** `GetInterceptors` holds one custom interceptor per type some member's markers name, and no other. */
  lemma GetInterceptorsHas(svc: TypeParsingService)
    ensures var r := GetInterceptors(svc);
      (forall x :: x in r ==> x.Custom? && exists m :: m in svc.typeToParse.members && Intercept(x.kind) in m.markers) &&
      (forall i, j :: 0 <= i < j < |r| ==> r[i] != r[j])
  {
    var all := AllInterceptTypes(svc.typeToParse.members);
    DistinctElements(all);
    DistinctNoRepeats(all);
    InstancesHas(Distinct(all));
    forall x | x in GetInterceptors(svc)
      ensures exists m :: m in svc.typeToParse.members && Intercept(x.kind) in m.markers
    {
      AllInterceptTypesHas(svc.typeToParse.members, x.kind);
    }
  }

  /** Every interceptor matched for a member of the interface is among `GetInterceptors`. */
  lemma MatchingWithinAll(svc: TypeParsingService, m: Member)
    requires m in svc.typeToParse.members
    ensures forall x :: x in FindMatchingInterceptors(svc, m) ==> x in GetInterceptors(svc)
    ensures |FindMatchingInterceptors(svc, m)| > 0 ==> |GetInterceptors(svc)| > 0
  {
    var all := AllInterceptTypes(svc.typeToParse.members);
    MatchingHas(svc, m);
    DistinctElements(all);
    InstancesHas(Distinct(all));
    forall x | x in FindMatchingInterceptors(svc, m) ensures x in GetInterceptors(svc) {
      AllInterceptTypesHas(svc.typeToParse.members, x.kind);
    }
    if |FindMatchingInterceptors(svc, m)| > 0 {
      assert FindMatchingInterceptors(svc, m)[0] in GetInterceptors(svc);
    }
  }

  /** `GetInterceptors` is empty exactly when no member of the interface matches anything. */
  lemma NoneMatchIffNoInterceptors(svc: TypeParsingService)
    ensures |GetInterceptors(svc)| == 0 <==>
      forall m :: m in svc.typeToParse.members ==> |FindMatchingInterceptors(svc, m)| == 0
  {
    var members := svc.typeToParse.members;
    if |GetInterceptors(svc)| == 0 {
      forall m | m in members ensures |FindMatchingInterceptors(svc, m)| == 0 {
        MatchingWithinAll(svc, m);
      }
    } else {
      GetInterceptorsHas(svc);
      var k := GetInterceptors(svc)[0].kind;
      var m :| m in members && Intercept(k) in m.markers;
      MatchingHas(svc, m);
      assert Custom(k) in FindMatchingInterceptors(svc, m);
    }
  }

  // ---- the three-member example ----

  /** Two intercept markers give their two types, in order. */
  lemma TwoMarkers(x: InterceptorKind, y: InterceptorKind)
    ensures InterceptTypes([Intercept(x), Intercept(y)]) == [x, y]
  {
    var ms := [Intercept(x), Intercept(y)];
    assert ms[1..] == [Intercept(y)] && ms[1..][1..] == [];
  }

  /** The intercept types of members marked [], [T1, T3] and [T1, T2], in member order. */
  lemma ExampleTypes(t1: InterceptorKind, t2: InterceptorKind, t3: InterceptorKind,
                     m1: Member, m2: Member, m3: Member)
    requires m1.markers == [] && m2.markers == [Intercept(t1), Intercept(t3)]
    requires m3.markers == [Intercept(t1), Intercept(t2)]
    ensures InterceptTypes(m2.markers) == [t1, t3]
    ensures AllInterceptTypes([m1, m2, m3]) == [t1, t3, t1, t2]
  {
    TwoMarkers(t1, t3);
    TwoMarkers(t1, t2);
    var ms := [m1, m2, m3];
    assert ms[1..] == [m2, m3] && ms[1..][1..] == [m3] && ms[1..][1..][1..] == [];
    assert AllInterceptTypes([m3]) == [t1, t2];
    assert AllInterceptTypes([m2, m3]) == [t1, t3] + [t1, t2];
  }

  /** Two different types stay as they are. */
  lemma DistinctPair<T(!new)>(t1: T, t3: T)
    requires t1 != t3
    ensures Distinct([t1, t3]) == [t1, t3]
  {
    DistinctSnoc([], t1);
    assert [] + [t1] == [t1];
    DistinctSnoc([t1], t3);
    assert [t1] + [t3] == [t1, t3];
  }

  /** A repeat of the first element drops out. */
  lemma DistinctRepeat<T(!new)>(t1: T, t3: T)
    requires t1 != t3
    ensures Distinct([t1, t3, t1]) == [t1, t3]
  {
    DistinctPair(t1, t3);
    DistinctSnoc([t1, t3], t1);
    assert [t1, t3] + [t1] == [t1, t3, t1];
  }

  /** Duplicates drop out at their later occurrences. */
  lemma ExampleDistinct<T(!new)>(t1: T, t2: T, t3: T)
    requires t1 != t2 && t1 != t3 && t2 != t3
    ensures Distinct([t1, t3, t1, t2]) == [t1, t3, t2]
  {
    DistinctRepeat(t1, t3);
    DistinctSnoc([t1, t3, t1], t2);
    assert [t1, t3, t1] + [t2] == [t1, t3, t1, t2];
  }

  /** Members with markers [], [T1, T3] and [T1, T2] give T1, T3, T2, in that order. */
  lemma FirstOccurrenceOrder(t1: InterceptorKind, t2: InterceptorKind, t3: InterceptorKind,
                             m1: Member, m2: Member, m3: Member, name: string)
    requires t1 != t2 && t1 != t3 && t2 != t3
    requires m1.markers == [] && m2.markers == [Intercept(t1), Intercept(t3)]
    requires m3.markers == [Intercept(t1), Intercept(t2)]
    ensures var svc := TypeParsingService(ContractType(name, name, true, [m1, m2, m3]));
      GetInterceptors(svc) == [Custom(t1), Custom(t3), Custom(t2)] &&
      FindMatchingInterceptors(svc, m2) == [Custom(t1), Custom(t3)]
  {
    ExampleTypes(t1, t2, t3, m1, m2, m3);
    DistinctPair(t1, t3);
    ExampleDistinct(t1, t2, t3);
    var svc := TypeParsingService(ContractType(name, name, true, [m1, m2, m3]));
    assert GetInterceptors(svc) == Instances([t1, t3, t2]);
    assert FindMatchingInterceptors(svc, m2) == Instances([t1, t3]);
  }
}
