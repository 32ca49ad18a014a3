/** operator== of GenericValue: when it means that two values are the same. */
module JsonEquality {
  import opened ByteStreams
  import opened JsonValue

  /** FindMember: the place of the first member of that name, |ms| when there is none. */
  function FindMember(ms: seq<Member>, name: seq<Byte>): (i: nat)
    ensures i <= |ms|
    ensures i < |ms| ==> ms[i].name == name
    ensures forall k :: 0 <= k < i ==> ms[k].name != name
  {
    if ms == [] || ms[0].name == name then 0 else 1 + FindMember(ms[1..], name)
  }

  /** operator==. Integers are compared by their 64 bits. */
  predicate Equal(a: Value, b: Value)
    decreases a
  {
    match (a, b)
    case (Null, Null) => true
    case (Bool(x), Bool(y)) => x == y
    case (Number(m), Number(n)) => m % 0x1_0000_0000_0000_0000 == n % 0x1_0000_0000_0000_0000
    case (String(s), String(t)) => s == t
    case (Array(vs), Array(ws)) => |vs| == |ws| && forall i :: 0 <= i < |vs| ==> Equal(vs[i], ws[i])
    case (Object(ms), Object(ns)) =>
      |ms| == |ns| && forall i :: 0 <= i < |ms| ==> Found(ms[i], ns)
    case _ => false
  }

  /** One round of the loop over the members of the left-hand side. */
  predicate Found(m: Member, ns: seq<Member>)
    decreases m
  {
    var k := FindMember(ns, m.name);
    k < |ns| && Equal(m.value, ns[k].value)
  }

  /** No object has two members of one name. */
  predicate Distinct(v: Value)
    decreases v
  {
    match v
    case Array(vs) => forall i :: 0 <= i < |vs| ==> Distinct(vs[i])
    case Object(ms) => NamesDiffer(ms) && forall i :: 0 <= i < |ms| ==> Distinct(ms[i].value)
    case _ => true
  }

  predicate NamesDiffer(ms: seq<Member>) {
    forall i, k :: 0 <= i < k < |ms| ==> ms[i].name != ms[k].name
  }

  /** What RFC 8259 means by a value: an object is an unordered collection; an integer is known by its 64 bits. */
  datatype Meaning =
    | NullMeaning
    | BoolMeaning(b: bool)
    | NumberMeaning(bits: nat)
    | StringMeaning(s: seq<Byte>)
    | ArrayMeaning(elements: seq<Meaning>)
    | ObjectMeaning(members: map<seq<Byte>, Meaning>)

  ghost function Meant(v: Value): (m: Meaning)
    decreases v
  {
    match v
    case Null => NullMeaning
    case Bool(b) => BoolMeaning(b)
    case Number(n) => NumberMeaning(n % 0x1_0000_0000_0000_0000)
    case String(s) => StringMeaning(s)
    case Array(vs) => ArrayMeaning(seq(|vs|, i requires 0 <= i < |vs| => Meant(vs[i])))
    case Object(ms) => ObjectMeaning(MembersMeant(ms))
  }

  ghost function MembersMeant(ms: seq<Member>): (m: map<seq<Byte>, Meaning>)
    decreases ms
  {
    map name | name in Names(ms) :: Meant(ms[FindMember(ms, name)].value)
  }

  function Names(ms: seq<Member>): (names: set<seq<Byte>>)
    ensures forall name :: name in names <==> FindMember(ms, name) < |ms|
  {
    if ms == [] then {} else {ms[0].name} + Names(ms[1..])
  }

  lemma NameOccurs(ms: seq<Member>, i: nat)
    requires i < |ms|
    ensures ms[i].name in Names(ms)
  {
  }

  lemma {:induction false} CountNames(ms: seq<Member>)
    ensures |Names(ms)| <= |ms|
    ensures NamesDiffer(ms) <==> |Names(ms)| == |ms|
  {
    if ms != [] {
      CountNames(ms[1..]);
      FirstDiffers(ms);
      hide NamesDiffer;
      assert {ms[0].name} !! Names(ms[1..]) <==> ms[0].name !in Names(ms[1..]);
    }
  }

  lemma FirstDiffers(ms: seq<Member>)
    requires ms != []
    ensures NamesDiffer(ms) <==> NamesDiffer(ms[1..]) && ms[0].name !in Names(ms[1..])
  {
    if NamesDiffer(ms[1..]) && ms[0].name !in Names(ms[1..]) {
      forall k | 0 < k < |ms|
        ensures ms[k].name != ms[0].name
      {
        NameOccurs(ms[1..], k - 1);
      }
    }
  }

  lemma SubsetOfSameSize<T>(a: set<T>, b: set<T>)
    requires a <= b && |b| <= |a|
    ensures a == b && |a| == |b|
  {
    assert b == a + (b - a);
  }

  /** On values without repeated names, operator== says exactly that both mean the same. */
  lemma {:induction false} EqualIsSameMeaning(a: Value, b: Value)
    requires Distinct(a) && Distinct(b)
    ensures Equal(a, b) <==> Meant(a) == Meant(b)
    decreases a
  {
    match (a, b)
    case (Array(vs), Array(ws)) =>
      ElementsEqual(vs, ws);
    case (Object(ms), Object(ns)) =>
      MembersEqual(ms, ns);
    case _ =>
  }

  lemma {:induction false} ElementsEqual(vs: seq<Value>, ws: seq<Value>)
    requires Distinct(Array(vs)) && Distinct(Array(ws))
    ensures Equal(Array(vs), Array(ws)) <==> Meant(Array(vs)) == Meant(Array(ws))
    decreases vs
  {
    var p, q := Meant(Array(vs)).elements, Meant(Array(ws)).elements;
    if |vs| == |ws| {
      forall i | 0 <= i < |vs|
        ensures Equal(vs[i], ws[i]) <==> p[i] == q[i]
      {
        EqualIsSameMeaning(vs[i], ws[i]);
      }
    }
  }

  /** A member is the only one of its name, so it is what the name means. */
  lemma MeaningAt(ms: seq<Member>, i: nat)
    requires NamesDiffer(ms) && i < |ms|
    ensures FindMember(ms, ms[i].name) == i && ms[i].name in Names(ms)
  {
  }

  predicate DistinctValues(ms: seq<Member>) {
    forall i :: 0 <= i < |ms| ==> Distinct(ms[i].value)
  }

  /** Members of one name mean the same, so that the name has one meaning. */
  ghost predicate Agreeing(ms: seq<Member>) {
    forall i, k :: 0 <= i < |ms| && 0 <= k < |ms| && ms[i].name == ms[k].name ==>
      Meant(ms[i].value) == Meant(ms[k].value)
  }

  /** The value of m means what its name means in ns. */
  ghost predicate MeansAs(m: Member, ns: seq<Member>) {
    m.name in Names(ns) && Meant(m.value) == MembersMeant(ns)[m.name]
  }

  lemma {:induction false} FoundIsMeant(m: Member, ns: seq<Member>)
    requires Distinct(m.value) && DistinctValues(ns)
    ensures Found(m, ns) <==> MeansAs(m, ns)
    decreases m
  {
    if m.name in Names(ns) {
      EqualIsSameMeaning(m.value, ns[FindMember(ns, m.name)].value);
    }
  }

  lemma {:induction false} EqualMeans(ms: seq<Member>, ns: seq<Member>)
    requires DistinctValues(ms) && DistinctValues(ns)
    ensures Equal(Object(ms), Object(ns)) <==> |ms| == |ns| && forall i :: 0 <= i < |ms| ==> MeansAs(ms[i], ns)
    decreases ms, 0
  {
    hide Found, MeansAs, Distinct;
    forall i | 0 <= i < |ms|
      ensures Found(ms[i], ns) <==> MeansAs(ms[i], ns)
    {
      FoundIsMeant(ms[i], ns);
    }
  }

  /** The meaning of ms is part of that of ns. */
  ghost predicate PartOf(ms: seq<Member>, ns: seq<Member>) {
    Names(ms) <= Names(ns) && forall name :: name in Names(ms) ==> MembersMeant(ms)[name] == MembersMeant(ns)[name]
  }

  /** Every member means what its name means in ns: members of one name agree, and ms is part of ns. */
  lemma AllMeanAs(ms: seq<Member>, ns: seq<Member>)
    ensures (forall i :: 0 <= i < |ms| ==> MeansAs(ms[i], ns)) <==> Agreeing(ms) && PartOf(ms, ns)
  {
    hide Meant;
    if forall i :: 0 <= i < |ms| ==> MeansAs(ms[i], ns) {
      forall name | name in Names(ms)
        ensures name in Names(ns) && MembersMeant(ms)[name] == MembersMeant(ns)[name]
      {
        assert MeansAs(ms[FindMember(ms, name)], ns);
      }
    }
    if Agreeing(ms) && PartOf(ms, ns) {
      forall i | 0 <= i < |ms|
        ensures MeansAs(ms[i], ns)
      {
        NameOccurs(ms, i);
        assert ms[FindMember(ms, ms[i].name)].name == ms[i].name;
      }
    }
  }

  /** Equality of two objects that may repeat names: the right-hand side may have names the other has not. */
  lemma {:induction false} EqualOneWay(ms: seq<Member>, ns: seq<Member>)
    requires DistinctValues(ms) && DistinctValues(ns)
    ensures Equal(Object(ms), Object(ns)) <==> |ms| == |ns| && Agreeing(ms) && PartOf(ms, ns)
    decreases ms, 1
  {
    hide *;
    EqualMeans(ms, ns);
    AllMeanAs(ms, ns);
  }

  /** Of objects without repeated names and of one size, one is part of the other only as a whole. */
  lemma WholeMeaning(ms: seq<Member>, ns: seq<Member>)
    requires NamesDiffer(ms) && NamesDiffer(ns)
    ensures |ms| == |ns| && Agreeing(ms) && PartOf(ms, ns) <==> MembersMeant(ms) == MembersMeant(ns)
  {
    hide NamesDiffer, Names, Meant;
    CountNames(ms);
    CountNames(ns);
    var p, q := MembersMeant(ms), MembersMeant(ns);
    assert p.Keys == Names(ms) && q.Keys == Names(ns);
    DifferentAgree(ms);
    if |ms| == |ns| && PartOf(ms, ns) {
      SubsetOfSameSize(Names(ms), Names(ns));
    }
  }

  lemma DifferentAgree(ms: seq<Member>)
    requires NamesDiffer(ms)
    ensures Agreeing(ms)
  {
  }

  lemma {:induction false} MembersEqual(ms: seq<Member>, ns: seq<Member>)
    requires Distinct(Object(ms)) && Distinct(Object(ns))
    ensures Equal(Object(ms), Object(ns)) <==> MembersMeant(ms) == MembersMeant(ns)
    decreases ms, 2
  {
    EqualOneWay(ms, ns);
    WholeMeaning(ms, ns);
  }

  /** The copy a document makes of a value without repeated names compares equal to it. */
  lemma EqualToItself(v: Value)
    requires Distinct(v)
    ensures Equal(v, v)
  {
    EqualIsSameMeaning(v, v);
  }

  /** Two integers compare equal also when one is 2 to the 64 more than the other: -1 equals 18446744073709551615. */
  lemma EqualNumbers(m: Integer, n: Integer)
    ensures Equal(Number(m), Number(n))
            <==> m == n || m == n + 0x1_0000_0000_0000_0000 || n == m + 0x1_0000_0000_0000_0000
  {
  }

  // ---- repeated names ---------------------------------------------------------------------------------------------

  /** What compares equal to a value without repeated names has none either. */
  lemma {:induction false} EqualIsDistinct(a: Value, b: Value)
    requires Distinct(a) && Equal(a, b)
    ensures Distinct(b)
    decreases a
  {
    match (a, b)
    case (Array(vs), Array(ws)) =>
      forall i | 0 <= i < |ws|
        ensures Distinct(ws[i])
      {
        EqualIsDistinct(vs[i], ws[i]);
      }
    case (Object(ms), Object(ns)) =>
      AllNamesFound(ms, ns);
      forall k | 0 <= k < |ns|
        ensures Distinct(ns[k].value)
      {
        MeaningAt(ns, k);
        var i := FindMember(ms, ns[k].name);
        assert Found(ms[i], ns);
        EqualIsDistinct(ms[i].value, ns[k].value);
      }
    case _ =>
  }

  /** As many names on the left as there are members on the right: the right-hand side has each of them once. */
  lemma AllNamesFound(ms: seq<Member>, ns: seq<Member>)
    requires NamesDiffer(ms) && Equal(Object(ms), Object(ns))
    ensures NamesDiffer(ns) && Names(ms) == Names(ns)
  {
    hide Equal, Found, NamesDiffer, Names;
    CountNames(ms);
    CountNames(ns);
    NamesFound(ms, ns);
    SubsetOfSameSize(Names(ms), Names(ns));
  }

  lemma NamesFound(ms: seq<Member>, ns: seq<Member>)
    requires Equal(Object(ms), Object(ns))
    ensures |ms| == |ns| && Names(ms) <= Names(ns)
  {
    forall name | name in Names(ms)
      ensures name in Names(ns)
    {
      assert Found(ms[FindMember(ms, name)], ns);
    }
  }

  /** The documented rule holds of a left-hand side without repeated names, and equality is then sameness of meaning. */
  lemma EqualOfDistinct(a: Value, b: Value)
    requires Distinct(a)
    ensures Equal(a, b) <==> Distinct(b) && Meant(a) == Meant(b)
  {
    if Equal(a, b) {
      EqualIsDistinct(a, b);
    }
    if Distinct(b) {
      EqualIsSameMeaning(a, b);
    }
  }

  /** Two members of one name are compared with the same member on the right. */
  lemma EqualAgrees(ms: seq<Member>, ns: seq<Member>)
    requires DistinctValues(ms) && Equal(Object(ms), Object(ns))
    ensures Agreeing(ms)
  {
    forall i | 0 <= i < |ms|
      ensures FindMember(ns, ms[i].name) < |ns|
      ensures Meant(ms[i].value) == Meant(ns[FindMember(ns, ms[i].name)].value)
    {
      assert Found(ms[i], ns);
      EqualOfDistinct(ms[i].value, ns[FindMember(ns, ms[i].name)].value);
    }
  }

  /** Compared with itself, an object has each of its values compared with the first of that name. */
  lemma FirstsFound(ms: seq<Member>)
    ensures Equal(Object(ms), Object(ms))
            <==> forall i :: 0 <= i < |ms| ==> Equal(ms[i].value, ms[FindMember(ms, ms[i].name)].value)
  {
    forall i | 0 <= i < |ms|
      ensures Found(ms[i], ms) <==> Equal(ms[i].value, ms[FindMember(ms, ms[i].name)].value)
    {
      NameOccurs(ms, i);
    }
  }

  lemma FirstsAgree(ms: seq<Member>)
    requires DistinctValues(ms)
    ensures Agreeing(ms) <==> forall i :: 0 <= i < |ms| ==> Equal(ms[i].value, ms[FindMember(ms, ms[i].name)].value)
  {
    hide Equal, Meant;
    forall i | 0 <= i < |ms|
      ensures FindMember(ms, ms[i].name) < |ms|
      ensures Equal(ms[i].value, ms[FindMember(ms, ms[i].name)].value)
              <==> Meant(ms[i].value) == Meant(ms[FindMember(ms, ms[i].name)].value)
    {
      NameOccurs(ms, i);
      EqualIsSameMeaning(ms[i].value, ms[FindMember(ms, ms[i].name)].value);
    }
  }

  /**
   * When the documented rule fails on the left-hand side: an object whose values are free of repeated names is equal to
   * some object, itself for one, exactly when members of one name agree. To test that, compare every value with the
   * first of its name.
   */
  lemma RuleOnTheLeft(ms: seq<Member>)
    requires DistinctValues(ms)
    ensures (exists ns :: Equal(Object(ms), Object(ns))) <==> Agreeing(ms)
    ensures Equal(Object(ms), Object(ms)) <==> Agreeing(ms)
    ensures Agreeing(ms) <==> forall i :: 0 <= i < |ms| ==> Equal(ms[i].value, ms[FindMember(ms, ms[i].name)].value)
  {
    FirstsFound(ms);
    FirstsAgree(ms);
    hide Equal, Agreeing;
    if exists ns :: Equal(Object(ms), Object(ns)) {
      var ns :| Equal(Object(ms), Object(ns));
      EqualAgrees(ms, ns);
    }
  }

  /** On the right-hand side the rule fails whenever names are repeated. */
  lemma RuleOnTheRight(ns: seq<Member>)
    requires DistinctValues(ns)
    ensures exists ms :: Equal(Object(ms), Object(ns))
    ensures |ns| > 1 ==> exists ms :: !NamesDiffer(ms) && Equal(Object(ms), Object(ns))
  {
    if ns == [] {
      assert Equal(Object(ns), Object(ns));
    } else {
      var ms := seq(|ns|, i => ns[0]);
      EqualToItself(ns[0].value);
      assert FindMember(ns, ns[0].name) == 0;
      assert Equal(Object(ms), Object(ns));
      assert |ns| > 1 ==> ms[0].name == ms[1].name;
    }
  }

  /** Equality in one direction is equality in the other exactly when no name is missing and equal names agree. */
  lemma EqualBack(ms: seq<Member>, ns: seq<Member>)
    requires DistinctValues(ms) && DistinctValues(ns) && Equal(Object(ms), Object(ns))
    ensures Equal(Object(ns), Object(ms)) <==> Agreeing(ns) && Names(ns) <= Names(ms)
  {
    hide Equal, Agreeing, MembersMeant, DistinctValues;
    EqualOneWay(ms, ns);
    EqualOneWay(ns, ms);
  }

  /** With a repeated name, a value may compare equal to another one that does not compare equal to it. */
  lemma RepeatedNames(name: seq<Byte>, other: seq<Byte>)
    requires name != other
    ensures var twice := Object([Member(name, Null), Member(name, Null)]);
            var both := Object([Member(name, Null), Member(other, Null)]);
            Equal(twice, twice) && Equal(twice, both) && !Equal(both, twice)
  {
    var ms, ns := [Member(name, Null), Member(name, Null)], [Member(name, Null), Member(other, Null)];
    assert !Found(ns[1], ms);
  }
}
