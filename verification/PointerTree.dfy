/** Create, Get, Set and Erase of GenericPointer on a tree of values: section 4 of RFC 6901 and the update laws. */
module PointerTree {
  import opened JsonEquality
  import opened JsonValue
  import opened PointerIndex
  import opened PointerText
  import opened Wrappers

  // ---- places in a tree -------------------------------------------------------------------------------------------

  function Size(v: Value): (n: nat) {
    match v case Array(vs) => |vs| case Object(ms) => |ms| case _ => 0
  }

  function Child(v: Value, i: nat): (c: Value)
    requires i < Size(v)
  {
    match v case Array(vs) => vs[i] case Object(ms) => ms[i].value
  }

  function WithChild(v: Value, i: nat, c: Value): (r: Value)
    requires i < Size(v)
    ensures Size(r) == Size(v) && Child(r, i) == c
    ensures forall k :: 0 <= k < Size(v) && k != i ==> Child(r, k) == Child(v, k)
    ensures r.Array? == v.Array? && r.Object? == v.Object?
    ensures v.Object? ==> forall k :: 0 <= k < Size(v) ==> r.members[k].name == v.members[k].name
  {
    match v
    case Array(vs) => Array(vs[i := c])
    case Object(ms) => Object(ms[i := ms[i].(value := c)])
  }

  /** Where a value is in a tree: the number of the child to go to, step by step. */
  type Path = seq<nat>

  predicate IsPath(v: Value, p: Path)
    decreases p
  {
    p == [] || (p[0] < Size(v) && IsPath(Child(v, p[0]), p[1..]))
  }

  function At(v: Value, p: Path): (r: Value)
    requires IsPath(v, p)
    decreases p
  {
    if p == [] then v else At(Child(v, p[0]), p[1..])
  }

  function Replaced(v: Value, p: Path, x: Value): (r: Value)
    requires IsPath(v, p)
    decreases p
  {
    if p == [] then x else WithChild(v, p[0], Replaced(Child(v, p[0]), p[1..], x))
  }

  // ---- one token --------------------------------------------------------------------------------------------------

  /** The child a token keys, if there is one: what Get looks at, one step. */
  function Find(v: Value, key: Key): (i: Option<nat>)
    ensures i.Some? ==> i.value < Size(v)
  {
    match v
    case Object(ms) => var k := FindMember(ms, key.name); if k < |ms| then Some(k) else None
    case Array(vs) => var k := key.index; if k != INVALID_INDEX && k < |vs| then Some(k) else None
    case _ => None
  }

  /** "-" on an array: the element behind the last one, which Create adds and Get never finds. */
  predicate Appends(v: Value, key: Key) {
    v.Array? && key.name == DASH
  }

  function Nulls(n: nat): (vs: seq<Value>)
    ensures |vs| == n && forall k :: 0 <= k < n ==> vs[k] == Null
  {
    seq(n, _ => Null)
  }

  /** One round of Create: the value with the child there, the number of the child, and whether it was there before. */
  function Make(v: Value, key: Key): (r: (Value, nat, bool))
    ensures r.1 < Size(r.0)
  {
    if Appends(v, key) then (Array(v.elements + [Null]), |v.elements|, false)
    else
      var index := key.index;
      var c := if index == INVALID_INDEX then if v.Object? then v else Object([])
               else if v.Array? || v.Object? then v else Array([]);
      match c
      case Array(vs) => (Array(vs + Nulls(if index < |vs| then 0 else index + 1 - |vs|)), index, index < |vs|)
      case Object(ms) =>
        var k := FindMember(ms, key.name);
        (if k < |ms| then c else Object(ms + [Member(key.name, Null)]), k, k < |ms|)
  }

  // ---- whole pointers ---------------------------------------------------------------------------------------------

  function Get(v: Value, keys: seq<Key>): (r: Option<Path>)
    ensures r.Some? ==> IsPath(v, r.value) && |r.value| == |keys|
    decreases keys
  {
    if keys == [] then Some([])
    else match Find(v, keys[0])
         case None => None
         case Some(i) =>
           match Get(Child(v, i), keys[1..]) case None => None case Some(p) => Some([i] + p)
  }

  /** What Create makes of a tree: the tree, the place it returns, and alreadyExist. */
  datatype Created = Created(tree: Value, place: Path, exist: bool)

  function Create(v: Value, keys: seq<Key>): (r: Created)
    ensures IsPath(r.tree, r.place) && |r.place| == |keys|
    decreases keys
  {
    if keys == [] then Created(v, [], true)
    else
      var (c, i, exist) := Make(v, keys[0]);
      var below := Create(Child(c, i), keys[1..]);
      Created(WithChild(c, i, below.tree), [i] + below.place, exist && below.exist)
  }

  function Set(v: Value, keys: seq<Key>, x: Value): (r: Value) {
    var c := Create(v, keys);
    Replaced(c.tree, c.place, x)
  }

  /** A container without one child. */
  function Without(v: Value, i: nat): (r: Value)
    requires i < Size(v)
  {
    match v
    case Array(vs) => Array(vs[..i] + vs[i + 1..])
    case Object(ms) => Object(ms[..i] + ms[i + 1..])
  }

  /** What Erase makes of a tree, None where it returns false. */
  function Erased(v: Value, keys: seq<Key>): (r: Option<Value>)
    decreases keys
  {
    if keys == [] then None
    else match Find(v, keys[0])
         case None => None
         case Some(i) =>
           if |keys| == 1 then Some(Without(v, i))
           else match Erased(Child(v, i), keys[1..]) case None => None case Some(c) => Some(WithChild(v, i, c))
  }

  // ---- laws -------------------------------------------------------------------------------------------------------

  /** Somewhere on the way down, Create meets an array with the token "-". */
  predicate MeetsDash(v: Value, keys: seq<Key>)
    decreases keys
  {
    keys != []
    && (Appends(v, keys[0]) || var (c, i, _) := Make(v, keys[0]); MeetsDash(Child(c, i), keys[1..]))
  }

  /** A pointer without a "-" token never does. */
  lemma {:induction false} WithoutDash(v: Value, keys: seq<Key>)
    requires forall k :: 0 <= k < |keys| ==> keys[k].name != DASH
    ensures !MeetsDash(v, keys)
    decreases keys
  {
    if keys != [] {
      var (c, i, _) := Make(v, keys[0]);
      WithoutDash(Child(c, i), keys[1..]);
    }
  }

  lemma FindMemberIs(ms: seq<Member>, name: Name, k: nat)
    requires k <= |ms| && (k < |ms| ==> ms[k].name == name) && forall j :: 0 <= j < k ==> ms[j].name != name
    ensures FindMember(ms, name) == k
  {
  }

  /** What one round of Create makes, one round of Get finds and another one leaves alone, unless the token appended. */
  lemma FindOfMake(v: Value, key: Key, x: Value)
    requires Sound(key)
    ensures var (c, i, _) := Make(v, key);
            var w := WithChild(c, i, x);
            if Appends(v, key) then Find(w, key) == None && w.Array?
            else Find(w, key) == Some(i) && Make(w, key) == (w, i, true) && !Appends(w, key)
  {
    var (c, i, exist) := Make(v, key);
    var w := WithChild(c, i, x);
    if w.Object? {
      FindMemberIs(w.members, key.name, i);
    } else {
      assert !Appends(v, key) ==> w.elements + Nulls(0) == w.elements;
    }
  }

  /** After Create, Get resolves to the place Create returned, exactly when no "-" has met an array. */
  lemma {:induction false} GetOfCreate(v: Value, keys: seq<Key>)
    requires AllSound(keys)
    ensures var c := Create(v, keys);
            Get(c.tree, keys) == if MeetsDash(v, keys) then None else Some(c.place)
    decreases keys
  {
    hide Make, Find, WithChild, Appends;
    if keys != [] {
      var (c, i, exist) := Make(v, keys[0]);
      FindOfMake(v, keys[0], Create(Child(c, i), keys[1..]).tree);
      GetOfCreate(Child(c, i), keys[1..]);
    }
  }

  /** A second Create changes nothing and reports alreadyExist exactly when no "-" has met an array. */
  lemma {:induction false} CreateTwice(v: Value, keys: seq<Key>)
    requires AllSound(keys)
    ensures var c := Create(v, keys);
            if MeetsDash(v, keys) then !Create(c.tree, keys).exist
            else Create(c.tree, keys) == Created(c.tree, c.place, true)
    decreases keys
  {
    if keys != [] {
      var (c, i, exist) := Make(v, keys[0]);
      FindOfMake(v, keys[0], Create(Child(c, i), keys[1..]).tree);
      CreateTwice(Child(c, i), keys[1..]);
      ChildBack(c, i, Create(Child(c, i), keys[1..]).tree);
    }
  }

  lemma ChildBack(v: Value, i: nat, x: Value)
    requires i < Size(v)
    ensures WithChild(WithChild(v, i, x), i, x) == WithChild(v, i, x)
    ensures WithChild(v, i, Child(v, i)) == v
  {
  }

  /** alreadyExist tells whether Get would have resolved, and then Create has not touched the tree. */
  lemma {:induction false} CreateExisting(v: Value, keys: seq<Key>)
    requires AllSound(keys)
    ensures Create(v, keys).exist <==> Get(v, keys).Some?
    ensures Get(v, keys).Some? ==> Create(v, keys) == Created(v, Get(v, keys).value, true)
    decreases keys
  {
    if keys != [] {
      MakeOfFind(v, keys[0]);
      var (c, i, exist) := Make(v, keys[0]);
      if exist {
        CreateExisting(Child(v, i), keys[1..]);
        ChildBack(v, i, Child(v, i));
      }
    }
  }

  lemma MakeOfFind(v: Value, key: Key)
    requires Sound(key)
    ensures Make(v, key).2 <==> Find(v, key).Some?
    ensures Find(v, key).Some? ==> Make(v, key) == (v, Find(v, key).value, true)
  {
    if v.Array? {
      assert v.elements + Nulls(0) == v.elements;
    }
  }

  /** After Set, Get resolves to the value set, exactly when no "-" has met an array. */
  lemma {:induction false} GetOfSet(v: Value, keys: seq<Key>, x: Value)
    requires AllSound(keys)
    ensures Get(Set(v, keys, x), keys) == if MeetsDash(v, keys) then None else Some(Create(v, keys).place)
    ensures !MeetsDash(v, keys) ==> At(Set(v, keys, x), Create(v, keys).place) == x
    decreases keys
  {
    if keys != [] {
      var (c, i, exist) := Make(v, keys[0]);
      var below := Create(Child(c, i), keys[1..]);
      FindOfMake(v, keys[0], Set(Child(c, i), keys[1..], x));
      GetOfSet(Child(c, i), keys[1..], x);
      assert Create(v, keys).place[1..] == below.place;
      ReplacedBelow(c, i, below.tree, below.place, x);
    }
  }

  lemma ReplacedBelow(c: Value, i: nat, below: Value, p: Path, x: Value)
    requires i < Size(c) && IsPath(below, p)
    ensures var w := WithChild(c, i, below);
            IsPath(w, [i] + p) && Replaced(w, [i] + p, x) == WithChild(c, i, Replaced(below, p, x))
  {
    assert ([i] + p)[1..] == p;
  }

  // ---- what an update leaves alone --------------------------------------------------------------------------------

  /** On the way down, a token that is no index meets an array, which Create turns into an object. */
  predicate LosesElements(v: Value, keys: seq<Key>)
    decreases keys
  {
    keys != []
    && ((v.Array? && keys[0].name != DASH && keys[0].index == INVALID_INDEX)
        || var (c, i, _) := Make(v, keys[0]); LosesElements(Child(c, i), keys[1..]))
  }

  lemma MakeKeeps(v: Value, key: Key, k: nat)
    requires k < Size(v) && !(v.Array? && key.name != DASH && key.index == INVALID_INDEX)
    ensures var (c, i, _) := Make(v, key); k < Size(c) && Child(c, k) == Child(v, k)
  {
  }

  /** Unless an array is turned into an object, Set changes no value that is not on the way to its own place. */
  lemma {:induction false} SetKeepsOthers(v: Value, keys: seq<Key>, x: Value, q: Path)
    requires !LosesElements(v, keys) && IsPath(v, q) && !(q <= Create(v, keys).place) && !(Create(v, keys).place <= q)
    ensures IsPath(Set(v, keys, x), q) && At(Set(v, keys, x), q) == At(v, q)
    decreases keys
  {
    if keys != [] {
      var (c, i, exist) := Make(v, keys[0]);
      var below := Create(Child(c, i), keys[1..]);
      ReplacedBelow(c, i, below.tree, below.place, x);
      MakeKeeps(v, keys[0], q[0]);
      if q[0] == i {
        assert [i] + below.place <= [i] + q[1..] <==> below.place <= q[1..] by { PrefixBehind(i, below.place, q[1..]); }
        assert [i] + q[1..] <= [i] + below.place <==> q[1..] <= below.place by { PrefixBehind(i, q[1..], below.place); }
        assert q == [i] + q[1..];
        SetKeepsOthers(Child(v, i), keys[1..], x, q[1..]);
      }
    }
  }

  lemma PrefixBehind(i: nat, a: Path, b: Path)
    ensures [i] + a <= [i] + b <==> a <= b
  {
    assert ([i] + a)[1..] == a && ([i] + b)[1..] == b;
  }

  // ---- erasing ----------------------------------------------------------------------------------------------------

  /** Erase succeeds exactly on a non-empty pointer that Get resolves, and takes away the child Get finds. */
  lemma {:induction false} ErasedIs(v: Value, keys: seq<Key>)
    ensures Erased(v, keys).Some? <==> keys != [] && Get(v, keys).Some?
    ensures Erased(v, keys).Some? ==>
              var p := Get(v, keys).value;
              var n := |p| - 1;
              IsPath(v, p[..n]) && p[n] < Size(At(v, p[..n]))
              && Erased(v, keys).value == Replaced(v, p[..n], Without(At(v, p[..n]), p[n]))
    decreases keys
  {
    hide Find, Without, WithChild, Replaced, At, IsPath;
    if |keys| == 1 {
      ErasedOne(v, keys);
    } else if |keys| > 1 && Find(v, keys[0]).Some? {
      var i := Find(v, keys[0]).value;
      ErasedIs(Child(v, i), keys[1..]);
      if Get(v, keys).Some? {
        ErasedBelow(v, i, Get(Child(v, i), keys[1..]).value);
      }
    }
  }

  lemma ErasedOne(v: Value, keys: seq<Key>)
    requires |keys| == 1
    ensures Erased(v, keys).Some? <==> Get(v, keys).Some?
    ensures Get(v, keys).Some? ==>
              var p := Get(v, keys).value;
              IsPath(v, p[..0]) && At(v, p[..0]) == v && p[0] < Size(v)
              && Erased(v, keys).value == Replaced(v, p[..0], Without(v, p[0]))
  {
    hide Find, Without;
    if Get(v, keys).Some? {
      assert Get(v, keys).value[..0] == [];
    }
  }

  lemma ErasedBelow(v: Value, i: nat, p: Path)
    requires i < Size(v) && p != [] && IsPath(Child(v, i), p[..|p| - 1])
    requires p[|p| - 1] < Size(At(Child(v, i), p[..|p| - 1]))
    ensures var q := [i] + p;
            && IsPath(v, q[..|p|]) && At(v, q[..|p|]) == At(Child(v, i), p[..|p| - 1]) && q[|p|] == p[|p| - 1]
            && forall x: Value :: Replaced(v, q[..|p|], x) == WithChild(v, i, Replaced(Child(v, i), p[..|p| - 1], x))
  {
    assert ([i] + p)[..|p|] == [i] + p[..|p| - 1];
    assert ([i] + p[..|p| - 1])[1..] == p[..|p| - 1];
  }
}
