/** What Create, Set and Erase of GenericPointer make of each value on their way, and what they leave as it was. */
module PointerEffects {
  import opened JsonValue
  import opened PointerIndex
  import opened PointerTree
  import opened Wrappers

  // ---- making room ------------------------------------------------------------------------------------------------

  /** The array has become w: padded with null so far that there is an element i, and otherwise the same. */
  predicate Padded(vs: seq<Value>, w: Value, i: nat) {
    && w.Array? && |w.elements| == Max(|vs|, i + 1)
    && forall k :: 0 <= k < |w.elements| && k != i ==> w.elements[k] == if k < |vs| then vs[k] else Null
  }

  /** The object has become w: member i is the first of that name, added at the end if need be; the rest is the same. */
  predicate Joined(ms: seq<Member>, name: seq<int>, w: Value, i: nat) {
    && w.Object? && i <= |ms| && |w.members| == Max(|ms|, i + 1)
    && w.members[i].name == name && (forall k :: 0 <= k < i ==> w.members[k].name != name)
    && (i < |ms| ==> ms[i].name == name) && (forall k :: 0 <= k < |ms| && k != i ==> w.members[k] == ms[k])
  }

  /**
   * What a token makes of the value it meets, which leaves w with the child i to go down to. "-" stands for the element
   * behind the last one of an array, and an index that is not invalid for an element of whatever is no object; any
   * other token is the name of a member, and nothing is left of a value that is no object.
   */
  predicate Met(v: Value, key: Key, w: Value, i: nat) {
    if v.Array? && key.name == DASH then Padded(v.elements, w, i) && i == |v.elements|
    else if v.Object? then Joined(v.members, key.name, w, i)
    else if key.index == INVALID_INDEX then Joined([], key.name, w, i)
    else Padded(if v.Array? then v.elements else [], w, i) && i == key.index
  }

  /** What stands at child i before Create goes down to it: the child that was there, or a new null. */
  function Below(v: Value, key: Key, i: nat): (c: Value) {
    if i < Size(v) && !(v.Array? && key.name != DASH && key.index == INVALID_INDEX) then Child(v, i) else Null
  }

  /** What Create makes of the value it starts from; below it, Create has done the same with the tokens behind. */
  lemma CreateMeets(v: Value, keys: seq<Key>)
    requires keys != []
    ensures var c := Create(v, keys);
            var i := c.place[0];
            && Met(v, keys[0], c.tree, i) && i < Size(c.tree)
            && Child(c.tree, i) == Create(Below(v, keys[0], i), keys[1..]).tree
            && c.place[1..] == Create(Below(v, keys[0], i), keys[1..]).place
  {
    var (c, i, _) := Make(v, keys[0]);
    MakeMeets(v, keys[0], Create(Child(c, i), keys[1..]).tree);
  }

  /** The same for Set, which puts the value where no token is left. */
  lemma SetMeets(v: Value, keys: seq<Key>, x: Value)
    ensures keys == [] ==> Set(v, keys, x) == x
    ensures keys != [] ==>
              var w, i := Set(v, keys, x), Create(v, keys).place[0];
              && Met(v, keys[0], w, i) && i < Size(w)
              && Child(w, i) == Set(Below(v, keys[0], i), keys[1..], x)
  {
    hide Make, Met, Below, WithChild;
    if keys != [] {
      var (c, i, _) := Make(v, keys[0]);
      var below := Create(Child(c, i), keys[1..]);
      MakeMeets(v, keys[0], Set(Child(c, i), keys[1..], x));
      ReplacedBelow(c, i, below.tree, below.place, x);
      assert Create(v, keys).place[1..] == below.place;
    }
  }

  lemma MakeMeets(v: Value, key: Key, x: Value)
    ensures var (c, i, _) := Make(v, key);
            && Met(v, key, WithChild(c, i, x), i) && i < Size(WithChild(c, i, x))
            && Child(WithChild(c, i, x), i) == x && Child(c, i) == Below(v, key, i)
  {
  }

  // ---- taking out -------------------------------------------------------------------------------------------------

  /** w is v with the child i taken out and those behind it moved up, each with its name if they have names. */
  predicate TakenOut(v: Value, i: nat, w: Value) {
    && i < Size(v) && Size(w) + 1 == Size(v) && w.Array? == v.Array? && w.Object? == v.Object?
    && (forall k :: 0 <= k < Size(w) ==> Child(w, k) == Child(v, if k < i then k else k + 1))
    && (v.Object? ==> forall k :: 0 <= k < Size(w) ==> w.members[k].name == v.members[if k < i then k else k + 1].name)
  }

  /** The same kind of container with as many children of the same names. */
  predicate SameShell(v: Value, w: Value) {
    && Size(w) == Size(v) && w.Array? == v.Array? && w.Object? == v.Object?
    && (v.Object? ==> forall k :: 0 <= k < Size(v) ==> w.members[k].name == v.members[k].name)
  }

  /** Replacing one value changes nothing off the way to it, and of the values on the way only what is in them. */
  lemma {:induction false} ReplacedKeeps(v: Value, p: Path, x: Value, q: Path)
    requires IsPath(v, p) && IsPath(v, q) && !(p <= q)
    ensures IsPath(Replaced(v, p, x), q)
    ensures if q <= p then SameShell(At(v, q), At(Replaced(v, p, x), q)) else At(Replaced(v, p, x), q) == At(v, q)
    decreases p
  {
    hide WithChild, SameShell;
    if q == [] {
      ShellOfWithChild(v, p[0], Replaced(Child(v, p[0]), p[1..], x));
    } else if q[0] == p[0] {
      PrefixBehind(p[0], p[1..], q[1..]);
      PrefixBehind(p[0], q[1..], p[1..]);
      assert p == [p[0]] + p[1..] && q == [p[0]] + q[1..];
      ReplacedKeeps(Child(v, p[0]), p[1..], x, q[1..]);
    } else {
      assert !(q <= p);
    }
  }

  lemma ShellOfWithChild(v: Value, i: nat, x: Value)
    requires i < Size(v)
    ensures SameShell(v, WithChild(v, i, x))
  {
  }

  lemma {:induction false} ReplacedThere(v: Value, p: Path, x: Value)
    requires IsPath(v, p)
    ensures IsPath(Replaced(v, p, x), p) && At(Replaced(v, p, x), p) == x
    decreases p
  {
    hide WithChild;
    if p != [] {
      ReplacedThere(Child(v, p[0]), p[1..], x);
    }
  }

  /**
   * Erase takes the child Get finds out of its parent; the values off the way to the parent stay as they were, and
   * those above it keep their kind, their number of children and the names of their members.
   */
  lemma ErasedTakesOut(v: Value, keys: seq<Key>, q: Path)
    requires keys != [] && Get(v, keys).Some? && IsPath(v, q)
    ensures Erased(v, keys).Some?
    ensures var p, w := Get(v, keys).value, Erased(v, keys).value;
            var parent := p[..|p| - 1];
            && IsPath(v, parent) && IsPath(w, parent)
            && TakenOut(At(v, parent), p[|p| - 1], At(w, parent))
            && (!(parent <= q) ==> IsPath(w, q))
            && (!(parent <= q) && !(q <= parent) ==> At(w, q) == At(v, q))
            && (q <= parent && q != parent ==> SameShell(At(v, q), At(w, q)))
  {
    hide Get, Erased, TakenOut, SameShell, Without;
    ErasedIs(v, keys);
    var p := Get(v, keys).value;
    var parent := p[..|p| - 1];
    var x := Without(At(v, parent), p[|p| - 1]);
    WithoutTakesOut(At(v, parent), p[|p| - 1]);
    ReplacedThere(v, parent, x);
    if !(parent <= q) {
      ReplacedKeeps(v, parent, x, q);
    }
    assert q <= parent && q != parent ==> !(parent <= q);
  }

  lemma WithoutTakesOut(v: Value, i: nat)
    requires i < Size(v)
    ensures TakenOut(v, i, Without(v, i))
  {
    var w := Without(v, i);
    match v
    case Array(vs) =>
      assert forall k :: 0 <= k < Size(w) ==> w.elements[k] == vs[if k < i then k else k + 1];
    case Object(ms) =>
      assert forall k :: 0 <= k < Size(w) ==> w.members[k] == ms[if k < i then k else k + 1];
  }
}
