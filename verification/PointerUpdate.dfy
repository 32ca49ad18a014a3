/** GenericPointer::Create, Get, Set and Erase as they walk down a tree and change it in place. */
module PointerUpdate {
  import opened JsonEquality
  import opened JsonValue
  import opened PointerIndex
  import opened PointerTree
  import opened Wrappers

  lemma AtEnd(v: Value, p: Path, i: nat)
    requires IsPath(v, p) && i < Size(At(v, p))
    ensures IsPath(v, p + [i]) && At(v, p + [i]) == Child(At(v, p), i)
    decreases p
  {
    if p == [] {
      assert p + [i] == [i] && [i][1..] == [];
    } else {
      assert (p + [i])[1..] == p[1..] + [i];
      AtEnd(Child(v, p[0]), p[1..], i);
    }
  }

  lemma ReplacedAt(v: Value, p: Path, x: Value)
    requires IsPath(v, p)
    ensures IsPath(Replaced(v, p, x), p) && At(Replaced(v, p, x), p) == x
    ensures Replaced(v, p, At(v, p)) == v
    ensures forall y: Value :: Replaced(Replaced(v, p, x), p, y) == Replaced(v, p, y)
    decreases p
  {
    if p != [] {
      ReplacedAt(Child(v, p[0]), p[1..], x);
      ChildBack(v, p[0], x);
      forall y: Value
        ensures Replaced(Replaced(v, p, x), p, y) == Replaced(v, p, y)
      {
        ChildTwice(v, p[0], Replaced(Child(v, p[0]), p[1..], x), Replaced(Child(v, p[0]), p[1..], y));
      }
    }
  }

  lemma ChildTwice(v: Value, i: nat, x: Value, y: Value)
    requires i < Size(v)
    ensures WithChild(WithChild(v, i, x), i, y) == WithChild(v, i, y)
  {
  }

  lemma ReplacedDeep(v: Value, p: Path, i: nat, x: Value)
    requires IsPath(v, p) && i < Size(At(v, p))
    ensures IsPath(v, p + [i]) && Replaced(v, p + [i], x) == Replaced(v, p, WithChild(At(v, p), i, x))
    decreases p
  {
    AtEnd(v, p, i);
    if p == [] {
      assert p + [i] == [i] && [i][1..] == [];
    } else {
      assert (p + [i])[1..] == p[1..] + [i];
      ReplacedDeep(Child(v, p[0]), p[1..], i, x);
    }
  }

  /** What is left to do below place, put into the whole tree. */
  function Lifted(root: Value, place: Path, exist: bool, c: Created): (r: Created)
    requires IsPath(root, place)
  {
    Created(Replaced(root, place, c.tree), place + c.place, exist && c.exist)
  }

  /** Making one child in place and going down to it leaves the rest to do. */
  lemma LiftedDown(root: Value, place: Path, exist: bool, keys: seq<Key>, c: Value, i: nat, found: bool, root': Value)
    requires IsPath(root, place) && keys != []
    requires (c, i, found) == Make(At(root, place), keys[0]) && root' == Replaced(root, place, c)
    ensures IsPath(root', place + [i])
    ensures Lifted(root, place, exist, Create(At(root, place), keys))
         == Lifted(root', place + [i], exist && found, Create(At(root', place + [i]), keys[1..]))
  {
    hide Make, At, Replaced, IsPath, WithChild, Create;
    CreateUnfolds(At(root, place), keys);
    var below := Create(Child(c, i), keys[1..]);
    DownTo(root, place, c, i, below.tree);
    assert place + ([i] + below.place) == place + [i] + below.place;
  }

  /** Replacing a value and then one of its children. */
  lemma DownTo(root: Value, place: Path, c: Value, i: nat, x: Value)
    requires IsPath(root, place) && i < Size(c)
    ensures var root' := Replaced(root, place, c);
            && IsPath(root', place + [i]) && At(root', place + [i]) == Child(c, i)
            && Replaced(root', place + [i], x) == Replaced(root, place, WithChild(c, i, x))
  {
    hide At, Replaced, IsPath, WithChild;
    var root' := Replaced(root, place, c);
    ReplacedAt(root, place, c);
    AtEnd(root', place, i);
    ReplacedDeep(root', place, i, x);
  }

  lemma CreateUnfolds(v: Value, keys: seq<Key>)
    requires keys != []
    ensures var (c, i, found) := Make(v, keys[0]);
            var below := Create(Child(c, i), keys[1..]);
            Create(v, keys) == Created(WithChild(c, i, below.tree), [i] + below.place, found && below.exist)
  {
    hide Make, WithChild;
  }

  class ValueTree {
    var root: Value

    constructor (root: Value)
      ensures this.root == root
    {
      this.root := root;
    }

    method Create(keys: seq<Key>) returns (place: Path, exist: bool)
      modifies this
      ensures Created(root, place, exist) == PointerTree.Create(old(root), keys)
    {
      hide Make, PointerTree.Create, At, Replaced, IsPath;
      place, exist := [], true;
      LiftedStart(root, keys);
      for t := 0 to |keys|
        invariant IsPath(root, place)
        invariant Lifted(root, place, exist, PointerTree.Create(At(root, place), keys[t..]))
               == PointerTree.Create(old(root), keys)
      {
        assert keys[t..][0] == keys[t] && keys[t..][1..] == keys[t + 1..];
        var c, i, found := MakeChild(At(root, place), keys[t]);
        LiftedDown(root, place, exist, keys[t..], c, i, found, Replaced(root, place, c));
        root := Replaced(root, place, c);
        place := place + [i];
        exist := exist && found;
      }
      assert keys[|keys|..] == [];
      LiftedEnd(root, place, exist);
    }

    /** unresolved is the number of the first token Get has no place for. */
    method Get(keys: seq<Key>) returns (place: Option<Path>, unresolved: nat)
      ensures place == PointerTree.Get(root, keys)
      ensures place == None ==>
                unresolved < |keys| && PointerTree.Get(root, keys[..unresolved]).Some?
                && PointerTree.Get(root, keys[..unresolved + 1]) == None
    {
      hide IsPath, At, Find, PointerTree.Get;
      var v, p := root, [];
      GetNothing(root);
      for t := 0 to |keys|
        invariant IsPath(root, p) && PointerTree.Get(root, keys[..t]) == Some(p) && At(root, p) == v
      {
        assert keys[..t + 1] == keys[..t] + [keys[t]];
        GetOneMore(root, keys[..t], keys[t]);
        var next := FindChild(v, keys[t]);
        if next == None {
          GetStaysLost(root, keys, t + 1);
          return None, t;
        }
        AtEnd(root, p, next.value);
        v, p := Child(v, next.value), p + [next.value];
      }
      assert keys[..|keys|] == keys;
      return Some(p), 0;
    }

    method Set(keys: seq<Key>, value: Value)
      modifies this
      ensures root == PointerTree.Set(old(root), keys, value)
    {
      var place, _ := Create(keys);
      root := Replaced(root, place, value);
    }

    method Erase(keys: seq<Key>) returns (erased: bool)
      modifies this
      ensures erased == Erased(old(root), keys).Some?
      ensures root == if erased then Erased(old(root), keys).value else old(root)
    {
      hide IsPath, At, Find, Without, Replaced;
      if |keys| == 0 {
        return false;
      }
      var place: Path := [];
      RestStart(root, keys);
      for t := 0 to |keys| - 1
        invariant root == old(root) && IsPath(root, place)
        invariant Erased(root, keys) == RestErased(root, place, keys[t..])
      {
        assert keys[t..][0] == keys[t] && keys[t..][1..] == keys[t + 1..];
        var next := FindChild(At(root, place), keys[t]);
        RestDown(root, place, keys[t..]);
        if next == None {
          return false;
        }
        place := place + [next.value];
      }
      var last := keys[|keys| - 1];
      assert keys[|keys| - 1..] == [last];
      var next := FindChild(At(root, place), last);
      RestLast(root, place, last);
      if next == None {
        return false;
      }
      root := Replaced(root, place, Without(At(root, place), next.value));
      return true;
    }
  }

  /** What Erase has left to do below place, put into the whole tree. */
  function RestErased(root: Value, place: Path, keys: seq<Key>): (r: Option<Value>)
    requires IsPath(root, place)
  {
    match Erased(At(root, place), keys) case None => None case Some(c) => Some(Replaced(root, place, c))
  }

  lemma RestStart(root: Value, keys: seq<Key>)
    ensures IsPath(root, []) && RestErased(root, [], keys) == Erased(root, keys)
  {
  }

  lemma RestDown(root: Value, place: Path, keys: seq<Key>)
    requires IsPath(root, place) && |keys| > 1
    ensures match Find(At(root, place), keys[0])
            case None => RestErased(root, place, keys) == None
            case Some(i) =>
              IsPath(root, place + [i]) && RestErased(root, place, keys) == RestErased(root, place + [i], keys[1..])
  {
    match Find(At(root, place), keys[0])
    case None =>
    case Some(i) =>
      AtEnd(root, place, i);
      match Erased(Child(At(root, place), i), keys[1..])
      case None =>
      case Some(c) => ReplacedDeep(root, place, i, c);
  }

  lemma RestLast(root: Value, place: Path, key: Key)
    requires IsPath(root, place)
    ensures RestErased(root, place, [key])
         == match Find(At(root, place), key)
            case None => None
            case Some(i) => Some(Replaced(root, place, Without(At(root, place), i)))
  {
  }

  lemma GetNothing(v: Value)
    ensures IsPath(v, []) && PointerTree.Get(v, []) == Some([]) && At(v, []) == v
  {
  }

  /** One token more is looked up where the tokens before it lead. */
  lemma {:induction false} GetOneMore(v: Value, keys: seq<Key>, key: Key)
    requires PointerTree.Get(v, keys).Some?
    ensures var p := PointerTree.Get(v, keys).value;
            PointerTree.Get(v, keys + [key])
            == match Find(At(v, p), key) case None => None case Some(i) => Some(p + [i])
    decreases keys
  {
    hide Find;
    if keys == [] {
      assert keys + [key] == [key] && [key][1..] == [];
      match Find(v, key)
      case None =>
      case Some(i) => assert [i] + [] == [] + [i] == [i];
    } else {
      assert (keys + [key])[1..] == keys[1..] + [key];
      var i := Find(v, keys[0]).value;
      var q := PointerTree.Get(Child(v, i), keys[1..]).value;
      GetOneMore(Child(v, i), keys[1..], key);
      assert ([i] + q)[1..] == q;
      match Find(At(Child(v, i), q), key)
      case None =>
      case Some(k) => assert [i] + (q + [k]) == [i] + q + [k];
    }
  }

  lemma {:induction false} GetStaysLost(v: Value, keys: seq<Key>, t: nat)
    requires t <= |keys| && PointerTree.Get(v, keys[..t]) == None
    ensures PointerTree.Get(v, keys) == None
    decreases keys
  {
    hide Find;
    if keys != [] && t > 0 && Find(v, keys[0]).Some? {
      assert keys[..t][1..] == keys[1..][..t - 1];
      GetStaysLost(Child(v, Find(v, keys[0]).value), keys[1..], t - 1);
    }
  }

  lemma LiftedStart(root: Value, keys: seq<Key>)
    ensures IsPath(root, []) && Lifted(root, [], true, PointerTree.Create(At(root, []), keys[0..]))
            == PointerTree.Create(root, keys)
  {
    assert keys[0..] == keys;
    assert [] + PointerTree.Create(root, keys).place == PointerTree.Create(root, keys).place;
  }

  lemma LiftedEnd(root: Value, place: Path, exist: bool)
    requires IsPath(root, place)
    ensures Lifted(root, place, exist, PointerTree.Create(At(root, place), [])) == Created(root, place, exist)
  {
    ReplacedAt(root, place, Null);
    assert place + [] == place;
  }

  /** The body of the loop in Create: v with the child the token asks for, its number, and whether it was there. */
  method MakeChild(v: Value, key: Key) returns (c: Value, i: nat, found: bool)
    ensures (c, i, found) == Make(v, key)
  {
    c, found := v, true;
    if c.Array? && key.name != [] && key.name[0] == 0x2D && |key.name| == 1 {
      c := Array(c.elements + [Null]);
      return c, Size(c) - 1, false;
    }
    assert !Appends(v, key);
    var index := key.index;
    if index == INVALID_INDEX {
      if !c.Object? {
        c := Object([]);
      }
    } else {
      if !c.Array? && !c.Object? {
        c := Array([]);
      }
    }
    if c.Array? {
      ghost var before := c.elements;
      if index >= Size(c) {
        while index >= Size(c)
          invariant c.Array? && |before| <= |c.elements| <= index + 1
          invariant c.elements == before + Nulls(|c.elements| - |before|)
        {
          c := Array(c.elements + [Null]);
        }
        found := false;
      }
      assert before + Nulls(0) == before;
      i := index;
    } else {
      i := FindMember(c.members, key.name);
      if i == |c.members| {
        c := Object(c.members + [Member(key.name, Null)]);
        found := false;
      }
    }
  }

  /** The switch in the loops of Get and Erase. */
  method FindChild(v: Value, key: Key) returns (i: Option<nat>)
    ensures i == Find(v, key)
  {
    match v
    case Object(ms) =>
      var m := FindMember(ms, key.name);
      if m == |ms| {
        return None;
      }
      return Some(m);
    case Array(vs) =>
      var index := key.index;
      if index == INVALID_INDEX || index >= |vs| {
        return None;
      }
      return Some(index);
    case _ => return None;
  }
}
