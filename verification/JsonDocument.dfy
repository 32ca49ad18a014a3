/** The handler of GenericDocument, which builds values on a stack, and the deep copy constructor made from it. */
module JsonDocument {
  import opened ByteStreams
  import opened JsonReader
  import opened JsonRoundTrip
  import opened JsonValue
  import opened JsonWriterSpec
  import opened Wrappers

  /** Pop<Member>(n): two values make a member; None where the first is no string, which no member name may be. */
  function Members(vs: seq<Value>): (r: Option<seq<Member>>)
    requires |vs| % 2 == 0
  {
    if vs == [] then Some([])
    else if !vs[0].String? then None
    else match Members(vs[2..]) case None => None case Some(ms) => Some([Member(vs[0].s, vs[1])] + ms)
  }

  /** The stack after one event; None where the source asserts that enough values are there. */
  function Fed(stack: seq<Value>, e: Event): (r: Option<seq<Value>>) {
    match e
    case NullEvent => Some(stack + [Null])
    case BoolEvent(b) => Some(stack + [Bool(b)])
    case NumberEvent(_, n) => Some(stack + [Number(n)])
    case StringEvent(s) => Some(stack + [String(s)])
    case KeyEvent(s) => Some(stack + [String(s)])
    case StartObject => Some(stack + [Object([])])
    case StartArray => Some(stack + [Array([])])
    case EndObject(count) =>
      var base := |stack| - 2 * count;
      if base < 1 then None
      else
        var ms := Members(stack[base..]);
        if ms == None then None else Some(stack[..base - 1] + [Object(ms.value)])
    case EndArray(count) =>
      var base := |stack| - count;
      if base < 1 then None else Some(stack[..base - 1] + [Array(stack[base..])])
  }

  function FedAll(stack: seq<Value>, es: seq<Event>): (r: Option<seq<Value>>)
    decreases es
  {
    if es == [] then Some(stack)
    else match Fed(stack, es[0]) case None => None case Some(t) => FedAll(t, es[1..])
  }

  lemma {:induction false} FedAppend(stack: seq<Value>, a: seq<Event>, b: seq<Event>)
    ensures FedAll(stack, a + b) == match FedAll(stack, a) case None => None case Some(t) => FedAll(t, b)
    decreases a
  {
    if a == [] {
      assert a + b == b;
    } else {
      assert (a + b)[1..] == a[1..] + b;
      if Fed(stack, a[0]).Some? {
        FedAppend(Fed(stack, a[0]).value, a[1..], b);
      }
    }
  }

  lemma FedNone(stack: seq<Value>)
    ensures FedAll(stack, []) == Some(stack)
  {
  }

  lemma FedOne(stack: seq<Value>, e: Event)
    ensures FedAll(stack, [e]) == Fed(stack, e)
  {
  }

  /** The values the members of an object take on the stack. */
  function Slots(ms: seq<Member>): (vs: seq<Value>)
    ensures |vs| == 2 * |ms|
  {
    if ms == [] then [] else [String(ms[0].name), ms[0].value] + Slots(ms[1..])
  }

  lemma NoSlots(ms: seq<Member>)
    requires ms == []
    ensures Slots(ms) == []
  {
  }

  lemma SlotsGo(stack: seq<Value>, ms: seq<Member>, i: nat)
    requires i < |ms|
    ensures stack + [String(ms[i].name)] + [ms[i].value] + Slots(ms[i + 1..]) == stack + Slots(ms[i..])
  {
    assert ms[i..][1..] == ms[i + 1..];
  }

  lemma {:induction false} MembersOfSlots(ms: seq<Member>)
    ensures Members(Slots(ms)) == Some(ms)
  {
    if ms != [] {
      assert Slots(ms)[2..] == Slots(ms[1..]);
      MembersOfSlots(ms[1..]);
      assert [Member(ms[0].name, ms[0].value)] + ms[1..] == ms;
    }
  }

  /** The events of a value, on whatever stack, push that value and touch nothing below. */
  lemma {:induction false} FeedingBuilds(stack: seq<Value>, sender: Sender, v: Value)
    ensures FedAll(stack, Events(sender, v)) == Some(stack + [v])
    decreases v
  {
    hide Members, ElementEvents, MemberEvents, FedAll;
    match v
    case Array(vs) =>
      FeedingElements(stack + [Array([])], sender, vs);
      FedBracket(stack, StartArray, ElementEvents(sender, vs), EndArray(|vs|));
      EndArrayPops(stack, vs);
    case Object(ms) =>
      FeedingMembers(stack + [Object([])], sender, ms);
      FedBracket(stack, StartObject, MemberEvents(sender, ms), EndObject(|ms|));
      EndObjectPops(stack, ms);
    case _ =>
      FedOne(stack, Events(sender, v)[0]);
  }

  lemma EndArrayPops(stack: seq<Value>, vs: seq<Value>)
    ensures Fed(stack + [Array([])] + vs, EndArray(|vs|)) == Some(stack + [Array(vs)])
  {
    var all := stack + [Array([])] + vs;
    assert all[|stack| + 1..] == vs && all[..|stack|] == stack;
  }

  lemma EndObjectPops(stack: seq<Value>, ms: seq<Member>)
    ensures Fed(stack + [Object([])] + Slots(ms), EndObject(|ms|)) == Some(stack + [Object(ms)])
  {
    hide Slots, Members;
    var all := stack + [Object([])] + Slots(ms);
    assert all[|stack| + 1..] == Slots(ms) && all[..|stack|] == stack;
    MembersOfSlots(ms);
  }

  lemma FedBracket(stack: seq<Value>, open: Event, body: seq<Event>, close: Event)
    requires Fed(stack, open).Some? && FedAll(Fed(stack, open).value, body).Some?
    ensures FedAll(stack, [open] + body + [close]) == Fed(FedAll(Fed(stack, open).value, body).value, close)
  {
    hide Fed;
    FedAppend(stack, [open] + body, [close]);
    FedAppend(stack, [open], body);
    FedOne(stack, open);
    FedOne(FedAll(Fed(stack, open).value, body).value, close);
  }

  lemma {:induction false} FeedingElements(stack: seq<Value>, sender: Sender, vs: seq<Value>)
    ensures FedAll(stack, ElementEvents(sender, vs)) == Some(stack + vs)
    decreases vs
  {
    if vs == [] {
      assert stack + vs == stack;
    } else {
      FeedingBuilds(stack, sender, vs[0]);
      FeedingElements(stack + [vs[0]], sender, vs[1..]);
      FedAppend(stack, Events(sender, vs[0]), ElementEvents(sender, vs[1..]));
      assert stack + [vs[0]] + vs[1..] == stack + vs;
    }
  }

  lemma {:induction false} FeedingMembers(stack: seq<Value>, sender: Sender, ms: seq<Member>)
    ensures FedAll(stack, MemberEvents(sender, ms)) == Some(stack + Slots(ms))
    decreases ms
  {
    hide FedAll, Events, Slots, Members;
    if ms == [] {
      NoSlots(ms);
      assert stack + [] == stack;
      FedNone(stack);
    } else {
      var key, first, rest := [KeyEvent(ms[0].name)], Events(sender, ms[0].value), MemberEvents(sender, ms[1..]);
      var named := stack + [String(ms[0].name)];
      assert MemberEvents(sender, ms) == key + (first + rest);
      FedOne(stack, key[0]);
      FeedingBuilds(named, sender, ms[0].value);
      FeedingMembers(named + [ms[0].value], sender, ms[1..]);
      FedAppend(named, first, rest);
      FedAppend(stack, key, first + rest);
      assert ms[0..] == ms;
      SlotsGo(stack, ms, 0);
    }
  }

  /** Writing a value and parsing the text back into a document gives the value, in every format. */
  lemma DocumentOfText(f: Format, v: Value, before: seq<Byte>, after: seq<Byte>)
    requires f.Valid() && Blank(before) && Blank(after)
    ensures Run(f, INIT, Events(Accept, v)).Some?
    ensures var es := ReadDocument(before + Run(f, INIT, Events(Accept, v)).value.out + after);
            es.Some? && FedAll([], es.value) == Some([v])
  {
    hide Events, Run, ReadDocument, FedAll;
    ParseOfWrite(f, v, before, after);
    FeedingBuilds([], Parser, v);
    assert [] + [v] == [v];
  }

  /** A GenericDocument as a handler. */
  class Document {
    var stack: seq<Value>

    constructor ()
      ensures stack == []
    {
      stack := [];
    }

    method Null()
      modifies this
      ensures Fed(old(stack), NullEvent) == Some(stack)
    {
      stack := stack + [Value.Null];
    }

    method Bool(b: bool)
      modifies this
      ensures Fed(old(stack), BoolEvent(b)) == Some(stack)
    {
      stack := stack + [Value.Bool(b)];
    }

    /** Int, Uint, Int64 and Uint64. */
    method Number(width: Width, n: Integer)
      requires Fits(width, n)
      modifies this
      ensures Fed(old(stack), NumberEvent(width, n)) == Some(stack)
    {
      stack := stack + [Value.Number(n)];
    }

    method String(str: seq<Byte>)
      modifies this
      ensures Fed(old(stack), StringEvent(str)) == Some(stack)
    {
      stack := stack + [Value.String(str)];
    }

    method Key(str: seq<Byte>)
      modifies this
      ensures Fed(old(stack), KeyEvent(str)) == Some(stack)
    {
      String(str);
    }

    method StartObject()
      modifies this
      ensures Fed(old(stack), JsonValue.StartObject) == Some(stack)
    {
      stack := stack + [Value.Object([])];
    }

    method EndObject(memberCount: nat)
      requires Fed(stack, JsonValue.EndObject(memberCount)).Some?
      modifies this
      ensures Fed(old(stack), JsonValue.EndObject(memberCount)) == Some(stack)
    {
      var base := |stack| - 2 * memberCount;
      var members := Members(stack[base..]).value;
      stack := stack[..base];
      stack := stack[..base - 1] + [Value.Object(members)];
      assert old(stack)[..base][..base - 1] == old(stack)[..base - 1];
    }

    method StartArray()
      modifies this
      ensures Fed(old(stack), JsonValue.StartArray) == Some(stack)
    {
      stack := stack + [Value.Array([])];
    }

    method EndArray(elementCount: nat)
      requires elementCount < |stack|
      modifies this
      ensures Fed(old(stack), JsonValue.EndArray(elementCount)) == Some(stack)
    {
      var base := |stack| - elementCount;
      var elements := stack[base..];
      stack := stack[..base];
      stack := stack[..base - 1] + [Value.Array(elements)];
      assert old(stack)[..base][..base - 1] == old(stack)[..base - 1];
    }

    /** Accept of a value with this document as its handler. */
    method Accept(v: Value)
      modifies this
      ensures stack == old(stack) + [v]
      decreases v
    {
      match v
      case Null => Null();
      case Bool(b) => Bool(b);
      case Number(n) => Number(WidthOf(JsonValue.Accept, n), n);
      case String(str) => String(str);
      case Array(vs) =>
        StartArray();
        for i := 0 to |vs|
          invariant stack == old(stack) + [Value.Array([])] + vs[..i]
        {
          Accept(vs[i]);
        }
        assert stack[|stack| - |vs|..] == vs && stack[..|stack| - |vs| - 1] == old(stack);
        EndArray(|vs|);
      case Object(ms) =>
        AcceptObject(ms);
    }

    /** The case kObjectType of Accept. */
    method AcceptObject(ms: seq<Member>)
      modifies this
      ensures stack == old(stack) + [Value.Object(ms)]
      decreases ms
    {
      hide Slots, Members;
      StartObject();
      ghost var open := stack;
      assert ms[0..] == ms;
      for i := 0 to |ms|
        invariant stack + Slots(ms[i..]) == open + Slots(ms)
      {
        ghost var before := stack;
        Key(ms[i].name);
        Accept(ms[i].value);
        SlotsGo(before, ms, i);
      }
      NoSlots(ms[|ms|..]);
      assert stack == open + Slots(ms);
      MembersOfSlots(ms);
      assert stack[|open|..] == Slots(ms) && stack[..|open| - 1] == old(stack);
      EndObject(|ms|);
    }
  }

  /** The copy constructor: containers go through a document of their own, everything else is copied as it is. */
  method DeepCopy(rhs: Value) returns (copy: Value)
    ensures copy == rhs
  {
    match rhs
    case Object(_) => copy := CopyByEvents(rhs);
    case Array(_) => copy := CopyByEvents(rhs);
    case String(str) => copy := String(str);
    case _ => copy := rhs;
  }

  method CopyByEvents(rhs: Value) returns (copy: Value)
    ensures copy == rhs
  {
    var d := new Document();
    d.Accept(rhs);
    copy := d.stack[|d.stack| - 1];
    d.stack := d.stack[..|d.stack| - 1];
  }
}
