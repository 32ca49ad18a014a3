/** What the parser of reader.h sends for any text it accepts, and the document that makes of it. */
module JsonParsed {
  import opened ByteStreams
  import opened JsonDocument
  import opened JsonReader
  import opened JsonText
  import opened JsonValue
  import opened JsonWriterSpec
  import opened Wrappers

  /** The events of any accepted value push one value, whatever the stack, and trip no assertion of the handler. */
  lemma {:induction false} ValueFeeds(s: seq<Byte>, stack: seq<Value>) returns (v: Value)
    requires ReadValue(s).Some?
    ensures FedAll(stack, ReadValue(s).value.0) == Some(stack + [v])
    decreases |s|, 1
  {
    hide FedAll, ReadElements, ReadMembers, ReadString, ReadNumber, Slots, Members;
    var c := Peek(s, 0);
    if c == OPEN_ARRAY {
      var t := SkipSpaces(s[1..]);
      if Peek(t, 0) == CLOSE_ARRAY {
        v := Array([]);
        EmptyFeeds(stack);
      } else {
        var vs := ElementsFeed(t, 0, stack, []);
        OpenFeeds(stack, StartArray, ReadElements(t, 0).value.0, Array([]));
        assert stack + [Array([])] + [] == stack + [Array([])];
        v := Array(vs);
      }
    } else if c == OPEN_OBJECT {
      var t := SkipSpaces(s[1..]);
      if Peek(t, 0) == CLOSE_OBJECT {
        v := Object([]);
        EmptyFeeds(stack);
      } else {
        NoSlots([]);
        var ms := MembersFeed(t, 0, stack, []);
        OpenFeeds(stack, StartObject, ReadMembers(t, 0).value.0, Object([]));
        assert stack + [Object([])] + [] == stack + [Object([])];
        v := Object(ms);
      }
    } else {
      v := ScalarFeeds(s, stack);
    }
  }

  lemma EmptyFeeds(stack: seq<Value>)
    ensures FedAll(stack, [StartArray, EndArray(0)]) == Some(stack + [Array([])])
    ensures FedAll(stack, [StartObject, EndObject(0)]) == Some(stack + [Object([])])
  {
    EndArrayPops(stack, []);
    EndObjectPops(stack, []);
    assert stack + [Array([])] + [] == stack + [Array([])] && stack + [Object([])] + Slots([]) == stack + [Object([])];
    FedBracket(stack, StartArray, [], EndArray(0));
    FedBracket(stack, StartObject, [], EndObject(0));
    assert [StartArray] + [] + [EndArray(0)] == [StartArray, EndArray(0)];
    assert [StartObject] + [] + [EndObject(0)] == [StartObject, EndObject(0)];
  }

  lemma OpenFeeds(stack: seq<Value>, open: Event, es: seq<Event>, v: Value)
    requires Fed(stack, open) == Some(stack + [v])
    ensures FedAll(stack, [open] + es) == FedAll(stack + [v], es)
  {
    hide Fed;
    FedAppend(stack, [open], es);
    FedOne(stack, open);
  }

  lemma ScalarFeeds(s: seq<Byte>, stack: seq<Value>) returns (v: Value)
    requires ReadValue(s).Some? && Peek(s, 0) != OPEN_ARRAY && Peek(s, 0) != OPEN_OBJECT
    ensures FedAll(stack, ReadValue(s).value.0) == Some(stack + [v])
  {
    hide ReadString, ReadDigits, ReadElements, ReadMembers, FedAll;
    var es := ReadValue(s).value.0;
    FedOne(stack, es[0]);
    match es[0]
    case NullEvent => v := Null;
    case BoolEvent(b) => v := Bool(b);
    case NumberEvent(_, n) => v := Number(n);
    case StringEvent(t) => v := String(t);
  }

  lemma {:induction false} ElementsFeed(s: seq<Byte>, count: nat, stack: seq<Value>, vs: seq<Value>)
    returns (ws: seq<Value>)
    requires ReadElements(s, count).Some? && |vs| == count
    ensures FedAll(stack + [Array([])] + vs, ReadElements(s, count).value.0) == Some(stack + [Array(ws)])
    decreases |s|, 2
  {
    hide FedAll, ReadValue, Fed;
    var open := stack + [Array([])];
    var (es, rest) := ReadValue(s).value;
    var t := SkipSpaces(rest);
    var v := ValueFeeds(s, open + vs);
    assert open + vs + [v] == open + (vs + [v]);
    if Peek(t, 0) == COMMA {
      var next := SkipSpaces(t[1..]);
      ws := ElementsFeed(next, count + 1, stack, vs + [v]);
      FedAppend(open + vs, es, ReadElements(next, count + 1).value.0);
    } else {
      ws := vs + [v];
      FedAppend(open + vs, es, [EndArray(count + 1)]);
      FedOne(open + ws, EndArray(count + 1));
      EndArrayPops(stack, ws);
    }
  }

  lemma {:induction false} SlotsOneMore(ms: seq<Member>, m: Member)
    ensures Slots(ms + [m]) == Slots(ms) + [String(m.name)] + [m.value]
  {
    if ms == [] {
      assert ms + [m] == [m] && [m][1..] == [];
    } else {
      assert (ms + [m])[1..] == ms[1..] + [m];
      SlotsOneMore(ms[1..], m);
    }
  }

  lemma {:induction false} MembersFeed(s: seq<Byte>, count: nat, stack: seq<Value>, ms: seq<Member>)
    returns (ns: seq<Member>)
    requires ReadMembers(s, count).Some? && |ms| == count
    ensures FedAll(stack + [Object([])] + Slots(ms), ReadMembers(s, count).value.0) == Some(stack + [Object(ns)])
    decreases |s|, 2
  {
    hide FedAll, ReadValue, Fed, ReadString, Slots;
    var open := stack + [Object([])];
    var (name, rest) := ReadString(s[1..]).value;
    var t := SkipSpaces(SkipSpaces(rest)[1..]);
    var (es, rest2) := ReadValue(t).value;
    var u := SkipSpaces(rest2);
    var v := ValueFeeds(t, open + Slots(ms) + [String(name)]);
    var more := ms + [Member(name, v)];
    MemberFeeds(open, ms, name, es, v);
    if Peek(u, 0) == COMMA {
      var next := SkipSpaces(u[1..]);
      ns := MembersFeed(next, count + 1, stack, more);
      FedAppend(open + Slots(ms), [KeyEvent(name)] + es, ReadMembers(next, count + 1).value.0);
    } else {
      ns := more;
      FedAppend(open + Slots(ms), [KeyEvent(name)] + es, [EndObject(count + 1)]);
      FedOne(open + Slots(ns), EndObject(count + 1));
      EndObjectPops(stack, ns);
    }
  }

  lemma MemberFeeds(open: seq<Value>, ms: seq<Member>, name: seq<Byte>, es: seq<Event>, v: Value)
    requires FedAll(open + Slots(ms) + [String(name)], es) == Some(open + Slots(ms) + [String(name)] + [v])
    ensures FedAll(open + Slots(ms), [KeyEvent(name)] + es) == Some(open + Slots(ms + [Member(name, v)]))
  {
    hide FedAll, Slots;
    OpenFeeds(open + Slots(ms), KeyEvent(name), es, String(name));
    SlotsOneMore(ms, Member(name, v));
    assert open + Slots(ms) + [String(name)] + [v] == open + (Slots(ms) + [String(name)] + [v]);
  }

  /**
   * Any text that is accepted makes a document of exactly one value. Written again, in any format, and parsed again,
   * that value comes back: parsing, writing and parsing is parsing.
   */
  lemma ParsedAgain(s: seq<Byte>, f: Format) returns (v: Value)
    requires ReadDocument(s).Some? && f.Valid()
    ensures FedAll([], ReadDocument(s).value) == Some([v])
    ensures Run(f, INIT, Events(Accept, v)).Some?
    ensures var again := ReadDocument(Run(f, INIT, Events(Accept, v)).value.out);
            again.Some? && FedAll([], again.value) == Some([v])
  {
    hide ReadValue, FedAll, Run, Events;
    v := ValueFeeds(SkipSpaces(s), []);
    assert [] + [v] == [v];
    DocumentOfText(f, v, [], []);
    var out := Run(f, INIT, Events(Accept, v)).value.out;
    assert [] + out + [] == out;
  }
}
