/** Writer of writer.h and PrettyWriter of prettywriter.h as objects, and Accept of document.h driving them. */
module JsonWriter {
  import opened ByteStreams
  import opened JsonItoa
  import opened JsonText
  import opened JsonValue
  import opened JsonWriterSpec
  import opened Wrappers

  class Writer {
    const output: OutputStream<Byte>
    var levels: seq<Level>
    var hasRoot: bool

    ghost function State(): (s: State)
      reads this, output
    {
      JsonWriterSpec.State(output.content, levels, hasRoot)
    }

    constructor (output: OutputStream<Byte>)
      ensures this.output == output
      ensures State() == JsonWriterSpec.State(old(output.content), [], false)
    {
      this.output := output;
      levels := [];
      hasRoot := false;
    }

    method IsComplete() returns (complete: bool)
      ensures complete == State().IsComplete()
    {
      return hasRoot && levels == [];
    }

    method PutAll(text: seq<Byte>)
      modifies output
      ensures output.content == old(output.content) + text
    {
      for i := 0 to |text|
        invariant output.content == old(output.content) + text[..i]
      {
        output.Put(text[i]);
      }
    }

    /** The asserted conditions of the source are the precondition. */
    method Prefix(isString: bool)
      requires PrefixHolds(State(), isString)
      modifies this, output
      ensures State() == Prefixed(Compact, old(State()))
    {
      if levels != [] {
        var level := levels[|levels| - 1];
        if level.valueCount > 0 {
          if level.inArray {
            output.Put(COMMA);
          } else {
            output.Put(if level.valueCount % 2 == 0 then COMMA else COLON);
          }
        }
        levels := levels[..|levels| - 1] + [level.(valueCount := level.valueCount + 1)];
      } else {
        hasRoot := true;
      }
    }

    /** The escaping branches of the loop in WriteString. */
    method WriteEscaped(c: Byte)
      modifies output
      ensures output.content == old(output.content) + Escaped(c)
    {
      var e := EscapeLetter(c);
      if e != 0 {
        output.Put(BACKSLASH);
        output.Put(e);
        if e == 0x75 {
          output.Put(ZERO);
          output.Put(ZERO);
          output.Put(HexDigit(c / 0x10));
          output.Put(HexDigit(c % 0x10));
        }
      } else {
        output.Put(c);
      }
    }

    method WriteString(str: seq<Byte>)
      modifies output
      ensures output.content == old(output.content) + Quoted(str)
    {
      hide Escaped;
      output.Put(QUOTE);
      ghost var start := output.content;
      var i := 0;
      while i < |str|
        invariant 0 <= i <= |str|
        invariant output.content + AllEscaped(str[i..]) == start + AllEscaped(str)
      {
        ghost var before := output.content;
        WriteEscaped(str[i]);
        i := i + 1;
        assert output.content + AllEscaped(str[i..]) == before + AllEscaped(str[i - 1..]);
      }
      assert output.content == start + AllEscaped(str);
      output.Put(QUOTE);
    }

    /** WriteInt, WriteUint, WriteInt64 and WriteUint64. */
    method WriteNumber(width: Width, n: Integer)
      requires Fits(width, n)
      modifies output
      ensures output.content == old(output.content) + NumberText(n)
    {
      var buffer;
      match width {
        case Uint => buffer := U32toa(n);
        case Uint64 => buffer := U64toa(n);
        case _ => buffer := I64toa(n);
      }
      PutAll(buffer);
    }

    method Null()
      requires PrefixHolds(State(), false)
      modifies this, output
      ensures Step(Compact, old(State()), NullEvent) == Some(State())
    {
      Prefix(false);
      PutAll(NULL_TEXT);
    }

    method Bool(b: bool)
      requires PrefixHolds(State(), false)
      modifies this, output
      ensures Step(Compact, old(State()), BoolEvent(b)) == Some(State())
    {
      Prefix(false);
      PutAll(BoolText(b));
    }

    /** Int, Uint, Int64 and Uint64. */
    method Number(width: Width, n: Integer)
      requires PrefixHolds(State(), false) && Fits(width, n)
      modifies this, output
      ensures Step(Compact, old(State()), NumberEvent(width, n)) == Some(State())
    {
      Prefix(false);
      WriteNumber(width, n);
    }

    method String(str: seq<Byte>)
      requires PrefixHolds(State(), true)
      modifies this, output
      ensures Step(Compact, old(State()), StringEvent(str)) == Some(State())
    {
      Prefix(true);
      WriteString(str);
    }

    method Key(str: seq<Byte>)
      requires PrefixHolds(State(), true)
      modifies this, output
      ensures Step(Compact, old(State()), KeyEvent(str)) == Some(State())
    {
      String(str);
    }

    method StartObject()
      requires PrefixHolds(State(), false)
      modifies this, output
      ensures Step(Compact, old(State()), JsonValue.StartObject) == Some(State())
    {
      Prefix(false);
      levels := levels + [Level(false, 0)];
      output.Put(OPEN_OBJECT);
    }

    method EndObject(memberCount: nat)
      requires levels != [] && !levels[|levels| - 1].inArray
      modifies this, output
      ensures Step(Compact, old(State()), JsonValue.EndObject(memberCount)) == Some(State())
    {
      levels := levels[..|levels| - 1];
      output.Put(CLOSE_OBJECT);
      assert [] + [CLOSE_OBJECT] == [CLOSE_OBJECT];
    }

    method StartArray()
      requires PrefixHolds(State(), false)
      modifies this, output
      ensures Step(Compact, old(State()), JsonValue.StartArray) == Some(State())
    {
      Prefix(false);
      levels := levels + [Level(true, 0)];
      output.Put(OPEN_ARRAY);
    }

    method EndArray(elementCount: nat)
      requires levels != [] && levels[|levels| - 1].inArray
      modifies this, output
      ensures Step(Compact, old(State()), JsonValue.EndArray(elementCount)) == Some(State())
    {
      levels := levels[..|levels| - 1];
      output.Put(CLOSE_ARRAY);
      assert [] + [CLOSE_ARRAY] == [CLOSE_ARRAY];
    }

    /** Accept of a value with this writer as its handler: no assertion fails, and every event is written. */
    method Accept(v: Value)
      requires TakesValue(State())
      modifies this, output
      ensures Run(Compact, old(State()), Events(JsonValue.Accept, v)) == Some(State())
      ensures State() == Wrote(Compact, old(State()), v)
      decreases v, 1
    {
      hide Step;
      AcceptWrites(Compact, JsonValue.Accept, State(), v);
      match v
      case Null => Null(); RunOne(Compact, old(State()), NullEvent);
      case Bool(b) => Bool(b); RunOne(Compact, old(State()), BoolEvent(b));
      case Number(n) =>
        var width := WidthOf(JsonValue.Accept, n);
        Number(width, n);
        RunOne(Compact, old(State()), NumberEvent(width, n));
      case String(str) => String(str); RunOne(Compact, old(State()), StringEvent(str));
      case Array(vs) => AcceptArray(vs);
      case Object(ms) => AcceptObject(ms);
    }

    /** The case kArrayType of Accept. */
    method AcceptArray(vs: seq<Value>)
      requires TakesValue(State())
      modifies this, output
      ensures Run(Compact, old(State()), Events(JsonValue.Accept, Array(vs))) == Some(State())
      decreases Array(vs), 0
    {
      hide Step, Run, Wrote, Grown, Events, ElementEvents, ElementTexts;
      ghost var who := JsonValue.Accept;
      EventsShape(who, Array(vs));
      Opens(Compact, State(), JsonValue.StartArray);
      StartArray();
      ghost var t := State();
      assert vs[0..] == vs;
      AcceptElements(Compact, who, t, vs);
      for i := 0 to |vs|
        invariant levels != [] && levels[|levels| - 1].inArray
        invariant Run(Compact, State(), ElementEvents(who, vs[i..])) == Run(Compact, t, ElementEvents(who, vs))
      {
        ghost var u := State();
        Accept(vs[i]);
        ElementsInTurn(Compact, u, who, vs, i);
        WroteIsGrown(Compact, u, vs[i]);
      }
      NothingInTurn(Compact, State(), who, vs);
      RunBracket(Compact, old(State()), JsonValue.StartArray, ElementEvents(who, vs), JsonValue.EndArray(|vs|));
      EndArray(|vs|);
    }

    /** One round of the loop over the members. */
    method AcceptMember(m: Member, ghost count: nat)
      requires levels != [] && levels[|levels| - 1] == Level(false, 2 * count)
      modifies this, output
      ensures Run(Compact, old(State()), MemberHead(JsonValue.Accept, m)) == Some(State())
      ensures levels != [] && levels[|levels| - 1] == Level(false, 2 * (count + 1))
      decreases m
    {
      hide Wrote, Grown, Step, Text, Lead;
      ghost var u := State();
      RunAppend(Compact, u, [KeyEvent(m.name)], Events(JsonValue.Accept, m.value));
      KeyWrites(Compact, u, m.name);
      RunOne(Compact, u, KeyEvent(m.name));
      Key(m.name);
      WroteIsGrown(Compact, State(), m.value);
      Accept(m.value);
    }

    /** The case kObjectType of Accept. */
    method AcceptObject(ms: seq<Member>)
      requires TakesValue(State())
      modifies this, output
      ensures Run(Compact, old(State()), Events(JsonValue.Accept, Object(ms))) == Some(State())
      decreases Object(ms), 0
    {
      hide Step, Run, Wrote, Grown, Events, MemberEvents, MemberTexts, MemberHead;
      ghost var who := JsonValue.Accept;
      EventsShape(who, Object(ms));
      Opens(Compact, State(), JsonValue.StartObject);
      StartObject();
      ghost var t := State();
      assert ms[0..] == ms;
      AcceptMembers(Compact, who, t, ms, 0);
      for i := 0 to |ms|
        invariant levels != [] && levels[|levels| - 1] == Level(false, 2 * i)
        invariant Run(Compact, State(), MemberEvents(who, ms[i..])) == Run(Compact, t, MemberEvents(who, ms))
      {
        ghost var u := State();
        AcceptMember(ms[i], i);
        MembersInTurn(Compact, u, who, ms, i);
      }
      NoMemberInTurn(Compact, State(), who, ms);
      RunBracket(Compact, old(State()), JsonValue.StartObject, MemberEvents(who, ms), JsonValue.EndObject(|ms|));
      EndObject(|ms|);
    }
  }

  /** What is left to send before and after element number i. */
  lemma ElementsInTurn(f: Format, s: State, sender: Sender, vs: seq<Value>, i: nat)
    requires i < |vs| && Run(f, s, Events(sender, vs[i])).Some?
    ensures Run(f, s, ElementEvents(sender, vs[i..]))
         == Run(f, Run(f, s, Events(sender, vs[i])).value, ElementEvents(sender, vs[i + 1..]))
  {
    hide Run, Events;
    assert vs[i..][1..] == vs[i + 1..];
    RunAppend(f, s, Events(sender, vs[i]), ElementEvents(sender, vs[i + 1..]));
  }

  lemma NothingInTurn(f: Format, s: State, sender: Sender, vs: seq<Value>)
    ensures Run(f, s, ElementEvents(sender, vs[|vs|..])) == Some(s)
  {
    assert vs[|vs|..] == [];
  }

  lemma MembersInTurn(f: Format, s: State, sender: Sender, ms: seq<Member>, i: nat)
    requires i < |ms| && Run(f, s, MemberHead(sender, ms[i])).Some?
    ensures Run(f, s, MemberEvents(sender, ms[i..]))
         == Run(f, Run(f, s, MemberHead(sender, ms[i])).value, MemberEvents(sender, ms[i + 1..]))
  {
    hide Run, Events;
    assert ms[i..][1..] == ms[i + 1..];
    RunAppend(f, s, MemberHead(sender, ms[i]), MemberEvents(sender, ms[i + 1..]));
  }

  lemma NoMemberInTurn(f: Format, s: State, sender: Sender, ms: seq<Member>)
    ensures Run(f, s, MemberEvents(sender, ms[|ms|..])) == Some(s)
  {
    assert ms[|ms|..] == [];
  }

  ghost function MemberHead(sender: Sender, m: Member): (es: seq<Event>) {
    [KeyEvent(m.name)] + Events(sender, m.value)
  }
}
