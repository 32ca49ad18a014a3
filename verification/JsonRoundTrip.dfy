/** What Writer and PrettyWriter put for a value, the parser turns back into the events of that value. */
module JsonRoundTrip {
  import opened ByteStreams
  import opened JsonReader
  import opened JsonText
  import opened JsonValue
  import opened JsonWriterSpec
  import opened Wrappers

  // ---- strings ----------------------------------------------------------------------------------------------------

  lemma ReadCharOfEscaped(c: Byte, rest: seq<Byte>)
    ensures ReadChar(Escaped(c) + rest) == Some(([c], rest))
    ensures Escaped(c)[0] != QUOTE
  {
    var s := Escaped(c) + rest;
    assert s[|Escaped(c)|..] == rest;
    if EscapeLetter(c) == 0x75 {
      ReadUnicodeOfHex(c, rest);
      assert s[2..] == [ZERO, ZERO, HexDigit(c / 0x10), HexDigit(c % 0x10)] + rest;
    }
  }

  lemma ReadUnicodeOfHex(c: Byte, rest: seq<Byte>)
    requires c < 0x20
    ensures ReadUnicode([ZERO, ZERO, HexDigit(c / 0x10), HexDigit(c % 0x10)] + rest) == Some((c as int, rest))
  {
    var s := [ZERO, ZERO, HexDigit(c / 0x10), HexDigit(c % 0x10)] + rest;
    assert s[4..] == rest;
    assert HexValue(s[2]) == c / 0x10 && HexValue(s[3]) == c % 0x10;
  }

  lemma {:induction false} ReadStringOfEscapes(str: seq<Byte>, rest: seq<Byte>)
    ensures ReadString(AllEscaped(str) + [QUOTE] + rest) == Some((str, rest))
  {
    hide Escaped, ReadChar;
    if str == [] {
      assert [] + [QUOTE] + rest == [QUOTE] + rest;
    } else {
      var tail := AllEscaped(str[1..]) + [QUOTE] + rest;
      assert AllEscaped(str) + [QUOTE] + rest == Escaped(str[0]) + tail;
      ReadCharOfEscaped(str[0], tail);
      ReadStringOfEscapes(str[1..], rest);
      assert [str[0]] + str[1..] == str;
    }
  }

  // ---- numbers ----------------------------------------------------------------------------------------------------

  lemma {:induction false} DigitRunOf(digits: seq<Byte>, rest: seq<Byte>)
    requires AllDigits(digits)
    requires rest != [] ==> !Digit(rest[0])
    ensures DigitRun(digits + rest) == |digits|
  {
    if digits == [] {
      assert digits + rest == rest;
    } else {
      assert (digits + rest)[1..] == digits[1..] + rest;
      DigitRunOf(digits[1..], rest);
    }
  }

  lemma ReadDigitsOfDecimal(n: nat, rest: seq<Byte>)
    requires rest != [] ==> !Digit(rest[0])
    ensures ReadDigits(Decimal(n) + rest) == Some((n, rest))
    ensures Digit(Decimal(n)[0])
  {
    hide Decimal;
    var digits := Decimal(n);
    DecimalDigits(n);
    DigitRunOf(digits, rest);
    var t := digits + rest;
    assert t[0] == digits[0] && t[..|digits|] == digits && t[|digits|..] == rest;
    if n == 0 {
      ZeroText();
    }
  }

  lemma ZeroText()
    ensures Decimal(0) == [ZERO]
  {
  }

  lemma ReadNumberOfText(n: Integer, rest: seq<Byte>)
    requires rest != [] ==> !Continues(rest[0])
    ensures ReadNumber(NumberText(n) + rest) == Some((NumberEvent(WidthOf(Parser, n), n), rest))
    ensures NumberText(n) != [] && (NumberText(n)[0] == MINUS || Digit(NumberText(n)[0]))
  {
    hide Decimal, ReadDigits;
    ReadDigitsOfDecimal(if n < 0 then -n else n, rest);
    if n < 0 {
      assert (NumberText(n) + rest)[1..] == Decimal(-n) + rest;
    }
  }

  // ---- white space and separators ---------------------------------------------------------------------------------

  predicate Blank(s: seq<Byte>) {
    forall k :: 0 <= k < |s| ==> Whitespace(s[k])
  }

  /** A value may follow here: neither white space nor the end of an array. */
  predicate Starts(s: seq<Byte>) {
    s != [] && !Whitespace(s[0]) && s[0] != CLOSE_ARRAY
  }

  lemma {:induction false} SkipBlank(blank: seq<Byte>, s: seq<Byte>)
    requires Blank(blank) && (s != [] ==> !Whitespace(s[0]))
    ensures SkipSpaces(blank + s) == s
  {
    if blank == [] {
      assert blank + s == s;
    } else {
      assert (blank + s)[1..] == blank[1..] + s;
      SkipBlank(blank[1..], s);
    }
  }

  /** The separator due, then nothing but white space. */
  lemma LeadShape(f: Format, depth: nat, level: Level) returns (blank: seq<Byte>)
    requires f.Valid()
    ensures Blank(blank)
    ensures Lead(f, depth, level)
         == (if level.valueCount == 0 then []
             else if level.inArray || level.valueCount % 2 == 0 then [COMMA] else [COLON]) + blank
  {
    blank := Lead(f, depth, level)[if level.valueCount == 0 then 0 else 1..];
  }

  lemma CloseIsBlank(f: Format, depth: nat, level: Level)
    requires f.Valid()
    ensures Blank(Close(f, depth, level)) && (level.valueCount == 0 ==> Close(f, depth, level) == [])
  {
  }

  lemma TextStarts(f: Format, depth: nat, v: Value, rest: seq<Byte>)
    ensures Starts(Text(f, depth, v) + rest)
  {
    hide Decimal, AllEscaped, ElementTexts, MemberTexts, Close;
    if v.Number? {
      DecimalDigits(if v.n < 0 then -v.n else v.n);
    }
  }

  /** A separator and white space in front of next. */
  lemma SkipSeparator(first: bool, blank: seq<Byte>, next: seq<Byte>)
    requires Blank(blank) && next != [] && !Whitespace(next[0])
    ensures var tail := (if first then [] else [COMMA]) + (blank + next);
            if first then SkipSpaces(tail) == next
            else tail[0] == COMMA && SkipSpaces(tail) == tail && SkipSpaces(tail[1..]) == next
  {
    SkipBlank(blank, next);
    assert [] + (blank + next) == blank + next;
    assert ([COMMA] + (blank + next))[1..] == blank + next;
  }

  lemma Regroup(a: seq<Byte>, b: seq<Byte>, c: seq<Byte>, d: seq<Byte>, e: seq<Byte>)
    ensures ((a + b) + c + d) + e == a + (b + (c + (d + e)))
  {
  }

  /** What follows an element: the elements after it, the closing bracket and the rest of the text. */
  function ElementsTail(f: Format, depth: nat, vs: seq<Value>, count: nat, close: seq<Byte>): (s: seq<Byte>) {
    ElementTexts(f, depth, vs, count) + close
  }

  lemma LastElement(f: Format, depth: nat, count: nat, blank: seq<Byte>, rest: seq<Byte>)
    requires Blank(blank)
    ensures SkipSpaces(ElementsTail(f, depth, [], count, blank + [CLOSE_ARRAY] + rest)) == [CLOSE_ARRAY] + rest
  {
    assert ElementsTail(f, depth, [], count, blank + [CLOSE_ARRAY] + rest) == blank + ([CLOSE_ARRAY] + rest);
    SkipBlank(blank, [CLOSE_ARRAY] + rest);
  }

  lemma NextElement(f: Format, depth: nat, vs: seq<Value>, count: nat, close: seq<Byte>)
    requires f.Valid() && vs != []
    ensures var tail := ElementsTail(f, depth, vs, count, close);
            var next := Text(f, depth, vs[0]) + ElementsTail(f, depth, vs[1..], count + 1, close);
            if count == 0 then SkipSpaces(tail) == next
            else tail != [] && tail[0] == COMMA && SkipSpaces(tail) == tail && SkipSpaces(tail[1..]) == next
  {
    hide Text, Lead, ElementTexts, Starts, SkipSpaces;
    var blank := LeadShape(f, depth, Level(true, count));
    var more := ElementTexts(f, depth, vs[1..], count + 1);
    var next := Text(f, depth, vs[0]) + (more + close);
    NextElementText(f, depth, vs, count);
    Regroup(if count == 0 then [] else [COMMA], blank, Text(f, depth, vs[0]), more, close);
    StartsText(f, depth, vs[0], more + close);
    SkipSeparator(count == 0, blank, next);
  }

  lemma NextElementText(f: Format, depth: nat, vs: seq<Value>, count: nat)
    requires vs != []
    ensures ElementTexts(f, depth, vs, count)
         == Lead(f, depth, Level(true, count)) + Text(f, depth, vs[0]) + ElementTexts(f, depth, vs[1..], count + 1)
  {
  }

  lemma StartsText(f: Format, depth: nat, v: Value, rest: seq<Byte>)
    ensures Text(f, depth, v) + rest != [] && !Whitespace((Text(f, depth, v) + rest)[0])
  {
    TextStarts(f, depth, v, rest);
  }

  /** What follows a member: the members after it, then close. */
  function MembersTail(f: Format, depth: nat, ms: seq<Member>, count: nat, close: seq<Byte>): (s: seq<Byte>) {
    MemberTexts(f, depth, ms, count) + close
  }

  /** A member from its name on, with what follows it. */
  function MemberThen(f: Format, depth: nat, m: Member, count: nat, tail: seq<Byte>): (s: seq<Byte>) {
    Quoted(m.name) + (Lead(f, depth, Level(false, 2 * count + 1)) + (Text(f, depth, m.value) + tail))
  }

  lemma LastMember(f: Format, depth: nat, count: nat, blank: seq<Byte>, rest: seq<Byte>)
    requires Blank(blank)
    ensures SkipSpaces(MembersTail(f, depth, [], count, blank + [CLOSE_OBJECT] + rest)) == [CLOSE_OBJECT] + rest
  {
    assert MembersTail(f, depth, [], count, blank + [CLOSE_OBJECT] + rest) == blank + ([CLOSE_OBJECT] + rest);
    SkipBlank(blank, [CLOSE_OBJECT] + rest);
  }

  lemma NextMember(f: Format, depth: nat, ms: seq<Member>, count: nat, close: seq<Byte>)
    requires f.Valid() && ms != []
    ensures var tail := MembersTail(f, depth, ms, count, close);
            var next := MemberThen(f, depth, ms[0], count, MembersTail(f, depth, ms[1..], count + 1, close));
            next != [] && next[0] == QUOTE
            && if count == 0 then SkipSpaces(tail) == next
               else tail != [] && tail[0] == COMMA && SkipSpaces(tail) == tail && SkipSpaces(tail[1..]) == next
  {
    hide Text, Lead, MemberTexts, SkipSpaces, AllEscaped;
    var blank := LeadShape(f, depth, Level(false, 2 * count));
    var more := MemberTexts(f, depth, ms[1..], count + 1);
    var value := Lead(f, depth, Level(false, 2 * count + 1)) + Text(f, depth, ms[0].value);
    var next := MemberThen(f, depth, ms[0], count, more + close);
    NextMemberText(f, depth, ms, count);
    assert Quoted(ms[0].name) + (value + (more + close)) == next;
    Regroup(if count == 0 then [] else [COMMA], blank, Quoted(ms[0].name), value + more, close);
    assert value + more + close == value + (more + close);
    SkipSeparator(count == 0, blank, next);
  }

  lemma NextMemberText(f: Format, depth: nat, ms: seq<Member>, count: nat)
    requires ms != []
    ensures MemberTexts(f, depth, ms, count)
         == Lead(f, depth, Level(false, 2 * count)) + Quoted(ms[0].name)
            + ((Lead(f, depth, Level(false, 2 * count + 1)) + Text(f, depth, ms[0].value))
               + MemberTexts(f, depth, ms[1..], count + 1))
  {
    hide Lead, Text, Quoted;
  }

  lemma MembersEnd(f: Format, depth: nat, ms: seq<Member>, count: nat, blank: seq<Byte>, rest: seq<Byte>)
    requires f.Valid() && Blank(blank) && count > 0
    ensures var tail := MembersTail(f, depth, ms, count, blank + [CLOSE_OBJECT] + rest);
            tail != [] && !Continues(tail[0])
  {
    hide Text, Lead, Quoted;
    if ms == [] {
      assert MembersTail(f, depth, ms, count, blank + [CLOSE_OBJECT] + rest) == blank + [CLOSE_OBJECT] + rest;
    } else {
      NextMember(f, depth, ms, count, blank + [CLOSE_OBJECT] + rest);
    }
  }

  /** No tail carries a number on. */
  lemma TailEnds(f: Format, depth: nat, vs: seq<Value>, count: nat, blank: seq<Byte>, rest: seq<Byte>)
    requires f.Valid() && Blank(blank) && count > 0
    ensures var tail := ElementsTail(f, depth, vs, count, blank + [CLOSE_ARRAY] + rest);
            tail != [] && !Continues(tail[0])
  {
    hide Text, Lead;
    if vs == [] {
      assert ElementsTail(f, depth, vs, count, blank + [CLOSE_ARRAY] + rest) == blank + [CLOSE_ARRAY] + rest;
    } else {
      NextElement(f, depth, vs, count, blank + [CLOSE_ARRAY] + rest);
    }
  }

  // ---- values -----------------------------------------------------------------------------------------------------

  /** The parser, given the text of a value in any format, sends the events of the value and takes nothing more. */
  lemma {:induction false} ReadValueOfText(f: Format, depth: nat, v: Value, rest: seq<Byte>)
    requires f.Valid() && (rest != [] ==> !Continues(rest[0]))
    ensures ReadValue(Text(f, depth, v) + rest) == Some((Events(Parser, v), rest))
    decreases v
  {
    match v
    case Array(vs) => ReadArray(f, depth, vs, rest);
    case Object(ms) => ReadObject(f, depth, ms, rest);
    case _ => ReadScalar(f, depth, v, rest);
  }

  lemma ReadScalar(f: Format, depth: nat, v: Value, rest: seq<Byte>)
    requires !v.Array? && !v.Object? && (rest != [] ==> !Continues(rest[0]))
    ensures ReadValue(Text(f, depth, v) + rest) == Some((Events(Parser, v), rest))
  {
    hide *;
    match v
    case Number(n) => ReadNumberValue(f, depth, n, rest);
    case String(str) => ReadStringValue(f, depth, str, rest);
    case Null => ReadLiteralValue(f, depth, v, rest);
    case Bool(b) => ReadLiteralValue(f, depth, v, rest);
  }

  lemma ReadLiteralValue(f: Format, depth: nat, v: Value, rest: seq<Byte>)
    requires v.Null? || v.Bool?
    ensures ReadValue(Text(f, depth, v) + rest) == Some((Events(Parser, v), rest))
  {
    var text := Text(f, depth, v);
    var s := text + rest;
    assert s[|text|..] == rest && s[..|text|] == text;
  }

  lemma ReadStringValue(f: Format, depth: nat, str: seq<Byte>, rest: seq<Byte>)
    ensures ReadValue(Text(f, depth, String(str)) + rest) == Some((Events(Parser, String(str)), rest))
  {
    hide AllEscaped, ReadString;
    ReadStringOfEscapes(str, rest);
    assert (Quoted(str) + rest)[1..] == AllEscaped(str) + [QUOTE] + rest;
  }

  lemma ReadNumberValue(f: Format, depth: nat, n: Integer, rest: seq<Byte>)
    requires rest != [] ==> !Continues(rest[0])
    ensures ReadValue(Text(f, depth, Number(n)) + rest) == Some((Events(Parser, Number(n)), rest))
  {
    hide NumberText, ReadNumber, Continues;
    ReadNumberOfText(n, rest);
  }

  lemma {:induction false} ReadArray(f: Format, depth: nat, vs: seq<Value>, rest: seq<Byte>)
    requires f.Valid()
    ensures ReadValue(Text(f, depth, Array(vs)) + rest) == Some((Events(Parser, Array(vs)), rest))
    decreases vs, 1
  {
    hide ElementsTail, ElementTexts, ElementEvents, Close, ReadElements, Text, Events;
    var blank := Close(f, depth, Level(true, |vs|));
    CloseIsBlank(f, depth, Level(true, |vs|));
    var tail := ElementsTail(f, depth + 1, vs, 0, blank + [CLOSE_ARRAY] + rest);
    ArrayShape(f, depth, vs, rest);
    if vs == [] {
      LastElement(f, depth + 1, 0, blank, rest);
      ReadEmptyArray(tail, rest);
    } else {
      NextElement(f, depth + 1, vs, 0, blank + [CLOSE_ARRAY] + rest);
      TextStarts(f, depth + 1, vs[0], ElementsTail(f, depth + 1, vs[1..], 1, blank + [CLOSE_ARRAY] + rest));
      ReadElementsOfText(f, depth + 1, vs, 0, blank, rest);
      ReadFullArray(tail);
    }
  }

  lemma ArrayShape(f: Format, depth: nat, vs: seq<Value>, rest: seq<Byte>)
    ensures Text(f, depth, Array(vs)) + rest
         == [OPEN_ARRAY] + ElementsTail(f, depth + 1, vs, 0, Close(f, depth, Level(true, |vs|)) + [CLOSE_ARRAY] + rest)
    ensures Events(Parser, Array(vs)) == [StartArray] + (ElementEvents(Parser, vs) + [EndArray(|vs|)])
    ensures vs == [] ==> Events(Parser, Array(vs)) == [StartArray, EndArray(0)]
  {
    hide Close, ElementTexts, Events, ElementEvents;
    EventsShape(Parser, Array(vs));
    Rebracket([OPEN_ARRAY], ElementTexts(f, depth + 1, vs, 0), Close(f, depth, Level(true, |vs|)), [CLOSE_ARRAY], rest);
    NoElements(vs);
  }

  lemma NoElements(vs: seq<Value>)
    ensures vs == [] ==> ElementEvents(Parser, vs) == []
  {
  }

  lemma NoMembers(ms: seq<Member>)
    ensures ms == [] ==> MemberEvents(Parser, ms) == []
  {
  }

  lemma Rebracket(a: seq<Byte>, b: seq<Byte>, c: seq<Byte>, d: seq<Byte>, e: seq<Byte>)
    ensures (a + b + c + d) + e == a + (b + (c + d + e))
  {
  }

  lemma ReadEmptyArray(tail: seq<Byte>, rest: seq<Byte>)
    requires SkipSpaces(tail) == [CLOSE_ARRAY] + rest
    ensures ReadValue([OPEN_ARRAY] + tail) == Some(([StartArray, EndArray(0)], rest))
  {
    assert ([OPEN_ARRAY] + tail)[1..] == tail;
  }

  lemma ReadFullArray(tail: seq<Byte>)
    requires Starts(SkipSpaces(tail)) && ReadElements(SkipSpaces(tail), 0).Some?
    ensures var r := ReadElements(SkipSpaces(tail), 0).value;
            ReadValue([OPEN_ARRAY] + tail) == Some(([StartArray] + r.0, r.1))
  {
    hide ReadElements;
    assert ([OPEN_ARRAY] + tail)[1..] == tail;
  }

  lemma {:induction false} ReadElementsOfText(f: Format, depth: nat, vs: seq<Value>, count: nat,
                                              blank: seq<Byte>, rest: seq<Byte>)
    requires f.Valid() && vs != [] && Blank(blank)
    ensures var close := blank + [CLOSE_ARRAY] + rest;
            ReadElements(Text(f, depth, vs[0]) + ElementsTail(f, depth, vs[1..], count + 1, close), count)
            == Some((ElementEvents(Parser, vs) + [EndArray(count + |vs|)], rest))
    decreases vs, 0
  {
    hide ElementsTail, Text, Events, ReadValue;
    var close := blank + [CLOSE_ARRAY] + rest;
    var tail := ElementsTail(f, depth, vs[1..], count + 1, close);
    TailEnds(f, depth, vs[1..], count + 1, blank, rest);
    ReadValueOfText(f, depth, vs[0], tail);
    assert ElementEvents(Parser, vs) == Events(Parser, vs[0]) + ElementEvents(Parser, vs[1..]);
    if |vs| == 1 {
      LastElement(f, depth, count + 1, blank, rest);
      assert ElementEvents(Parser, vs) == Events(Parser, vs[0]);
    } else {
      NextElement(f, depth, vs[1..], count + 1, close);
      ReadElementsOfText(f, depth, vs[1..], count + 1, blank, rest);
      assert Events(Parser, vs[0]) + (ElementEvents(Parser, vs[1..]) + [EndArray(count + |vs|)])
          == ElementEvents(Parser, vs) + [EndArray(count + |vs|)];
    }
  }

  lemma {:induction false} ReadObject(f: Format, depth: nat, ms: seq<Member>, rest: seq<Byte>)
    requires f.Valid()
    ensures ReadValue(Text(f, depth, Object(ms)) + rest) == Some((Events(Parser, Object(ms)), rest))
    decreases ms, 1
  {
    hide MembersTail, MemberThen, MemberTexts, MemberEvents, Close, ReadMembers, Text, Events;
    var blank := Close(f, depth, Level(false, 2 * |ms|));
    CloseIsBlank(f, depth, Level(false, 2 * |ms|));
    var tail := MembersTail(f, depth + 1, ms, 0, blank + [CLOSE_OBJECT] + rest);
    ObjectShape(f, depth, ms, rest);
    if ms == [] {
      LastMember(f, depth + 1, 0, blank, rest);
      ReadEmptyObject(tail, rest);
    } else {
      NextMember(f, depth + 1, ms, 0, blank + [CLOSE_OBJECT] + rest);
      ReadMembersOfText(f, depth + 1, ms, 0, blank, rest);
      ReadFullObject(tail);
    }
  }

  lemma ObjectShape(f: Format, depth: nat, ms: seq<Member>, rest: seq<Byte>)
    ensures Text(f, depth, Object(ms)) + rest
         == [OPEN_OBJECT]
            + MembersTail(f, depth + 1, ms, 0, Close(f, depth, Level(false, 2 * |ms|)) + [CLOSE_OBJECT] + rest)
    ensures Events(Parser, Object(ms)) == [StartObject] + (MemberEvents(Parser, ms) + [EndObject(|ms|)])
    ensures ms == [] ==> Events(Parser, Object(ms)) == [StartObject, EndObject(0)]
  {
    hide Close, MemberTexts, Events, MemberEvents;
    EventsShape(Parser, Object(ms));
    Rebracket([OPEN_OBJECT], MemberTexts(f, depth + 1, ms, 0), Close(f, depth, Level(false, 2 * |ms|)), [CLOSE_OBJECT],
              rest);
    NoMembers(ms);
  }

  lemma ReadEmptyObject(tail: seq<Byte>, rest: seq<Byte>)
    requires SkipSpaces(tail) == [CLOSE_OBJECT] + rest
    ensures ReadValue([OPEN_OBJECT] + tail) == Some(([StartObject, EndObject(0)], rest))
  {
    assert ([OPEN_OBJECT] + tail)[1..] == tail;
  }

  lemma ReadFullObject(tail: seq<Byte>)
    requires Peek(SkipSpaces(tail), 0) == QUOTE && ReadMembers(SkipSpaces(tail), 0).Some?
    ensures var r := ReadMembers(SkipSpaces(tail), 0).value;
            ReadValue([OPEN_OBJECT] + tail) == Some(([StartObject] + r.0, r.1))
  {
    hide ReadMembers;
    assert ([OPEN_OBJECT] + tail)[1..] == tail;
  }

  /** A member is read up to the end of its value. */
  lemma ReadNameOfText(f: Format, depth: nat, m: Member, count: nat, tail: seq<Byte>)
    requires f.Valid()
    ensures var s := MemberThen(f, depth, m, count, tail);
            s != [] && s[0] == QUOTE && ReadString(s[1..]).Some?
            && var (name, rest) := ReadString(s[1..]).value;
               var t := SkipSpaces(rest);
               name == m.name && t != [] && t[0] == COLON && SkipSpaces(t[1..]) == Text(f, depth, m.value) + tail
  {
    hide Text, Lead, ReadString, AllEscaped;
    var s := MemberThen(f, depth, m, count, tail);
    var blank := LeadShape(f, depth, Level(false, 2 * count + 1));
    var value := Text(f, depth, m.value) + tail;
    var rest := [COLON] + (blank + value);
    assert Lead(f, depth, Level(false, 2 * count + 1)) + value == rest;
    assert s[1..] == AllEscaped(m.name) + [QUOTE] + rest;
    ReadStringOfEscapes(m.name, rest);
    TextStarts(f, depth, m.value, tail);
    SkipBlank(blank, value);
    assert SkipSpaces(rest) == rest && rest[1..] == blank + value;
  }

  lemma {:induction false} ReadMembersOfText(f: Format, depth: nat, ms: seq<Member>, count: nat,
                                             blank: seq<Byte>, rest: seq<Byte>)
    requires f.Valid() && ms != [] && Blank(blank)
    ensures var close := blank + [CLOSE_OBJECT] + rest;
            ReadMembers(MemberThen(f, depth, ms[0], count, MembersTail(f, depth, ms[1..], count + 1, close)), count)
            == Some((MemberEvents(Parser, ms) + [EndObject(count + |ms|)], rest))
    decreases ms, 0
  {
    hide MembersTail, MemberThen, Text, Events, ReadValue, ReadString, MemberEvents, SkipSpaces;
    var close := blank + [CLOSE_OBJECT] + rest;
    var tail := MembersTail(f, depth, ms[1..], count + 1, close);
    var head := [KeyEvent(ms[0].name)] + Events(Parser, ms[0].value);
    MemberEventsUnfold(ms);
    if |ms| == 1 {
      LastMember(f, depth, count + 1, blank, rest);
      assert SkipSpaces(tail) == [CLOSE_OBJECT] + rest;
    } else {
      NextMember(f, depth, ms[1..], count + 1, close);
      ReadMembersOfText(f, depth, ms[1..], count + 1, blank, rest);
      assert head + (MemberEvents(Parser, ms[1..]) + [EndObject(count + |ms|)])
          == MemberEvents(Parser, ms) + [EndObject(count + |ms|)];
    }
    MembersEnd(f, depth, ms[1..], count + 1, blank, rest);
    ReadNameOfText(f, depth, ms[0], count, tail);
    ReadValueOfText(f, depth, ms[0].value, tail);
  }

  lemma MemberEventsUnfold(ms: seq<Member>)
    requires ms != []
    ensures MemberEvents(Parser, ms)
         == [KeyEvent(ms[0].name)] + Events(Parser, ms[0].value) + MemberEvents(Parser, ms[1..])
    ensures |ms| == 1 ==> MemberEvents(Parser, ms) == [KeyEvent(ms[0].name)] + Events(Parser, ms[0].value)
  {
    hide Events;
  }

  /**
   * The round trip, for every value, either writer and any white space around the text: parsing what Accept made a
   * fresh writer put sends exactly the events of the value.
   */
  lemma ParseOfWrite(f: Format, v: Value, before: seq<Byte>, after: seq<Byte>)
    requires f.Valid() && Blank(before) && Blank(after)
    ensures Run(f, INIT, Events(Accept, v)).Some?
    ensures ReadDocument(before + Run(f, INIT, Events(Accept, v)).value.out + after) == Some(Events(Parser, v))
  {
    hide Text, Events, ReadValue;
    AcceptWrites(f, Accept, INIT, v);
    var text := Text(f, 0, v);
    assert INIT.out + text == text;
    assert before + text + after == before + (text + after);
    TextStarts(f, 0, v, after);
    SkipBlank(before, text + after);
    ReadValueOfText(f, 0, v, after);
    assert after + [] == after;
    SkipBlank(after, []);
  }
}
