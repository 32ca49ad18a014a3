/** The level stack of Writer and PrettyWriter as a state machine, and the text a whole value gets from it. */
module JsonWriterSpec {
  import opened ByteStreams
  import opened JsonText
  import opened JsonValue
  import opened Wrappers

  datatype Level = Level(inArray: bool, valueCount: nat)

  /** The innermost level is the last one. */
  datatype State = State(out: seq<Byte>, levels: seq<Level>, hasRoot: bool) {
    predicate IsComplete() {
      hasRoot && levels == []
    }
  }

  const INIT := State([], [], false)

  datatype Format = Compact | Pretty(indent: Byte, count: nat, singleLineArray: bool) {
    /** SetIndent asserts this. */
    predicate Valid() {
      Pretty? ==> Whitespace(indent)
    }
  }

  function Repeat(c: Byte, n: nat): (s: seq<Byte>)
    ensures |s| == n && forall k :: 0 <= k < n ==> s[k] == c
  {
    if n == 0 then [] else [c] + Repeat(c, n - 1)
  }

  function NewLine(f: Format, depth: nat): (s: seq<Byte>)
    requires f.Pretty?
  {
    [NEWLINE] + Repeat(f.indent, depth * f.count)
  }

  /** What Prefix or PrettyPrefix puts in front of the next value of a level that has depth levels open. */
  function Lead(f: Format, depth: nat, level: Level): (s: seq<Byte>) {
    var comma := level.valueCount > 0;
    var even := level.valueCount % 2 == 0;
    match f
    case Compact =>
      if !comma then [] else if level.inArray || even then [COMMA] else [COLON]
    case Pretty(_, _, single) =>
      if level.inArray then
        (if !comma then [] else if single then [COMMA, SPACE] else [COMMA])
        + (if single then [] else NewLine(f, depth))
      else if even then (if comma then [COMMA] else []) + NewLine(f, depth)
      else [COLON, SPACE]
  }

  /** What EndObject and EndArray put before the bracket when depth levels stay open. */
  function Close(f: Format, depth: nat, level: Level): (s: seq<Byte>) {
    if f.Compact? || level.valueCount == 0 || (level.inArray && f.singleLineArray) then [] else NewLine(f, depth)
  }

  /** The level stack after Prefix. */
  function Counted(levels: seq<Level>): (r: seq<Level>)
    ensures |r| == |levels|
  {
    if levels == [] then []
    else var top := levels[|levels| - 1]; levels[..|levels| - 1] + [top.(valueCount := top.valueCount + 1)]
  }

  /** The assertions of Prefix: one root only, and a string wherever a member name is due. */
  predicate PrefixHolds(s: State, isString: bool) {
    if s.levels == [] then !s.hasRoot
    else var top := s.levels[|s.levels| - 1]; top.inArray || top.valueCount % 2 == 1 || isString
  }

  function Prefixed(f: Format, s: State): (r: State) {
    if s.levels == [] then s.(hasRoot := true)
    else State(s.out + Lead(f, |s.levels|, s.levels[|s.levels| - 1]), Counted(s.levels), s.hasRoot)
  }

  /** The levels with the one an event opens. */
  function Opened(levels: seq<Level>, e: Event): (r: seq<Level>) {
    if e.StartObject? then levels + [Level(false, 0)] else if e.StartArray? then levels + [Level(true, 0)] else levels
  }

  /** One event; None where an assertion of the source fails. */
  function Step(f: Format, s: State, e: Event): (r: Option<State>) {
    match e
    case EndObject(_) =>
      if s.levels == [] || s.levels[|s.levels| - 1].inArray then None else Some(Ended(f, s, e))
    case EndArray(_) =>
      if s.levels == [] || !s.levels[|s.levels| - 1].inArray then None else Some(Ended(f, s, e))
    case _ =>
      if !PrefixHolds(s, e.StringEvent? || e.KeyEvent?) then None
      else
        var p := Prefixed(f, s);
        Some(State(p.out + Token(e), Opened(p.levels, e), p.hasRoot))
  }

  function Ended(f: Format, s: State, e: Event): (r: State)
    requires s.levels != []
  {
    var n := |s.levels| - 1;
    State(s.out + (Close(f, n, s.levels[n]) + Token(e)), s.levels[..n], s.hasRoot)
  }

  function Run(f: Format, s: State, es: seq<Event>): (r: Option<State>)
    decreases es
  {
    if es == [] then Some(s)
    else match Step(f, s, es[0]) case None => None case Some(t) => Run(f, t, es[1..])
  }

  lemma {:induction false} RunAppend(f: Format, s: State, a: seq<Event>, b: seq<Event>)
    ensures Run(f, s, a + b) == match Run(f, s, a) case None => None case Some(t) => Run(f, t, b)
    decreases a
  {
    if a == [] {
      assert a + b == b;
    } else {
      assert (a + b)[1..] == a[1..] + b;
      if Step(f, s, a[0]).Some? {
        RunAppend(f, Step(f, s, a[0]).value, a[1..], b);
      }
    }
  }

  // ---- the text of a whole value ----------------------------------------------------------------------------------

  /** The text of a value with depth levels open around it. */
  function Text(f: Format, depth: nat, v: Value): (s: seq<Byte>)
    decreases v
  {
    match v
    case Null => NULL_TEXT
    case Bool(b) => BoolText(b)
    case Number(n) => NumberText(n)
    case String(s) => Quoted(s)
    case Array(vs) =>
      [OPEN_ARRAY] + ElementTexts(f, depth + 1, vs, 0) + Close(f, depth, Level(true, |vs|)) + [CLOSE_ARRAY]
    case Object(ms) =>
      [OPEN_OBJECT] + MemberTexts(f, depth + 1, ms, 0) + Close(f, depth, Level(false, 2 * |ms|)) + [CLOSE_OBJECT]
  }

  /** The elements from number count on. */
  function ElementTexts(f: Format, depth: nat, vs: seq<Value>, count: nat): (s: seq<Byte>)
    decreases vs
  {
    if vs == [] then []
    else Lead(f, depth, Level(true, count)) + Text(f, depth, vs[0]) + ElementTexts(f, depth, vs[1..], count + 1)
  }

  /** The members from number count on. */
  function MemberTexts(f: Format, depth: nat, ms: seq<Member>, count: nat): (s: seq<Byte>)
    decreases ms
  {
    if ms == [] then []
    else (Lead(f, depth, Level(false, 2 * count)) + Quoted(ms[0].name))
         + (Lead(f, depth, Level(false, 2 * count + 1)) + Text(f, depth, ms[0].value))
         + MemberTexts(f, depth, ms[1..], count + 1)
  }

  /** The writer is at a place where any value may come. */
  predicate TakesValue(s: State) {
    PrefixHolds(s, false)
  }

  /** The state once a whole value has been written. */
  function Wrote(f: Format, s: State, v: Value): (r: State)
    ensures |r.levels| == |s.levels|
  {
    Prefixed(f, s).(out := Prefixed(f, s).out + Text(f, |s.levels|, v))
  }

  function Top(s: State): (level: Level)
    requires s.levels != []
  {
    s.levels[|s.levels| - 1]
  }

  /** More text, and the innermost level with its count raised. */
  function Grown(s: State, text: seq<Byte>, values: nat): (r: State)
    requires s.levels != []
    ensures |r.levels| == |s.levels| && Top(r) == Level(Top(s).inArray, Top(s).valueCount + values)
  {
    var n := |s.levels| - 1;
    State(s.out + text, s.levels[..n] + [Level(Top(s).inArray, Top(s).valueCount + values)], s.hasRoot)
  }

  lemma GrownNone(s: State)
    requires s.levels != []
    ensures Grown(s, [], 0) == s
  {
  }

  lemma GrownTwice(s: State, a: seq<Byte>, m: nat, b: seq<Byte>, n: nat)
    requires s.levels != []
    ensures Grown(Grown(s, a, m), b, n) == Grown(s, a + b, m + n)
  {
  }

  lemma WroteIsGrown(f: Format, s: State, v: Value)
    requires s.levels != []
    ensures Wrote(f, s, v) == Grown(s, Lead(f, |s.levels|, Top(s)) + Text(f, |s.levels|, v), 1)
  {
    hide Lead, Text;
  }

  lemma Opens(f: Format, s: State, e: Event)
    requires TakesValue(s) && (e.StartArray? || e.StartObject?)
    ensures Step(f, s, e).Some?
    ensures var t := Step(f, s, e).value;
            |t.levels| == |s.levels| + 1 && Top(t) == Level(e.StartArray?, 0)
  {
  }

  lemma EventsShape(sender: Sender, v: Value)
    ensures match v
            case Array(vs) => Events(sender, v) == [StartArray] + ElementEvents(sender, vs) + [EndArray(|vs|)]
            case Object(ms) => Events(sender, v) == [StartObject] + MemberEvents(sender, ms) + [EndObject(|ms|)]
            case _ => |Events(sender, v)| == 1 && !Events(sender, v)[0].EndObject?
  {
  }

  lemma RunBracket(f: Format, s: State, open: Event, body: seq<Event>, close: Event)
    requires Step(f, s, open).Some? && Run(f, Step(f, s, open).value, body).Some?
    ensures Run(f, s, [open] + body + [close]) == Step(f, Run(f, Step(f, s, open).value, body).value, close)
  {
    hide Step;
    var t := Step(f, s, open).value;
    RunOne(f, s, open);
    RunAppend(f, s, [open], body);
    RunAppend(f, s, [open] + body, [close]);
    RunOne(f, Run(f, t, body).value, close);
  }

  /** Accept, sent to a writer that can take a value, trips no assertion and appends exactly the text of the value. */
  lemma {:induction false} AcceptWrites(f: Format, sender: Sender, s: State, v: Value)
    requires TakesValue(s)
    ensures Run(f, s, Events(sender, v)) == Some(Wrote(f, s, v))
    decreases v
  {
    hide Lead, Close, NumberText, Quoted, BoolText;
    match v
    case Array(vs) => AcceptArray(f, sender, s, vs);
    case Object(ms) => AcceptObject(f, sender, s, ms);
    case _ =>
      RunOne(f, s, Events(sender, v)[0]);
  }

  lemma KeyWrites(f: Format, s: State, name: seq<Byte>)
    requires s.levels != []
    ensures Run(f, s, [KeyEvent(name)]) == Some(Grown(s, Lead(f, |s.levels|, Top(s)) + Quoted(name), 1))
  {
    hide Lead, Quoted;
    RunOne(f, s, KeyEvent(name));
    assert s.out + Lead(f, |s.levels|, Top(s)) + Quoted(name) == s.out + (Lead(f, |s.levels|, Top(s)) + Quoted(name));
  }

  lemma RunOne(f: Format, s: State, e: Event)
    ensures Run(f, s, [e]) == Step(f, s, e)
  {
  }

  /** Closing a level gives back the stack as Prefix left it, with the whole bracketed text appended. */
  lemma EndedIsWrote(f: Format, s: State, t: State, open: Byte, body: seq<Byte>, count: nat, e: Event)
    requires var p := Prefixed(f, s);
             exists inArray :: t == State(p.out + [open], p.levels + [Level(inArray, 0)], p.hasRoot)
    ensures Ended(f, Grown(t, body, count), e)
         == Prefixed(f, s).(out := Prefixed(f, s).out
                                   + ([open] + body + Close(f, |s.levels|, Level(Top(t).inArray, count)) + Token(e)))
  {
    hide Lead, Close, Token, Counted;
  }

  lemma {:induction false} AcceptArray(f: Format, sender: Sender, s: State, vs: seq<Value>)
    requires TakesValue(s)
    ensures Run(f, s, Events(sender, Array(vs))) == Some(Wrote(f, s, Array(vs)))
    decreases vs, 1
  {
    hide Run, Lead, Close, ElementTexts, ElementEvents, Grown, Ended, Counted;
    EventsShape(sender, Array(vs));
    Opens(f, s, StartArray);
    var t := Step(f, s, StartArray).value;
    AcceptElements(f, sender, t, vs);
    RunBracket(f, s, StartArray, ElementEvents(sender, vs), EndArray(|vs|));
    EndedIsWrote(f, s, t, OPEN_ARRAY, ElementTexts(f, |t.levels|, vs, 0), |vs|, EndArray(|vs|));
  }

  lemma {:induction false} AcceptObject(f: Format, sender: Sender, s: State, ms: seq<Member>)
    requires TakesValue(s)
    ensures Run(f, s, Events(sender, Object(ms))) == Some(Wrote(f, s, Object(ms)))
    decreases ms, 1
  {
    hide Run, Lead, Close, MemberTexts, MemberEvents, Grown, Ended, Counted;
    EventsShape(sender, Object(ms));
    Opens(f, s, StartObject);
    var t := Step(f, s, StartObject).value;
    AcceptMembers(f, sender, t, ms, 0);
    RunBracket(f, s, StartObject, MemberEvents(sender, ms), EndObject(|ms|));
    EndedIsWrote(f, s, t, OPEN_OBJECT, MemberTexts(f, |t.levels|, ms, 0), 2 * |ms|, EndObject(|ms|));
  }

  lemma {:induction false} AcceptElements(f: Format, sender: Sender, s: State, vs: seq<Value>)
    requires s.levels != [] && Top(s).inArray
    ensures Run(f, s, ElementEvents(sender, vs))
         == Some(Grown(s, ElementTexts(f, |s.levels|, vs, Top(s).valueCount), |vs|))
    decreases vs, 0
  {
    hide Lead, Text, Grown, Wrote, Step, Events;
    if vs == [] {
      GrownNone(s);
    } else {
      var text := Lead(f, |s.levels|, Top(s)) + Text(f, |s.levels|, vs[0]);
      AcceptWrites(f, sender, s, vs[0]);
      WroteIsGrown(f, s, vs[0]);
      var t := Grown(s, text, 1);
      AcceptElements(f, sender, t, vs[1..]);
      RunAppend(f, s, Events(sender, vs[0]), ElementEvents(sender, vs[1..]));
      GrownTwice(s, text, 1, ElementTexts(f, |s.levels|, vs[1..], Top(t).valueCount), |vs| - 1);
    }
  }

  lemma {:induction false} AcceptMembers(f: Format, sender: Sender, s: State, ms: seq<Member>, count: nat)
    requires s.levels != [] && Top(s) == Level(false, 2 * count)
    ensures Run(f, s, MemberEvents(sender, ms))
         == Some(Grown(s, MemberTexts(f, |s.levels|, ms, count), 2 * |ms|))
    decreases ms, 0
  {
    hide Lead, Text, Quoted, Grown, Wrote, Step, Events;
    if ms == [] {
      GrownNone(s);
    } else {
      var key := Lead(f, |s.levels|, Top(s)) + Quoted(ms[0].name);
      var t := Grown(s, key, 1);
      KeyWrites(f, s, ms[0].name);
      var text := Lead(f, |s.levels|, Top(t)) + Text(f, |s.levels|, ms[0].value);
      AcceptWrites(f, sender, t, ms[0].value);
      WroteIsGrown(f, t, ms[0].value);
      var u := Grown(t, text, 1);
      AcceptMembers(f, sender, u, ms[1..], count + 1);
      RunAppend(f, s, [KeyEvent(ms[0].name)], Events(sender, ms[0].value));
      RunAppend(f, s, [KeyEvent(ms[0].name)] + Events(sender, ms[0].value), MemberEvents(sender, ms[1..]));
      assert [KeyEvent(ms[0].name)] + Events(sender, ms[0].value) + MemberEvents(sender, ms[1..])
          == MemberEvents(sender, ms);
      GrownTwice(s, key, 1, text, 1);
      GrownTwice(s, key + text, 2, MemberTexts(f, |s.levels|, ms[1..], count + 1), 2 * |ms| - 2);
    }
  }
}
