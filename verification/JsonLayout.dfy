/**
 * The white space of PrettyWriter, as a rule about the bytes of the compact text: what stands between two bytes depends
 * on the two and on the brackets that are open there.
 */
module JsonLayout {
  import opened ByteStreams
  import opened JsonStrip
  import opened JsonText
  import opened JsonValue
  import opened JsonWriterSpec

  // ---- the rule ---------------------------------------------------------------------------------------------------

  /** What a reader of the compact text knows: where it is, the brackets open around it, and the byte before. */
  datatype Reader = Reader(place: Place, open: seq<Byte>, last: Byte)

  const START := Reader(Outside, [], 0)

  predicate Opens(c: Byte) {
    c == OPEN_ARRAY || c == OPEN_OBJECT
  }

  predicate Closes(c: Byte) {
    c == CLOSE_ARRAY || c == CLOSE_OBJECT
  }

  function Read(r: Reader, c: Byte): (q: Reader) {
    var open := if r.place != Outside then r.open
                else if Opens(c) then r.open + [c]
                else if Closes(c) && r.open != [] then r.open[..|r.open| - 1]
                else r.open;
    Reader(Moved(r.place, c), open, c)
  }

  function ReadAll(r: Reader, s: seq<Byte>): (q: Reader)
    decreases s
  {
    if s == [] then r else ReadAll(Read(r, s[0]), s[1..])
  }

  /** A line break, and count indentation characters for each of the levels. */
  function Break(f: Format, levels: nat): (s: seq<Byte>)
    requires f.Pretty?
  {
    [NEWLINE] + seq(levels * f.count, _ => f.indent)
  }

  /** The white space between two bytes outside strings: last, behind which these brackets are open, and c. */
  function Gap(f: Format, open: seq<Byte>, last: Byte, c: Byte): (s: seq<Byte>)
    requires f.Pretty?
  {
    var depth := |open|;
    var single := f.singleLineArray && depth > 0 && open[depth - 1] == OPEN_ARRAY;
    if Closes(c) && depth > 0 then
      // An empty level is closed at once; any other on a line of its own, one level further out.
      if Opens(last) || single then [] else Break(f, depth - 1)
    else if Opens(last) then
      if single then [] else Break(f, depth)
    else if last == COMMA then
      if single then [SPACE] else Break(f, depth)
    else if last == COLON then
      [SPACE]
    else
      []
  }

  /** The compact text with its white space put in. */
  function Layout(f: Format, r: Reader, s: seq<Byte>): (t: seq<Byte>)
    requires f.Pretty?
    decreases s
  {
    if s == [] then []
    else (if r.place == Outside then Gap(f, r.open, r.last, s[0]) else []) + [s[0]] + Layout(f, Read(r, s[0]), s[1..])
  }

  lemma {:induction false} LayoutAppend(f: Format, r: Reader, a: seq<Byte>, b: seq<Byte>)
    requires f.Pretty?
    ensures ReadAll(r, a + b) == ReadAll(ReadAll(r, a), b)
    ensures Layout(f, r, a + b) == Layout(f, r, a) + Layout(f, ReadAll(r, a), b)
    decreases a
  {
    hide Gap, Read;
    if a == [] {
      assert a + b == b;
    } else {
      assert (a + b)[1..] == a[1..] + b;
      LayoutAppend(f, Read(r, a[0]), a[1..], b);
    }
  }

  // ---- tokens -----------------------------------------------------------------------------------------------------

  /** The byte can stand anywhere in a number or a literal. */
  predicate Plain(c: Byte) {
    !Opens(c) && !Closes(c) && c != QUOTE && c != COMMA && c != COLON
  }

  /** s is one piece: white space can only come before it. */
  predicate OnePiece(f: Format, r: Reader, s: seq<Byte>)
    requires f.Pretty?
  {
    s != [] && Layout(f, r, s) == Gap(f, r.open, r.last, s[0]) + s && ReadAll(r, s).place == Outside
    && ReadAll(r, s).last == s[|s| - 1]
  }

  lemma {:induction false} PlainLaid(f: Format, r: Reader, s: seq<Byte>)
    requires f.Pretty? && r.place == Outside && s != [] && forall k :: 0 <= k < |s| ==> Plain(s[k])
    ensures OnePiece(f, r, s) && ReadAll(r, s).open == r.open
    decreases s
  {
    if |s| > 1 {
      PlainLaid(f, Read(r, s[0]), s[1..]);
      assert [s[0]] + s[1..] == s;
    }
  }

  /** Inside a string nothing is put in. */
  predicate Kept(f: Format, r: Reader, s: seq<Byte>)
    requires f.Pretty?
  {
    Layout(f, r, s) == s && ReadAll(r, s).place == Inside && ReadAll(r, s).open == r.open
  }

  lemma {:induction false} PlainKept(f: Format, r: Reader, s: seq<Byte>)
    requires f.Pretty? && r.place == Inside && forall k :: 0 <= k < |s| ==> s[k] != QUOTE && s[k] != BACKSLASH
    ensures Kept(f, r, s)
    decreases s
  {
    if s != [] {
      PlainKept(f, Read(r, s[0]), s[1..]);
      assert [s[0]] + s[1..] == s;
    }
  }

  lemma EscapeKept(f: Format, r: Reader, c: Byte)
    requires f.Pretty? && r.place == Inside
    ensures Kept(f, r, Escaped(c))
  {
    var e := EscapeLetter(c);
    if e == 0 {
      PlainKept(f, r, [c]);
    } else {
      var q := Read(Read(r, BACKSLASH), e);
      var hex := Escaped(c)[2..];
      PlainKept(f, q, hex);
      assert Escaped(c)[1..][1..] == hex && Escaped(c) == [BACKSLASH] + ([e] + hex);
    }
  }

  lemma {:induction false} EscapesKept(f: Format, r: Reader, s: seq<Byte>)
    requires f.Pretty? && r.place == Inside
    ensures Kept(f, r, AllEscaped(s))
    decreases s
  {
    hide Escaped, Read;
    if s != [] {
      EscapeKept(f, r, s[0]);
      EscapesKept(f, ReadAll(r, Escaped(s[0])), s[1..]);
      LayoutAppend(f, r, Escaped(s[0]), AllEscaped(s[1..]));
    }
  }

  lemma QuoteLaid(f: Format, r: Reader)
    requires f.Pretty? && r.place != Escape
    ensures ReadAll(r, [QUOTE]) == Reader(if r.place == Outside then Inside else Outside, r.open, QUOTE)
    ensures Layout(f, r, [QUOTE]) == (if r.place == Outside then Gap(f, r.open, r.last, QUOTE) else []) + [QUOTE]
  {
    hide Gap;
    var gap := if r.place == Outside then Gap(f, r.open, r.last, QUOTE) else [];
    assert Layout(f, r, [QUOTE]) == gap + [QUOTE] + [] == gap + [QUOTE];
  }

  lemma QuotedLaid(f: Format, r: Reader, s: seq<Byte>)
    requires f.Pretty? && r.place == Outside
    ensures OnePiece(f, r, Quoted(s)) && ReadAll(r, Quoted(s)).open == r.open
  {
    hide AllEscaped, Gap, Layout, ReadAll, Read;
    var q := ReadAll(r, [QUOTE]);
    QuoteLaid(f, r);
    EscapesKept(f, q, s);
    LayoutAppend(f, r, [QUOTE], AllEscaped(s));
    LayoutAppend(f, r, [QUOTE] + AllEscaped(s), [QUOTE]);
    QuoteLaid(f, ReadAll(q, AllEscaped(s)));
    var gap := Gap(f, r.open, r.last, QUOTE);
    assert gap + [QUOTE] + AllEscaped(s) + [QUOTE] == gap + ([QUOTE] + AllEscaped(s) + [QUOTE]);
  }

  lemma NumberLaid(f: Format, r: Reader, n: int)
    requires f.Pretty? && r.place == Outside
    ensures OnePiece(f, r, NumberText(n)) && ReadAll(r, NumberText(n)).open == r.open
    ensures Plain(NumberText(n)[0]) && Plain(NumberText(n)[|NumberText(n)| - 1])
  {
    hide Decimal, DigitsValue, OnePiece, ReadAll;
    DecimalDigits(if n < 0 then -n else n);
    var t := NumberText(n);
    assert forall k :: 0 <= k < |t| ==> Plain(t[k]);
    PlainLaid(f, r, t);
  }

  /** The byte ends a value or a name. */
  predicate EndsValue(c: Byte) {
    !Opens(c) && c != COMMA && c != COLON
  }

  /** A token that is no closing bracket. */
  lemma TokenLaid(f: Format, r: Reader, e: Event)
    requires f.Pretty? && r.place == Outside && !e.EndObject? && !e.EndArray?
    ensures var t := Token(e);
            && OnePiece(f, r, t) && !Closes(t[0]) && t[0] != COMMA && t[0] != COLON
            && ReadAll(r, t).open == (if e.StartObject? then r.open + [OPEN_OBJECT]
                                      else if e.StartArray? then r.open + [OPEN_ARRAY]
                                      else r.open)
            && (if e.StartObject? || e.StartArray? then Opens(t[|t| - 1]) else EndsValue(t[|t| - 1]))
  {
    hide OnePiece, ReadAll, Gap, AllEscaped, NumberText;
    match e
    case StringEvent(s) => QuotedLaid(f, r, s);
    case KeyEvent(s) => QuotedLaid(f, r, s);
    case NumberEvent(_, n) => NumberLaid(f, r, n);
    case StartObject => BracketLaid(f, r, OPEN_OBJECT);
    case StartArray => BracketLaid(f, r, OPEN_ARRAY);
    case _ => PlainLaid(f, r, Token(e));
  }

  lemma BracketLaid(f: Format, r: Reader, c: Byte)
    requires f.Pretty? && r.place == Outside && (Opens(c) || Closes(c))
    ensures OnePiece(f, r, [c]) && ReadAll(r, [c]) == Read(r, c)
  {
    hide Gap;
    var gap := Gap(f, r.open, r.last, c);
    assert Layout(f, r, [c]) == gap + [c] + [] == gap + [c];
    assert ReadAll(r, [c]) == Read(r, c);
  }

  // ---- separators -------------------------------------------------------------------------------------------------

  function Bracket(level: Level): (c: Byte) {
    if level.inArray then OPEN_ARRAY else OPEN_OBJECT
  }

  /** The reader has the levels of the writer open, and has just read a bracket if nothing is in the innermost one. */
  predicate InStep(r: Reader, levels: seq<Level>) {
    && r.place == Outside && |r.open| == |levels|
    && (forall i :: 0 <= i < |levels| ==> r.open[i] == Bracket(levels[i]))
    && (forall i :: 0 <= i < |levels| - 1 ==> levels[i].valueCount > 0)
    && (levels != [] ==> if levels[|levels| - 1].valueCount == 0 then Opens(r.last) else EndsValue(r.last))
  }

  lemma BreakIs(f: Format, levels: nat)
    requires f.Pretty?
    ensures NewLine(f, levels) == Break(f, levels)
  {
  }

  /** What is put before a value: the separator of the compact text, and the gap between it and the value. */
  lemma LeadLaid(f: Format, r: Reader, levels: seq<Level>, c: Byte)
    requires f.Pretty? && InStep(r, levels) && levels != [] && !Closes(c) && c != COMMA && c != COLON
    ensures var level := levels[|levels| - 1];
            var sep := Lead(Compact, |levels|, level);
            var q := ReadAll(r, sep);
            && Layout(f, r, sep) + Gap(f, q.open, q.last, c) == Lead(f, |levels|, level)
            && q.place == Outside && q.open == r.open
  {
    hide NewLine, Break;
    BreakIs(f, |levels|);
    var level := levels[|levels| - 1];
    var sep := Lead(Compact, |levels|, level);
    if sep != [] {
      SeparatorLaid(f, r, sep[0]);
      assert sep == [sep[0]];
    }
  }

  lemma SeparatorLaid(f: Format, r: Reader, c: Byte)
    requires f.Pretty? && r.place == Outside && EndsValue(r.last) && (c == COMMA || c == COLON)
    ensures Layout(f, r, [c]) == [c] && ReadAll(r, [c]) == Reader(Outside, r.open, c)
  {
  }

  lemma CloseLaid(f: Format, r: Reader, levels: seq<Level>, c: Byte)
    requires f.Pretty? && InStep(r, levels) && levels != [] && Closes(c)
    ensures Gap(f, r.open, r.last, c) == Close(f, |levels| - 1, levels[|levels| - 1])
  {
    hide NewLine, Break;
    BreakIs(f, |levels| - 1);
  }

  // ---- runs -------------------------------------------------------------------------------------------------------

  /** A pretty and a compact writer that have seen the same events. */
  predicate LaidAlike(f: Format, p: State, c: State)
    requires f.Pretty?
  {
    && p.levels == c.levels && p.hasRoot == c.hasRoot
    && InStep(ReadAll(START, c.out), c.levels) && p.out == Layout(f, START, c.out)
    && (!c.hasRoot ==> c.levels == [] && c.out == [])
  }

  /** Text appended to both, of which the reader makes q. */
  lemma Appended(f: Format, p: seq<Byte>, c: seq<Byte>, more: seq<Byte>)
    requires f.Pretty? && p == Layout(f, START, c)
    ensures Layout(f, START, c + more) == p + Layout(f, ReadAll(START, c), more)
    ensures ReadAll(START, c + more) == ReadAll(ReadAll(START, c), more)
  {
    LayoutAppend(f, START, c, more);
  }

  /** A value or a name within a level. */
  lemma ValueLaid(f: Format, p: State, c: State, e: Event)
    requires f.Pretty? && LaidAlike(f, p, c) && !e.EndObject? && !e.EndArray? && c.levels != []
    ensures LaidAlike(f, State(Prefixed(f, p).out + Token(e), Opened(Counted(p.levels), e), p.hasRoot),
                      State(Prefixed(Compact, c).out + Token(e), Opened(Counted(c.levels), e), c.hasRoot))
  {
    hide Layout, ReadAll, Lead, Token, Gap, OnePiece, InStep, EndsValue, Counted, Opened, Opens, Closes;
    var r := ReadAll(START, c.out);
    var t := Token(e);
    var sep := Lead(Compact, |c.levels|, c.levels[|c.levels| - 1]);
    var q := ReadAll(r, sep);
    OutsideThen(r, c.levels);
    TokenLaid(f, r, e);
    TokenBehind(f, r, t);
    LeadLaid(f, r, c.levels, t[0]);
    TokenLaid(f, q, e);
    TokenBehind(f, q, t);
    Appended(f, p.out, c.out, sep);
    Appended(f, p.out + Layout(f, r, sep), c.out + sep, t);
    assert p.out + Layout(f, r, sep) + (Gap(f, q.open, q.last, t[0]) + t)
        == p.out + (Layout(f, r, sep) + Gap(f, q.open, q.last, t[0])) + t;
    StaysInStep(r, c.levels, ReadAll(q, t), e);
  }

  lemma OutsideThen(r: Reader, levels: seq<Level>)
    requires InStep(r, levels)
    ensures r.place == Outside
  {
  }

  lemma StaysInStep(r: Reader, levels: seq<Level>, q: Reader, e: Event)
    requires InStep(r, levels) && levels != [] && q.place == Outside
    requires q.open == (if e.StartObject? then r.open + [OPEN_OBJECT]
                        else if e.StartArray? then r.open + [OPEN_ARRAY]
                        else r.open)
    requires if e.StartObject? || e.StartArray? then Opens(q.last) else EndsValue(q.last)
    ensures InStep(q, Opened(Counted(levels), e))
  {
    hide EndsValue, Opens;
  }

  lemma TokenBehind(f: Format, q: Reader, t: seq<Byte>)
    requires f.Pretty? && OnePiece(f, q, t)
    ensures t != [] && Layout(f, q, t) == Gap(f, q.open, q.last, t[0]) + t
    ensures ReadAll(q, t).place == Outside && ReadAll(q, t).last == t[|t| - 1]
  {
  }

  /** The root stands at the start of the text. */
  lemma RootLaid(f: Format, e: Event)
    requires f.Pretty? && !e.EndObject? && !e.EndArray?
    ensures LaidAlike(f, State([] + Token(e), Opened([], e), true), State([] + Token(e), Opened([], e), true))
  {
    hide Layout, ReadAll, Token, OnePiece, EndsValue;
    TokenLaid(f, START, e);
    TokenBehind(f, START, Token(e));
    assert [] + Token(e) == Token(e);
  }

  lemma EndLaid(f: Format, p: State, c: State, e: Event)
    requires f.Pretty? && LaidAlike(f, p, c) && (e.EndObject? || e.EndArray?) && c.levels != []
    ensures LaidAlike(f, Ended(f, p, e), Ended(Compact, c, e))
  {
    hide Layout, ReadAll, Close, Gap, OnePiece, InStep, Read;
    var r := ReadAll(START, c.out);
    var t := Token(e);
    var n := |c.levels| - 1;
    OutsideThen(r, c.levels);
    BracketLaid(f, r, t[0]);
    assert t == [t[0]];
    TokenBehind(f, r, t);
    CloseLaid(f, r, c.levels, t[0]);
    ClosedInStep(r, c.levels, t[0]);
    assert Close(Compact, n, c.levels[n]) == [] by { CloseCompact(n, c.levels[n]); }
    assert [] + t == t;
    Appended(f, p.out, c.out, t);
  }

  lemma CloseCompact(depth: nat, level: Level)
    ensures Close(Compact, depth, level) == []
  {
  }

  lemma ClosedInStep(r: Reader, levels: seq<Level>, c: Byte)
    requires InStep(r, levels) && levels != [] && Closes(c)
    ensures InStep(Read(r, c), levels[..|levels| - 1])
  {
  }

  lemma StepLaid(f: Format, p: State, c: State, e: Event)
    requires f.Pretty? && LaidAlike(f, p, c) && Step(f, p, e).Some?
    ensures Step(Compact, c, e).Some? && LaidAlike(f, Step(f, p, e).value, Step(Compact, c, e).value)
  {
    hide LaidAlike, Token, Lead, Close, Counted;
    SameLevels(f, p, c);
    if e.EndObject? || e.EndArray? {
      EndLaid(f, p, c, e);
    } else if c.levels == [] {
      RootLaid(f, e);
    } else {
      ValueLaid(f, p, c, e);
    }
  }

  lemma SameLevels(f: Format, p: State, c: State)
    requires f.Pretty? && LaidAlike(f, p, c)
    ensures p.levels == c.levels && p.hasRoot == c.hasRoot
    ensures !c.hasRoot ==> c.levels == [] && c.out == [] && p.out == []
  {
  }

  lemma {:induction false} RunLaid(f: Format, p: State, c: State, es: seq<Event>)
    requires f.Pretty? && LaidAlike(f, p, c) && Run(f, p, es).Some?
    ensures Run(Compact, c, es).Some? && LaidAlike(f, Run(f, p, es).value, Run(Compact, c, es).value)
    decreases es
  {
    hide Step, LaidAlike;
    if es != [] {
      StepLaid(f, p, c, es[0]);
      RunLaid(f, Step(f, p, es[0]).value, Step(Compact, c, es[0]).value, es[1..]);
    }
  }

  /** For every sequence of events: what PrettyWriter has put is what Writer has put, laid out by the rule. */
  lemma PrettyIsLaidOut(f: Format, es: seq<Event>)
    requires f.Pretty?
    ensures Run(f, INIT, es).Some? ==>
              && Run(Compact, INIT, es).Some?
              && Run(f, INIT, es).value.out == Layout(f, START, Run(Compact, INIT, es).value.out)
  {
    hide Run, Layout;
    if Run(f, INIT, es).Some? {
      assert LaidAlike(f, INIT, INIT) by { NothingLaid(f); }
      RunLaid(f, INIT, INIT, es);
      AlikeMeans(f, Run(f, INIT, es).value, Run(Compact, INIT, es).value);
    }
  }

  lemma NothingLaid(f: Format)
    requires f.Pretty?
    ensures LaidAlike(f, INIT, INIT)
  {
  }

  lemma AlikeMeans(f: Format, p: State, c: State)
    requires f.Pretty? && LaidAlike(f, p, c)
    ensures p.out == Layout(f, START, c.out)
  {
  }

  /** The same for the text of a value. */
  lemma TextIsLaidOut(f: Format, v: Value)
    requires f.Pretty?
    ensures Text(f, 0, v) == Layout(f, START, Text(Compact, 0, v))
  {
    hide Layout, Text;
    AcceptWrites(f, Accept, INIT, v);
    AcceptWrites(Compact, Accept, INIT, v);
    PrettyIsLaidOut(f, Events(Accept, v));
    assert INIT.out + Text(f, 0, v) == Text(f, 0, v) && INIT.out + Text(Compact, 0, v) == Text(Compact, 0, v);
  }
}
