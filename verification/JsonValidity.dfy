/**
 * Which texts a completed writer leaves are JSON: exactly those of runs that close no object right after a member name.
 */
module JsonValidity {
  import opened ByteStreams
  import opened JsonLanguage
  import opened JsonReader
  import opened JsonRoundTrip
  import opened JsonStrip
  import opened JsonText
  import opened JsonValue
  import opened JsonWriterSpec
  import opened Wrappers

  // ---- the text of a value under construction ---------------------------------------------------------------------

  /** What has been put of a frame when depth levels are open, its own included. */
  function FrameText(f: Format, depth: nat, fr: Frame): (s: seq<Byte>) {
    match fr
    case ArrayFrame(vs) => [OPEN_ARRAY] + ElementTexts(f, depth, vs, 0)
    case ObjectFrame(ms, None) => [OPEN_OBJECT] + MemberTexts(f, depth, ms, 0)
    case ObjectFrame(ms, Some(name)) => [OPEN_OBJECT] + MemberTexts(f, depth, ms, 0) + NameText(f, depth, |ms|, name)
  }

  /** The name of member number count. */
  function NameText(f: Format, depth: nat, count: nat, name: seq<Byte>): (s: seq<Byte>) {
    Lead(f, depth, Level(false, 2 * count)) + Quoted(name)
  }

  function OpenText(f: Format, frames: seq<Frame>): (s: seq<Byte>)
    decreases |frames|, 0
  {
    if frames == [] then []
    else var n := |frames| - 1; LeadIn(f, frames[..n]) + FrameText(f, n + 1, frames[n])
  }

  /** The same with the separator in front of the next value. */
  function LeadIn(f: Format, frames: seq<Frame>): (s: seq<Byte>)
    decreases |frames|, 1
  {
    if frames == [] then []
    else OpenText(f, frames) + Lead(f, |frames|, FrameLevel(frames[|frames| - 1]))
  }

  /** All frames await a value. */
  predicate AllAwait(frames: seq<Frame>) {
    forall i :: 0 <= i < |frames| ==> Awaits(frames[i])
  }

  function OpenLevels(frames: seq<Frame>): (levels: seq<Level>)
    ensures |levels| == |frames|
  {
    seq(|frames|, i requires 0 <= i < |frames| =>
      if i == |frames| - 1 then FrameLevel(frames[i]) else Raised(FrameLevel(frames[i])))
  }

  lemma FrameRuns(f: Format, s: State, fr: Frame)
    requires TakesValue(s)
    ensures var p := Prefixed(f, s);
            Run(f, s, FrameEvents(fr))
            == Some(State(p.out + FrameText(f, |s.levels| + 1, fr), p.levels + [FrameLevel(fr)], p.hasRoot))
  {
    hide Run, Lead, Prefixed, ElementTexts, MemberTexts, ElementEvents, MemberEvents, Quoted, Grown;
    var start := if fr.ArrayFrame? then StartArray else StartObject;
    Opens(f, s, start);
    RunOne(f, s, start);
    var t := Step(f, s, start).value;
    match fr
    case ArrayFrame(vs) =>
      var es := ElementEvents(Accept, vs);
      AcceptElements(f, Accept, t, vs);
      RunSeesCanon(f, t, es);
      RunAppend(f, s, [start], CanonAll(es));
      GrownStart(f, s, start, ElementTexts(f, |t.levels|, vs, 0), |vs|);
    case ObjectFrame(ms, name) =>
      var es := MemberEvents(Accept, ms);
      AcceptMembers(f, Accept, t, ms, 0);
      RunSeesCanon(f, t, es);
      RunAppend(f, s, [start], CanonAll(es));
      var text := MemberTexts(f, |t.levels|, ms, 0);
      if name.Some? {
        NameRuns(f, Grown(t, text, 2 * |ms|), name.value, |ms|);
        RunAppend(f, s, [start] + CanonAll(es), [StringEvent(name.value)]);
        GrownTwice(t, text, 2 * |ms|, NameText(f, |t.levels|, |ms|, name.value), 1);
        GrownStart(f, s, start, text + NameText(f, |t.levels|, |ms|, name.value), 2 * |ms| + 1);
        assert FrameText(f, |t.levels|, fr) == [OPEN_OBJECT] + (text + NameText(f, |t.levels|, |ms|, name.value));
      } else {
        assert [start] + CanonAll(es) + [] == [start] + CanonAll(es);
        GrownStart(f, s, start, text, 2 * |ms|);
      }
  }

  lemma NameRuns(f: Format, s: State, name: seq<Byte>, count: nat)
    requires s.levels != [] && Top(s) == Level(false, 2 * count)
    ensures Run(f, s, [StringEvent(name)]) == Some(Grown(s, NameText(f, |s.levels|, count, name), 1))
  {
    hide Run, Lead, Quoted;
    KeyWrites(f, s, name);
    RunSeesCanon(f, s, [KeyEvent(name)]);
    assert CanonAll([KeyEvent(name)]) == [StringEvent(name)];
  }

  /** A level that has been opened and has grown. */
  lemma GrownStart(f: Format, s: State, e: Event, text: seq<Byte>, values: nat)
    requires TakesValue(s) && (e.StartArray? || e.StartObject?)
    ensures var p := Prefixed(f, s);
            Grown(Step(f, s, e).value, text, values)
            == State(p.out + (Token(e) + text), p.levels + [Level(e.StartArray?, values)], p.hasRoot)
  {
    hide Prefixed;
  }

  /** The events of open frames make the writer put their text. */
  lemma {:induction false} OpenRuns(f: Format, frames: seq<Frame>)
    requires frames != [] ==> AllAwait(frames[..|frames| - 1])
    ensures Run(f, INIT, OpenEvents(frames)) == Some(State(OpenText(f, frames), OpenLevels(frames), frames != []))
    decreases |frames|
  {
    hide FrameText, FrameEvents, FrameLevel, Lead, Run, TakesValue, Prefixed, OpenLevels, LeadIn, Counted;
    if frames == [] {
      NothingRuns(f);
    } else {
      var n := |frames| - 1;
      var front := frames[..n];
      OpenRuns(f, front);
      var s := State(OpenText(f, front), OpenLevels(front), front != []);
      OpenTakesValue(f, front);
      LevelsNest(frames);
      FrameRuns(f, s, frames[n]);
      RunAppend(f, INIT, OpenEvents(front), FrameEvents(frames[n]));
    }
  }

  lemma NothingRuns(f: Format)
    ensures Run(f, INIT, []) == Some(State([], OpenLevels([]), false))
  {
  }

  lemma OpenTakesValue(f: Format, front: seq<Frame>)
    requires AllAwait(front)
    ensures var s := State(OpenText(f, front), OpenLevels(front), front != []);
            TakesValue(s) && Prefixed(f, s) == State(LeadIn(f, front), Counted(OpenLevels(front)), true)
  {
    hide Lead, FrameText;
    if front != [] {
      hide OpenText;
      assert Awaits(front[|front| - 1]);
    }
  }

  lemma LevelsNest(frames: seq<Frame>)
    requires frames != []
    ensures var n := |frames| - 1;
            Counted(OpenLevels(frames[..n])) + [FrameLevel(frames[n])] == OpenLevels(frames)
  {
  }

  // ---- reading it -------------------------------------------------------------------------------------------------

  /** The parser fails on s, not for being at the end of an array. */
  predicate Unreadable(s: seq<Byte>) {
    Starts(s) && ReadValue(s) == None
  }

  lemma CommaLead(f: Format, depth: nat, level: Level, tail: seq<Byte>)
    requires f.Valid() && tail != [] && !Whitespace(tail[0])
    ensures var s := Lead(f, depth, level) + tail;
            if level.valueCount == 0 then SkipSpaces(s) == tail
            else s != [] && SkipSpaces(s) == s && SkipSpaces(s[1..]) == tail
                 && s[0] == if level.inArray || level.valueCount % 2 == 0 then COMMA else COLON
  {
    hide Lead;
    var blank := LeadShape(f, depth, level);
    var s := Lead(f, depth, level) + tail;
    SkipBlank(blank, tail);
    if level.valueCount == 0 {
      assert s == blank + tail;
    } else {
      assert s[1..] == blank + tail;
    }
  }

  lemma {:induction false} ElementsUnread(f: Format, depth: nat, vs: seq<Value>, count: nat, tail: seq<Byte>)
    requires f.Valid() && vs != [] && Unreadable(tail)
    ensures var close := Lead(f, depth, Level(true, count + |vs|)) + tail;
            ReadElements(Text(f, depth, vs[0]) + ElementsTail(f, depth, vs[1..], count + 1, close), count) == None
    decreases vs
  {
    hide Text, Lead, ReadValue, SkipSpaces, Events;
    var close := Lead(f, depth, Level(true, count + |vs|)) + tail;
    var more := ElementsTail(f, depth, vs[1..], count + 1, close);
    if |vs| == 1 {
      assert more == close;
      CommaLead(f, depth, Level(true, count + |vs|), tail);
    } else {
      NextElement(f, depth, vs[1..], count + 1, close);
      ElementsUnread(f, depth, vs[1..], count + 1, tail);
    }
    ReadValueOfText(f, depth, vs[0], more);
  }

  lemma ArrayUnread(f: Format, depth: nat, vs: seq<Value>, tail: seq<Byte>)
    requires f.Valid() && Unreadable(tail)
    ensures Unreadable([OPEN_ARRAY] + ElementTexts(f, depth, vs, 0) + Lead(f, depth, Level(true, |vs|)) + tail)
  {
    hide Text, Lead, ElementTexts, SkipSpaces, ReadElements;
    var close := Lead(f, depth, Level(true, |vs|)) + tail;
    var more := ElementsTail(f, depth, vs, 0, close);
    assert [OPEN_ARRAY] + ElementTexts(f, depth, vs, 0) + Lead(f, depth, Level(true, |vs|)) + tail
        == [OPEN_ARRAY] + more;
    assert ([OPEN_ARRAY] + more)[1..] == more;
    if vs == [] {
      NoElementTexts(f, depth);
      assert more == close;
      CommaLead(f, depth, Level(true, 0), tail);
      NoElementRead(tail);
    } else {
      NextElement(f, depth, vs, 0, close);
      TextStarts(f, depth, vs[0], ElementsTail(f, depth, vs[1..], 1, close));
      ElementsUnread(f, depth, vs, 0, tail);
    }
  }

  lemma NoElementTexts(f: Format, depth: nat)
    ensures ElementTexts(f, depth, [], 0) == [] && MemberTexts(f, depth, [], 0) == []
  {
  }

  lemma NoElementRead(s: seq<Byte>)
    requires ReadValue(s) == None
    ensures ReadElements(s, 0) == None
  {
    hide ReadValue;
  }

  /** What follows a member name is no value behind a colon. */
  predicate NameFails(s: seq<Byte>) {
    var t := SkipSpaces(s);
    Peek(t, 0) != COLON || ReadValue(SkipSpaces(t[1..])) == None
  }

  lemma NameUnread(name: seq<Byte>, s: seq<Byte>, count: nat)
    requires NameFails(s)
    ensures ReadMembers(Quoted(name) + s, count) == None
  {
    hide ReadString, ReadValue, AllEscaped;
    ReadStringOfEscapes(name, s);
    assert (Quoted(name) + s)[1..] == AllEscaped(name) + [QUOTE] + s;
  }

  lemma {:induction false} MembersUnread(f: Format, depth: nat, ms: seq<Member>, count: nat, name: seq<Byte>,
                                         s: seq<Byte>)
    requires f.Valid() && NameFails(s)
    ensures var close := NameText(f, depth, count + |ms|, name) + s;
            ReadMembers(if ms == [] then Quoted(name) + s
                        else MemberThen(f, depth, ms[0], count, MembersTail(f, depth, ms[1..], count + 1, close)),
                        count) == None
    decreases ms
  {
    hide Text, Lead, ReadValue, SkipSpaces, Events, MemberThen, MembersTail, NameFails, Quoted, ReadString, NameText;
    if ms == [] {
      NameUnread(name, s, count);
    } else {
      var close := NameText(f, depth, count + |ms|, name) + s;
      var more := MembersTail(f, depth, ms[1..], count + 1, close);
      if |ms| == 1 {
        NoMembersTail(f, depth, ms[1..], count + 1, close);
        CloseByName(f, depth, count + 1, name, s);
      } else {
        NextMember(f, depth, ms[1..], count + 1, close);
      }
      MembersUnread(f, depth, ms[1..], count + 1, name, s);
      MemberRead(f, depth, ms[0], count, more);
    }
  }

  lemma NoMembersTail(f: Format, depth: nat, ms: seq<Member>, count: nat, close: seq<Byte>)
    requires ms == []
    ensures MembersTail(f, depth, ms, count, close) == close
  {
  }

  /** A member and the comma behind it are read, and the next name is at fault. */
  lemma MemberRead(f: Format, depth: nat, m: Member, count: nat, more: seq<Byte>)
    requires f.Valid() && more != [] && more[0] == COMMA && SkipSpaces(more) == more
    requires ReadMembers(SkipSpaces(more[1..]), count + 1) == None
    ensures ReadMembers(MemberThen(f, depth, m, count, more), count) == None
  {
    hide Text, ReadValue, SkipSpaces, Events, MemberThen, ReadString;
    ReadNameOfText(f, depth, m, count, more);
    ReadValueOfText(f, depth, m.value, more);
  }

  lemma CloseByName(f: Format, depth: nat, count: nat, name: seq<Byte>, s: seq<Byte>)
    requires f.Valid()
    ensures var close := NameText(f, depth, count, name) + s;
            var next := Quoted(name) + s;
            next[0] == QUOTE
            && if count == 0 then SkipSpaces(close) == next
               else close != [] && close[0] == COMMA && SkipSpaces(close) == close && SkipSpaces(close[1..]) == next
  {
    hide Lead, AllEscaped;
    CommaLead(f, depth, Level(false, 2 * count), Quoted(name) + s);
    assert NameText(f, depth, count, name) + s == Lead(f, depth, Level(false, 2 * count)) + (Quoted(name) + s);
  }

  lemma ObjectUnread(f: Format, depth: nat, ms: seq<Member>, name: seq<Byte>, s: seq<Byte>)
    requires f.Valid() && NameFails(s)
    ensures Unreadable([OPEN_OBJECT] + MemberTexts(f, depth, ms, 0) + NameText(f, depth, |ms|, name) + s)
  {
    hide MemberTexts, NameText, MemberThen, SkipSpaces, ReadMembers, Quoted, NameFails;
    var close := NameText(f, depth, |ms|, name) + s;
    var more := MembersTail(f, depth, ms, 0, close);
    assert [OPEN_OBJECT] + MemberTexts(f, depth, ms, 0) + NameText(f, depth, |ms|, name) + s == [OPEN_OBJECT] + more;
    assert ([OPEN_OBJECT] + more)[1..] == more;
    if ms == [] {
      NoElementTexts(f, depth);
      assert more == close;
      CloseByName(f, depth, 0, name, s);
    } else {
      NextMember(f, depth, ms, 0, close);
    }
    MembersUnread(f, depth, ms, 0, name, s);
  }

  /** A frame around something unreadable is unreadable. */
  lemma FrameUnread(f: Format, depth: nat, fr: Frame, tail: seq<Byte>)
    requires f.Valid() && Awaits(fr) && Unreadable(tail)
    ensures Unreadable(FrameText(f, depth, fr) + Lead(f, depth, FrameLevel(fr)) + tail)
  {
    hide Lead, ElementTexts, MemberTexts, NameText, ReadValue, SkipSpaces;
    match fr
    case ArrayFrame(vs) =>
      ArrayUnread(f, depth, vs, tail);
    case ObjectFrame(ms, Some(name)) =>
      var s := Lead(f, depth, FrameLevel(fr)) + tail;
      CommaLead(f, depth, FrameLevel(fr), tail);
      ObjectUnread(f, depth, ms, name, s);
      assert FrameText(f, depth, fr) + Lead(f, depth, FrameLevel(fr)) + tail == FrameText(f, depth, fr) + s;
  }

  lemma {:induction false} FramesUnread(f: Format, frames: seq<Frame>, tail: seq<Byte>)
    requires f.Valid() && AllAwait(frames) && Unreadable(tail)
    ensures Unreadable(LeadIn(f, frames) + tail)
    decreases |frames|
  {
    hide FrameText, Lead, Unreadable, LeadIn, AllAwait, Awaits, FrameLevel;
    if frames == [] {
      NoLeadIn(f);
      assert [] + tail == tail;
    } else {
      var n := |frames| - 1;
      AwaitsEach(frames);
      FrameUnread(f, n + 1, frames[n], tail);
      FramesUnread(f, frames[..n], FrameText(f, n + 1, frames[n]) + Lead(f, n + 1, FrameLevel(frames[n])) + tail);
      LeadInIs(f, frames, tail);
    }
  }

  lemma NoLeadIn(f: Format)
    ensures LeadIn(f, []) == []
  {
  }

  lemma AwaitsEach(frames: seq<Frame>)
    requires frames != [] && AllAwait(frames)
    ensures Awaits(frames[|frames| - 1]) && AllAwait(frames[..|frames| - 1])
  {
  }

  lemma LeadInIs(f: Format, frames: seq<Frame>, tail: seq<Byte>)
    requires frames != []
    ensures var n := |frames| - 1;
            LeadIn(f, frames) + tail
            == LeadIn(f, frames[..n]) + (FrameText(f, n + 1, frames[n]) + Lead(f, n + 1, FrameLevel(frames[n])) + tail)
  {
    hide FrameText, Lead, FrameLevel;
    var n := |frames| - 1;
    Regroup(LeadIn(f, frames[..n]), FrameText(f, n + 1, frames[n]), Lead(f, n + 1, FrameLevel(frames[n])), tail);
  }

  lemma Regroup(a: seq<Byte>, b: seq<Byte>, c: seq<Byte>, d: seq<Byte>)
    ensures ((a + b) + c) + d == a + (b + c + d)
  {
  }

  /** An object closed right after a name: whatever follows, the parser fails. */
  lemma DanglingUnread(f: Format, frames: seq<Frame>, close: seq<Byte>, rest: seq<Byte>)
    requires f.Valid() && frames != [] && AllAwait(frames) && frames[|frames| - 1].ObjectFrame? && Blank(close)
    ensures Unreadable(OpenText(f, frames) + (close + [CLOSE_OBJECT] + rest))
  {
    hide *;
    var n := |frames| - 1;
    var fr, s := frames[n], close + [CLOSE_OBJECT] + rest;
    assert fr.name.Some? by { LastAwaits(frames); }
    BraceFails(close, rest);
    ObjectUnread(f, n + 1, fr.members, fr.name.value, s);
    DanglingFrameText(f, n + 1, fr);
    AwaitsEach(frames);
    FramesUnread(f, frames[..n], FrameText(f, n + 1, fr) + s);
    OpenTextIs(f, frames, s);
  }

  lemma LastAwaits(frames: seq<Frame>)
    requires frames != [] && AllAwait(frames) && frames[|frames| - 1].ObjectFrame?
    ensures frames[|frames| - 1].name.Some?
  {
    AwaitsEach(frames);
  }

  lemma BraceFails(close: seq<Byte>, rest: seq<Byte>)
    requires Blank(close)
    ensures NameFails(close + [CLOSE_OBJECT] + rest)
  {
    hide ReadValue;
    assert close + [CLOSE_OBJECT] + rest == close + ([CLOSE_OBJECT] + rest);
    SkipBlank(close, [CLOSE_OBJECT] + rest);
  }

  lemma OpenTextIs(f: Format, frames: seq<Frame>, s: seq<Byte>)
    requires frames != []
    ensures var n := |frames| - 1;
            OpenText(f, frames) + s == LeadIn(f, frames[..n]) + (FrameText(f, n + 1, frames[n]) + s)
  {
    hide LeadIn, FrameText;
  }

  lemma DanglingFrameText(f: Format, depth: nat, fr: Frame)
    requires fr.ObjectFrame? && fr.name.Some?
    ensures FrameText(f, depth, fr)
         == [OPEN_OBJECT] + MemberTexts(f, depth, fr.members, 0) + NameText(f, depth, |fr.members|, fr.name.value)
  {
  }

  // ---- where a run goes wrong -------------------------------------------------------------------------------------

  /** The events before the first object that is closed after a name. */
  lemma {:induction false} FirstDangling(s: State, es: seq<Event>) returns (k: nat)
    requires Run(Compact, s, es).Some? && !Paired(s, es)
    ensures k < |es| && es[k].EndObject? && Run(Compact, s, es[..k]).Some? && Paired(s, es[..k])
    ensures var t := Run(Compact, s, es[..k]).value;
            t.levels != [] && !Top(t).inArray && Top(t).valueCount % 2 == 1
    decreases es
  {
    k := 0;
    if !(es[0].EndObject? && Top(s).valueCount % 2 == 1) {
      k := FirstDangling(Step(Compact, s, es[0]).value, es[1..]);
      k := k + 1;
      assert es[..k][0] == es[0] && es[..k][1..] == es[1..][..k - 1];
    }
  }

  lemma {:induction false} OutputGrows(f: Format, s: State, es: seq<Event>)
    requires Run(f, s, es).Some?
    ensures s.out <= Run(f, s, es).value.out
    decreases es
  {
    hide Lead, Token, Close;
    if es != [] {
      OutputGrows(f, Step(f, s, es[0]).value, es[1..]);
    }
  }

  /** At such a point the writer has put the text of the frames that are open. */
  lemma DanglingAt(f: Format, es: seq<Event>, k: nat) returns (frames: seq<Frame>)
    requires f.Valid() && k <= |es| && Run(f, INIT, es).Some? && Run(Compact, INIT, es[..k]).Some?
    requires Paired(INIT, es[..k])
    requires var t := Run(Compact, INIT, es[..k]).value;
             t.levels != [] && !Top(t).inArray && Top(t).valueCount % 2 == 1
    ensures frames != [] && AllAwait(frames) && frames[|frames| - 1].ObjectFrame?
    ensures Run(f, INIT, es[..k]) == Some(State(OpenText(f, frames), OpenLevels(frames), true))
  {
    hide Run, Paired, OpenText, OpenLevels, CanonAll, FrameEvents;
    var b := RunBuilds(INIT, Built([], None), es[..k]);
    frames := b.frames;
    assert Seen(b) == OpenEvents(frames) + [] == OpenEvents(frames);
    assert Seen(Built([], None)) + CanonAll(es[..k]) == CanonAll(es[..k]);
    RunSeesCanon(f, INIT, es[..k]);
    OpenRuns(f, frames);
  }

  lemma SameRun(f: Format, es: seq<Event>)
    requires f.Valid()
    ensures Run(f, INIT, es).Some? <==> Run(Compact, INIT, es).Some?
  {
    PrettyIsCompact(f, INIT, INIT, es);
  }

  /** A run that closes an object right after a name leaves a text no parser of JSON accepts. */
  lemma UnpairedIsUnread(f: Format, es: seq<Event>)
    requires f.Valid() && Run(f, INIT, es).Some? && !Paired(INIT, es)
    ensures ReadDocument(Run(f, INIT, es).value.out) == None
  {
    hide *;
    assert Run(Compact, INIT, es).Some? by { SameRun(f, es); }
    var k := FirstDangling(INIT, es);
    var frames := DanglingAt(f, es, k);
    var close, rest := DanglingText(f, es, k, frames);
    DanglingUnread(f, frames, close, rest);
    UnreadableDocument(Run(f, INIT, es).value.out);
  }

  /** What has been put behind the open frames by the time the run ends. */
  lemma DanglingText(f: Format, es: seq<Event>, k: nat, frames: seq<Frame>) returns (close: seq<Byte>, rest: seq<Byte>)
    requires f.Valid() && Run(f, INIT, es).Some? && k < |es| && es[k].EndObject? && frames != []
    requires Run(f, INIT, es[..k]) == Some(State(OpenText(f, frames), OpenLevels(frames), true))
    ensures Blank(close) && Run(f, INIT, es).value.out == OpenText(f, frames) + (close + [CLOSE_OBJECT] + rest)
  {
    hide Run, OpenText, Close, Blank, Lead;
    var t, u := Run(f, INIT, es[..k]).value, es[k + 1..];
    assert es == es[..k] + ([es[k]] + u);
    RunAppend(f, INIT, es[..k], [es[k]] + u);
    RunAppend(f, t, [es[k]], u);
    RunOne(f, t, es[k]);
    var v := Step(f, t, es[k]).value;
    OutputGrows(f, v, u);
    var out := Run(f, INIT, es).value.out;
    close, rest := Close(f, |frames| - 1, Top(t)), out[|v.out|..];
    CloseIsBlank(f, |frames| - 1, Top(t));
    assert v.out == t.out + (close + [CLOSE_OBJECT]);
    assert out == t.out + (close + [CLOSE_OBJECT] + rest);
  }

  lemma UnreadableDocument(s: seq<Byte>)
    requires Unreadable(s)
    ensures ReadDocument(s) == None
  {
    hide ReadValue;
  }

  /**
   * The text a Writer or PrettyWriter leaves when it says that it is complete is JSON exactly when no object was closed
   * right after a member name. EndObject does not test that, so it is the only way to go wrong without an assertion.
   */
  lemma CompleteIsJson(f: Format, es: seq<Event>)
    requires f.Valid() && Run(f, INIT, es).Some? && Run(f, INIT, es).value.IsComplete()
    ensures ReadDocument(Run(f, INIT, es).value.out).Some? <==> Paired(INIT, es)
  {
    hide Run, Paired, ReadDocument, Text;
    if Paired(INIT, es) {
      PrettyIsCompact(f, INIT, INIT, es);
      WriterLanguage(es);
      var v :| Sends(es, v);
      RunSeesCanon(f, INIT, es);
      RunSeesCanon(f, INIT, Events(Accept, v));
      ParseOfWrite(f, v, [], []);
      assert [] + Run(f, INIT, es).value.out + [] == Run(f, INIT, es).value.out;
    } else {
      UnpairedIsUnread(f, es);
    }
  }

  /** The shortest of them: an object closed after its first name completes, and its text is not JSON. */
  lemma DanglingName(name: seq<Byte>)
    ensures var es := [StartObject, KeyEvent(name), EndObject(1)];
            Run(Compact, INIT, es) == Some(State([OPEN_OBJECT] + Quoted(name) + [CLOSE_OBJECT], [], true))
            && !Paired(INIT, es)
            && ReadDocument([OPEN_OBJECT] + Quoted(name) + [CLOSE_OBJECT]) == None
  {
    hide Quoted, Run;
    var es := [StartObject, KeyEvent(name), EndObject(1)];
    var s := Step(Compact, INIT, es[0]).value;
    var t := Step(Compact, s, es[1]).value;
    assert t.out == [OPEN_OBJECT] + Quoted(name) && t.levels == [Level(false, 1)];
    RunThree(INIT, es);
    assert [] + [CLOSE_OBJECT] == [CLOSE_OBJECT] && t.levels[..0] == [];
    UnpairedIsUnread(Compact, es);
  }

  lemma RunThree(s: State, es: seq<Event>)
    requires |es| == 3 && Step(Compact, s, es[0]).Some? && Step(Compact, Step(Compact, s, es[0]).value, es[1]).Some?
    ensures var u := Step(Compact, Step(Compact, s, es[0]).value, es[1]).value;
            Run(Compact, s, es) == Step(Compact, u, es[2])
            && (es[2].EndObject? && u.levels != [] && Top(u).valueCount % 2 == 1 ==> !Paired(s, es))
  {
    hide Step;
    var t := Step(Compact, s, es[0]).value;
    RunOne(Compact, Step(Compact, t, es[1]).value, es[2]);
    var u := Step(Compact, t, es[1]).value;
    assert es[1..][0] == es[1] && es[1..][1..] == [es[2]];
    assert Paired(u, [es[2]]) ==> es[2].EndObject? && u.levels != [] ==> Top(u).valueCount % 2 == 0;
    assert Paired(t, es[1..]) ==> Paired(u, [es[2]]);
  }
}
