/**
 * Which event sequences drive a Writer to completion: those of a value, and besides them only sequences that close an
 * object right after a member name, which EndObject does not check.
 */
module JsonLanguage {
  import opened ByteStreams
  import opened JsonText
  import opened JsonValue
  import opened JsonWriterSpec
  import opened Wrappers

  /** The writer tells neither names from strings, nor integer widths, nor the counts passed at the end of a level. */
  function Canon(e: Event): (r: Event) {
    match e
    case KeyEvent(s) => StringEvent(s)
    case NumberEvent(_, n) => NumberEvent(WidthOf(Accept, n), n)
    case EndObject(_) => EndObject(0)
    case EndArray(_) => EndArray(0)
    case _ => e
  }

  function CanonAll(es: seq<Event>): (r: seq<Event>)
    ensures |r| == |es| && forall i :: 0 <= i < |es| ==> r[i] == Canon(es[i])
  {
    seq(|es|, i requires 0 <= i < |es| => Canon(es[i]))
  }

  lemma CanonAppend(a: seq<Event>, b: seq<Event>)
    ensures CanonAll(a + b) == CanonAll(a) + CanonAll(b)
  {
  }

  lemma {:induction false} RunSeesCanon(f: Format, s: State, es: seq<Event>)
    ensures Run(f, s, CanonAll(es)) == Run(f, s, es)
    decreases es
  {
    if es != [] {
      assert Step(f, s, Canon(es[0])) == Step(f, s, es[0]);
      assert CanonAll(es)[1..] == CanonAll(es[1..]);
      if Step(f, s, es[0]).Some? {
        RunSeesCanon(f, Step(f, s, es[0]).value, es[1..]);
      }
    }
  }

  /** No object is closed while the value of a member is due. */
  predicate Paired(s: State, es: seq<Event>)
    decreases es
  {
    es == []
    || ((es[0].EndObject? && s.levels != [] ==> Top(s).valueCount % 2 == 0)
        && match Step(Compact, s, es[0]) case None => true case Some(t) => Paired(t, es[1..]))
  }

  lemma {:induction false} PairedSeesCanon(s: State, es: seq<Event>)
    ensures Paired(s, CanonAll(es)) <==> Paired(s, es)
    decreases es
  {
    if es != [] {
      assert Step(Compact, s, Canon(es[0])) == Step(Compact, s, es[0]);
      assert CanonAll(es)[1..] == CanonAll(es[1..]);
      if Step(Compact, s, es[0]).Some? {
        PairedSeesCanon(Step(Compact, s, es[0]).value, es[1..]);
      }
    }
  }

  lemma {:induction false} PairedAppend(s: State, a: seq<Event>, b: seq<Event>)
    requires Run(Compact, s, a).Some?
    ensures Paired(s, a + b) <==> Paired(s, a) && Paired(Run(Compact, s, a).value, b)
    decreases a
  {
    hide Step;
    if a == [] {
      assert a + b == b;
    } else {
      assert (a + b)[1..] == a[1..] + b;
      PairedAppend(Step(Compact, s, a[0]).value, a[1..], b);
    }
  }

  // ---- the events of a value are paired ---------------------------------------------------------------------------

  lemma {:induction false} ValueIsPaired(sender: Sender, s: State, v: Value)
    requires TakesValue(s)
    ensures Paired(s, Events(sender, v))
    decreases v
  {
    hide Run, Step, Events, ElementEvents, MemberEvents;
    EventsShape(sender, v);
    match v
    case Array(vs) =>
      Opens(Compact, s, StartArray);
      var t := Step(Compact, s, StartArray).value;
      ElementsArePaired(sender, t, vs);
      AcceptElements(Compact, sender, t, vs);
      BracketPaired(s, StartArray, ElementEvents(sender, vs), EndArray(|vs|));
    case Object(ms) =>
      Opens(Compact, s, StartObject);
      var t := Step(Compact, s, StartObject).value;
      MembersArePaired(sender, t, ms, 0);
      AcceptMembers(Compact, sender, t, ms, 0);
      BracketPaired(s, StartObject, MemberEvents(sender, ms), EndObject(|ms|));
    case _ =>
      OneIsPaired(s, Events(sender, v));
  }

  lemma OneIsPaired(s: State, es: seq<Event>)
    requires |es| == 1 && !es[0].EndObject?
    ensures Paired(s, es)
  {
  }

  lemma BracketPaired(s: State, open: Event, body: seq<Event>, close: Event)
    requires !open.EndObject? && Step(Compact, s, open).Some?
    requires var t := Step(Compact, s, open).value;
             Paired(t, body) && Run(Compact, t, body).Some?
             && (close.EndObject? ==>
                   var u := Run(Compact, t, body).value;
                   u.levels != [] && Top(u).valueCount % 2 == 0)
    ensures Paired(s, [open] + body + [close])
  {
    hide Step;
    RunOne(Compact, s, open);
    PairedAppend(s, [open], body + [close]);
    PairedAppend(Step(Compact, s, open).value, body, [close]);
    assert [open] + body + [close] == [open] + (body + [close]);
  }

  lemma {:induction false} ElementsArePaired(sender: Sender, s: State, vs: seq<Value>)
    requires s.levels != [] && Top(s).inArray
    ensures Paired(s, ElementEvents(sender, vs))
    decreases vs
  {
    hide Step, Run, Wrote, Grown, Events;
    if vs != [] {
      ValueIsPaired(sender, s, vs[0]);
      AcceptWrites(Compact, sender, s, vs[0]);
      WroteIsGrown(Compact, s, vs[0]);
      ElementsArePaired(sender, Wrote(Compact, s, vs[0]), vs[1..]);
      PairedAppend(s, Events(sender, vs[0]), ElementEvents(sender, vs[1..]));
    }
  }

  lemma {:induction false} MembersArePaired(sender: Sender, s: State, ms: seq<Member>, count: nat)
    requires s.levels != [] && Top(s) == Level(false, 2 * count)
    ensures Paired(s, MemberEvents(sender, ms))
    decreases ms
  {
    hide Step, Run, Wrote, Grown, Events, Lead, Quoted, Paired, Text;
    if ms == [] {
      NothingIsPaired(s);
    } else {
      var key, first, rest := [KeyEvent(ms[0].name)], Events(sender, ms[0].value), MemberEvents(sender, ms[1..]);
      KeyWrites(Compact, s, ms[0].name);
      var t := Run(Compact, s, key).value;
      OneIsPaired(s, key);
      ValueIsPaired(sender, t, ms[0].value);
      AcceptWrites(Compact, sender, t, ms[0].value);
      WroteIsGrown(Compact, t, ms[0].value);
      MembersArePaired(sender, Wrote(Compact, t, ms[0].value), ms[1..], count + 1);
      PairedAppend(t, first, rest);
      PairedAppend(s, key, first + rest);
      assert MemberEvents(sender, ms) == key + (first + rest);
    }
  }

  lemma NothingIsPaired(s: State)
    ensures Paired(s, [])
  {
  }

  // ---- a paired run builds a value --------------------------------------------------------------------------------

  /** A value under construction: the members of an object may end in a name without a value. */
  datatype Frame = ArrayFrame(elements: seq<Value>) | ObjectFrame(members: seq<Member>, name: Option<seq<Byte>>)

  predicate Awaits(fr: Frame) {
    fr.ArrayFrame? || fr.name.Some?
  }

  /** The frames are those of the open levels, the innermost last; the root is there once all are closed. */
  datatype Built = Built(frames: seq<Frame>, root: Option<Value>)

  function Extended(fr: Frame, v: Value): (r: Frame)
    requires Awaits(fr)
  {
    match fr
    case ArrayFrame(vs) => ArrayFrame(vs + [v])
    case ObjectFrame(ms, Some(name)) => ObjectFrame(ms + [Member(name, v)], None)
  }

  function FrameLevel(fr: Frame): (level: Level) {
    match fr
    case ArrayFrame(vs) => Level(true, |vs|)
    case ObjectFrame(ms, name) => Level(false, 2 * |ms| + if name.Some? then 1 else 0)
  }

  function FrameEvents(fr: Frame): (es: seq<Event>) {
    match fr
    case ArrayFrame(vs) => [StartArray] + CanonAll(ElementEvents(Accept, vs))
    case ObjectFrame(ms, name) =>
      [StartObject] + CanonAll(MemberEvents(Accept, ms)) + if name.Some? then [StringEvent(name.value)] else []
  }

  function OpenEvents(frames: seq<Frame>): (es: seq<Event>) {
    if frames == [] then []
    else OpenEvents(frames[..|frames| - 1]) + FrameEvents(frames[|frames| - 1])
  }

  function ValueEvents(v: Value): (es: seq<Event>) {
    CanonAll(Events(Accept, v))
  }

  lemma {:induction false} ElementEventsAppend(vs: seq<Value>, v: Value)
    ensures ElementEvents(Accept, vs + [v]) == ElementEvents(Accept, vs) + Events(Accept, v)
  {
    if vs == [] {
      assert vs + [v] == [v];
    } else {
      assert (vs + [v])[1..] == vs[1..] + [v];
      ElementEventsAppend(vs[1..], v);
    }
  }

  lemma {:induction false} MemberEventsAppend(ms: seq<Member>, m: Member)
    ensures MemberEvents(Accept, ms + [m]) == MemberEvents(Accept, ms) + ([KeyEvent(m.name)] + Events(Accept, m.value))
  {
    if ms == [] {
      assert ms + [m] == [m];
    } else {
      assert (ms + [m])[1..] == ms[1..] + [m];
      MemberEventsAppend(ms[1..], m);
    }
  }

  lemma ExtendedEvents(fr: Frame, v: Value)
    requires Awaits(fr)
    ensures FrameEvents(Extended(fr, v)) == FrameEvents(fr) + ValueEvents(v)
  {
    hide CanonAll, Events, ElementEvents, MemberEvents;
    match fr
    case ArrayFrame(vs) =>
      ElementEventsAppend(vs, v);
      CanonAppend(ElementEvents(Accept, vs), Events(Accept, v));
      Regroup([StartArray], CanonAll(ElementEvents(Accept, vs)), [], ValueEvents(v));
    case ObjectFrame(ms, Some(name)) =>
      MemberEventsAppend(ms, Member(name, v));
      CanonAppend(MemberEvents(Accept, ms), [KeyEvent(name)] + Events(Accept, v));
      CanonAppend([KeyEvent(name)], Events(Accept, v));
      assert CanonAll([KeyEvent(name)]) == [StringEvent(name)];
      Regroup([StartObject], CanonAll(MemberEvents(Accept, ms)), [StringEvent(name)], ValueEvents(v));
  }

  lemma Regroup(a: seq<Event>, b: seq<Event>, c: seq<Event>, d: seq<Event>)
    ensures a + (b + (c + d)) + [] == a + b + c + d
    ensures c == [] ==> a + (b + d) == a + b + d
  {
  }

  /** The value is complete: it goes where the innermost frame awaits one, or becomes the root. */
  function Add(b: Built, v: Value): (r: Built)
    requires b.frames != [] ==> Awaits(b.frames[|b.frames| - 1])
  {
    var n := |b.frames|;
    if n == 0 then Built([], Some(v)) else Built(b.frames[..n - 1] + [Extended(b.frames[n - 1], v)], b.root)
  }

  /** All events b stands for. */
  function Seen(b: Built): (es: seq<Event>) {
    OpenEvents(b.frames) + if b.root.Some? then ValueEvents(b.root.value) else []
  }

  lemma AddSeen(b: Built, v: Value)
    requires b.frames != [] ==> Awaits(b.frames[|b.frames| - 1])
    requires b.root == None
    ensures Seen(Add(b, v)) == Seen(b) + ValueEvents(v)
  {
    hide FrameEvents, ValueEvents;
    if b.frames != [] {
      var n := |b.frames|;
      ExtendedEvents(b.frames[n - 1], v);
      assert Add(b, v).frames[..n - 1] == b.frames[..n - 1];
    }
  }

  /** The level stack of the writer counts what the frames hold; every level but the innermost has a child open. */
  ghost predicate Counts(levels: seq<Level>, frames: seq<Frame>) {
    && |levels| == |frames|
    && (forall i :: 0 <= i < |frames| - 1 ==> Awaits(frames[i]) && levels[i] == Raised(FrameLevel(frames[i])))
    && (frames != [] ==> levels[|levels| - 1] == FrameLevel(frames[|frames| - 1]))
  }

  function Raised(level: Level): (r: Level) {
    level.(valueCount := level.valueCount + 1)
  }

  ghost predicate Follows(s: State, b: Built) {
    Counts(s.levels, b.frames) && (b.frames != [] ==> b.root == None) && (s.hasRoot <==> b.frames != [] || b.root.Some?)
  }

  lemma AddFollows(s: State, b: Built, v: Value, t: State)
    requires Counts(s.levels, b.frames) && b.root == None && (b.frames != [] ==> Awaits(b.frames[|b.frames| - 1]))
    requires t.levels == Counted(s.levels) && t.hasRoot
    ensures Follows(t, Add(b, v))
  {
  }

  /** A value without children. */
  lemma ScalarBuilds(s: State, b: Built, e: Event, v: Value)
    requires Follows(s, b) && Step(Compact, s, e).Some? && ValueEvents(v) == [Canon(e)]
    requires e.NullEvent? || e.BoolEvent? || e.NumberEvent? || e.StringEvent? || e.KeyEvent?
    requires b.frames != [] ==> Awaits(b.frames[|b.frames| - 1])
    ensures Follows(Step(Compact, s, e).value, Add(b, v)) && Seen(Add(b, v)) == Seen(b) + [Canon(e)]
  {
    hide Seen, Add, Token, Lead;
    AddFollows(s, b, v, Step(Compact, s, e).value);
    AddSeen(b, v);
  }

  lemma NameBuilds(s: State, b: Built, e: Event) returns (c: Built)
    requires Follows(s, b) && Step(Compact, s, e).Some? && (e.StringEvent? || e.KeyEvent?)
    requires b.frames != [] && !Awaits(b.frames[|b.frames| - 1])
    ensures Follows(Step(Compact, s, e).value, c) && Seen(c) == Seen(b) + [Canon(e)]
  {
    hide Token, Lead, FrameEvents, Step, Awaits, CanonAll;
    var n := |b.frames|;
    var top := b.frames[n - 1];
    NameStep(s, b, e);
    var fr := top.(name := Some(e.s));
    NamedFrame(top, fr, e);
    c := Built(b.frames[..n - 1] + [fr], None);
    assert c.frames[..n - 1] == b.frames[..n - 1];
    CountsTop(s.levels, b.frames, Step(Compact, s, e).value.levels, fr);
  }

  /** Where a name is due, the innermost frame is an object between two members. */
  lemma NameStep(s: State, b: Built, e: Event)
    requires Follows(s, b) && Step(Compact, s, e).Some? && (e.StringEvent? || e.KeyEvent?)
    requires b.frames != [] && !Awaits(b.frames[|b.frames| - 1])
    ensures b.frames[|b.frames| - 1].ObjectFrame? && b.frames[|b.frames| - 1].name == None && b.root == None
            && s.hasRoot
    ensures Step(Compact, s, e).value.levels == Counted(s.levels) && Step(Compact, s, e).value.hasRoot
  {
    hide Token, Lead, Counted;
  }

  lemma NamedFrame(top: Frame, fr: Frame, e: Event)
    requires (e.StringEvent? || e.KeyEvent?) && top.ObjectFrame? && top.name == None && fr == top.(name := Some(e.s))
    ensures FrameEvents(fr) == FrameEvents(top) + [Canon(e)] && FrameLevel(fr) == Raised(FrameLevel(top))
  {
    hide CanonAll;
  }

  /** The innermost frame counts one more, as does its level. */
  lemma CountsTop(levels: seq<Level>, frames: seq<Frame>, levels': seq<Level>, fr: Frame)
    requires frames != [] && Counts(levels, frames) && levels' == Counted(levels)
    requires FrameLevel(fr) == Raised(FrameLevel(frames[|frames| - 1]))
    ensures Counts(levels', frames[..|frames| - 1] + [fr])
  {
    hide Awaits, FrameLevel;
  }

  lemma StartBuilds(s: State, b: Built, e: Event) returns (c: Built)
    requires Follows(s, b) && Step(Compact, s, e).Some? && (e.StartArray? || e.StartObject?)
    ensures Follows(Step(Compact, s, e).value, c) && Seen(c) == Seen(b) + [Canon(e)]
  {
    hide Token, Lead, FrameEvents, Awaits, Counted, OpenEvents;
    var fr := if e.StartArray? then ArrayFrame([]) else ObjectFrame([], None);
    c := Built(b.frames + [fr], None);
    StartFrame(e, fr);
    OpenOneMore(b.frames, fr);
    CountsStart(s, b, e, fr);
  }

  lemma StartFrame(e: Event, fr: Frame)
    requires (e.StartArray? && fr == ArrayFrame([])) || (e.StartObject? && fr == ObjectFrame([], None))
    ensures FrameEvents(fr) == [Canon(e)] && FrameLevel(fr) == Level(e.StartArray?, 0)
  {
  }

  lemma OpenOneMore(frames: seq<Frame>, fr: Frame)
    ensures OpenEvents(frames + [fr]) == OpenEvents(frames) + FrameEvents(fr)
  {
    hide FrameEvents;
    assert (frames + [fr])[..|frames|] == frames;
  }

  lemma CountsStart(s: State, b: Built, e: Event, fr: Frame)
    requires Follows(s, b) && Step(Compact, s, e).Some? && (e.StartArray? || e.StartObject?)
    requires FrameLevel(fr) == Level(e.StartArray?, 0)
    ensures b.root == None && Follows(Step(Compact, s, e).value, Built(b.frames + [fr], None))
  {
    hide Token, Lead, FrameLevel;
    var t := Step(Compact, s, e).value;
    if b.frames != [] {
      var n := |b.frames| - 1;
      assert Awaits(b.frames[n]) by { AwaitsByLevel(b.frames[n]); }
      assert t.levels[n] == Raised(s.levels[n]);
    }
  }

  lemma AwaitsByLevel(fr: Frame)
    ensures Awaits(fr) <==> FrameLevel(fr).inArray || FrameLevel(fr).valueCount % 2 == 1
  {
  }

  /** The value of a frame that is about to be closed. */
  function Closed(fr: Frame): (v: Value) {
    match fr case ArrayFrame(vs) => Array(vs) case ObjectFrame(ms, _) => Object(ms)
  }

  lemma ClosedEvents(fr: Frame, e: Event)
    requires (fr.ArrayFrame? && e.EndArray?) || (fr.ObjectFrame? && fr.name == None && e.EndObject?)
    ensures ValueEvents(Closed(fr)) == FrameEvents(fr) + [Canon(e)]
  {
    match fr
    case ArrayFrame(vs) =>
      CanonAppend([StartArray] + ElementEvents(Accept, vs), [EndArray(|vs|)]);
      CanonAppend([StartArray], ElementEvents(Accept, vs));
    case ObjectFrame(ms, _) =>
      CanonAppend([StartObject] + MemberEvents(Accept, ms), [EndObject(|ms|)]);
      CanonAppend([StartObject], MemberEvents(Accept, ms));
  }

  lemma EndBuilds(s: State, b: Built, e: Event) returns (c: Built)
    requires Follows(s, b) && Step(Compact, s, e).Some? && (e.EndArray? || e.EndObject?)
    requires e.EndObject? ==> Top(s).valueCount % 2 == 0
    ensures Follows(Step(Compact, s, e).value, c) && Seen(c) == Seen(b) + [Canon(e)]
  {
    hide Token, Close, Canon, ValueEvents, FrameEvents, Step, Follows, Extended, Closed, Seen, Add;
    EndFrame(s, b, e);
    var n := |b.frames|;
    var fr := b.frames[n - 1];
    var parent := Built(b.frames[..n - 1], None);
    c := Add(parent, Closed(fr));
    ClosedEvents(fr, e);
    AddSeen(parent, Closed(fr));
    SeenParent(b);
    EndFollows(s, b, e);
  }

  /** The frame closed is of the kind the event closes, holds no name, and its parent awaits it. */
  lemma EndFrame(s: State, b: Built, e: Event)
    requires Follows(s, b) && Step(Compact, s, e).Some? && (e.EndArray? || e.EndObject?)
    requires e.EndObject? ==> Top(s).valueCount % 2 == 0
    ensures b.frames != [] && b.root == None
    ensures var n := |b.frames|;
            var fr := b.frames[n - 1];
            && ((fr.ArrayFrame? && e.EndArray?) || (fr.ObjectFrame? && fr.name == None && e.EndObject?))
            && (n > 1 ==> Awaits(b.frames[n - 2]))
  {
    hide Token, Close;
  }

  lemma SeenParent(b: Built)
    requires b.frames != [] && b.root == None
    ensures Seen(b) == Seen(Built(b.frames[..|b.frames| - 1], None)) + FrameEvents(b.frames[|b.frames| - 1])
  {
    hide FrameEvents;
  }

  lemma EndFollows(s: State, b: Built, e: Event)
    requires Follows(s, b) && Step(Compact, s, e).Some? && (e.EndArray? || e.EndObject?)
    requires b.frames != [] && (|b.frames| > 1 ==> Awaits(b.frames[|b.frames| - 2]))
    ensures var n := |b.frames|;
            Follows(Step(Compact, s, e).value, Add(Built(b.frames[..n - 1], None), Closed(b.frames[n - 1])))
  {
    hide Token, Close, Closed, FrameEvents, Awaits;
    var n := |b.frames|;
    var t, v := Step(Compact, s, e).value, Closed(b.frames[n - 1]);
    assert t.levels == s.levels[..n - 1];
    if n > 1 {
      var c := Add(Built(b.frames[..n - 1], None), v);
      assert c.frames == b.frames[..n - 2] + [Extended(b.frames[n - 2], v)];
      ExtendedLevel(b.frames[n - 2], v);
    }
  }

  lemma ExtendedLevel(fr: Frame, v: Value)
    requires Awaits(fr)
    ensures FrameLevel(Extended(fr, v)) == Raised(FrameLevel(fr))
  {
  }

  /** Every step that trips no assertion and closes no object early adds one event to a value under construction. */
  lemma StepBuilds(s: State, b: Built, e: Event) returns (c: Built)
    requires Follows(s, b) && Step(Compact, s, e).Some?
    requires e.EndObject? && s.levels != [] ==> Top(s).valueCount % 2 == 0
    ensures Follows(Step(Compact, s, e).value, c) && Seen(c) == Seen(b) + [Canon(e)]
  {
    hide Seen, Token;
    match e
    case StartObject => c := StartBuilds(s, b, e);
    case StartArray => c := StartBuilds(s, b, e);
    case EndObject(_) => c := EndBuilds(s, b, e);
    case EndArray(_) => c := EndBuilds(s, b, e);
    case _ =>
      if b.frames != [] && !Awaits(b.frames[|b.frames| - 1]) {
        c := NameBuilds(s, b, e);
      } else {
        var v := match e case NullEvent => Null case BoolEvent(x) => Bool(x) case NumberEvent(_, n) => Number(n)
                         case StringEvent(str) => String(str) case KeyEvent(str) => String(str);
        c := Add(b, v);
        assert ValueEvents(v) == [Canon(e)];
        ScalarBuilds(s, b, e, v);
      }
  }

  lemma CanonFirst(before: seq<Event>, es: seq<Event>)
    ensures before + CanonAll(es) == if es == [] then before else before + [Canon(es[0])] + CanonAll(es[1..])
  {
  }

  lemma {:induction false} RunBuilds(s: State, b: Built, es: seq<Event>) returns (c: Built)
    requires Follows(s, b) && Run(Compact, s, es).Some? && Paired(s, es)
    ensures Follows(Run(Compact, s, es).value, c) && Seen(c) == Seen(b) + CanonAll(es)
    decreases es
  {
    hide Step, Seen, Follows, CanonAll, Canon;
    CanonFirst(Seen(b), es);
    if es == [] {
      c := b;
    } else {
      var d := StepBuilds(s, b, es[0]);
      c := RunBuilds(Step(Compact, s, es[0]).value, d, es[1..]);
    }
  }

  /** es are the events of v, up to what a writer cannot tell apart. */
  predicate Sends(es: seq<Event>, v: Value) {
    CanonAll(es) == ValueEvents(v)
  }

  /**
   * A Writer takes es to completion, closing no object right after a name, exactly when es are the events of a value;
   * its output is then the text of that value.
   */
  lemma WriterLanguage(es: seq<Event>)
    ensures Run(Compact, INIT, es).Some? && Run(Compact, INIT, es).value.IsComplete() && Paired(INIT, es)
            <==> exists v :: Sends(es, v)
    ensures forall v :: Sends(es, v) ==> Run(Compact, INIT, es) == Some(State(Text(Compact, 0, v), [], true))
  {
    hide Run, Paired;
    forall v | Sends(es, v)
      ensures Run(Compact, INIT, es) == Some(State(Text(Compact, 0, v), [], true)) && Paired(INIT, es)
    {
      RunSeesCanon(Compact, INIT, es);
      RunSeesCanon(Compact, INIT, Events(Accept, v));
      AcceptWrites(Compact, Accept, INIT, v);
      assert INIT.out + Text(Compact, 0, v) == Text(Compact, 0, v);
      PairedSeesCanon(INIT, es);
      PairedSeesCanon(INIT, Events(Accept, v));
      ValueIsPaired(Accept, INIT, v);
    }
    if Run(Compact, INIT, es).Some? && Run(Compact, INIT, es).value.IsComplete() && Paired(INIT, es) {
      var c := RunBuilds(INIT, Built([], None), es);
      assert Seen(c) == ValueEvents(c.root.value);
      assert Sends(es, c.root.value);
    }
  }
}
