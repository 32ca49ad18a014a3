/** Which event sequences a writer takes to completion, and when it says so. */
module JsonRuns {
  import opened JsonText
  import opened JsonValue
  import opened JsonWriterSpec
  import opened Wrappers

  /**
   * Whatever is cut off the end of the events of a value, no assertion fails before the cut and the levels around the
   * value stay open; only after the last event are there no more of them than before.
   */
  lemma {:induction false} LevelsStayOpen(f: Format, sender: Sender, s: State, v: Value, k: nat)
    requires TakesValue(s) && k <= |Events(sender, v)|
    ensures Run(f, s, Events(sender, v)[..k]).Some?
    ensures |Run(f, s, Events(sender, v)[..k]).value.levels| >= |s.levels|
    ensures 0 < k < |Events(sender, v)| ==> |Run(f, s, Events(sender, v)[..k]).value.levels| > |s.levels|
    decreases v
  {
    hide Step, Run, Wrote, Events, ElementEvents, MemberEvents, TakesValue;
    var es := Events(sender, v);
    AcceptWrites(f, sender, s, v);
    if k == |es| {
      assert es[..k] == es;
    } else if k == 0 {
      RunNone(f, s, es);
    } else {
      EventsShape(sender, v);
      match v
      case Array(vs) =>
        Opens(f, s, StartArray);
        ElementLevels(f, sender, Step(f, s, StartArray).value, vs, k - 1);
        Bracketed(f, s, StartArray, ElementEvents(sender, vs), EndArray(|vs|), k);
      case Object(ms) =>
        Opens(f, s, StartObject);
        MemberLevels(f, sender, Step(f, s, StartObject).value, ms, 0, k - 1);
        Bracketed(f, s, StartObject, MemberEvents(sender, ms), EndObject(|ms|), k);
    }
  }

  lemma RunNone(f: Format, s: State, es: seq<Event>)
    ensures Run(f, s, es[..0]) == Some(s)
  {
  }

  /** Cutting the events of a bracketed value short cuts its body short. */
  lemma Bracketed(f: Format, s: State, open: Event, body: seq<Event>, close: Event, k: nat)
    requires Step(f, s, open).Some? && 0 < k <= |body| + 1
    ensures Run(f, s, ([open] + body + [close])[..k]) == Run(f, Step(f, s, open).value, body[..k - 1])
  {
    hide Step;
    assert ([open] + body + [close])[..k] == [open] + body[..k - 1];
    RunOne(f, s, open);
    RunAppend(f, s, [open], body[..k - 1]);
  }

  lemma {:induction false} ElementLevels(f: Format, sender: Sender, s: State, vs: seq<Value>, k: nat)
    requires s.levels != [] && Top(s).inArray && k <= |ElementEvents(sender, vs)|
    ensures Run(f, s, ElementEvents(sender, vs)[..k]).Some?
    ensures |Run(f, s, ElementEvents(sender, vs)[..k]).value.levels| >= |s.levels|
    decreases vs
  {
    hide Step, Wrote, Grown, Events;
    var es := ElementEvents(sender, vs);
    if vs != [] {
      var first, rest := Events(sender, vs[0]), ElementEvents(sender, vs[1..]);
      if k <= |first| {
        assert es[..k] == first[..k];
        LevelsStayOpen(f, sender, s, vs[0], k);
      } else {
        AcceptWrites(f, sender, s, vs[0]);
        WroteIsGrown(f, s, vs[0]);
        assert es[..k] == first + rest[..k - |first|];
        RunAppend(f, s, first, rest[..k - |first|]);
        ElementLevels(f, sender, Wrote(f, s, vs[0]), vs[1..], k - |first|);
      }
    }
  }

  lemma {:induction false} MemberLevels(f: Format, sender: Sender, s: State, ms: seq<Member>, count: nat, k: nat)
    requires s.levels != [] && Top(s) == Level(false, 2 * count) && k <= |MemberEvents(sender, ms)|
    ensures Run(f, s, MemberEvents(sender, ms)[..k]).Some?
    ensures |Run(f, s, MemberEvents(sender, ms)[..k]).value.levels| >= |s.levels|
    decreases ms
  {
    hide Step, Wrote, Grown, Events, Lead, Quoted;
    var es := MemberEvents(sender, ms);
    if ms != [] && k > 0 {
      var key, first, rest := [KeyEvent(ms[0].name)], Events(sender, ms[0].value), MemberEvents(sender, ms[1..]);
      assert es == key + (first + rest);
      KeyWrites(f, s, ms[0].name);
      var t := Run(f, s, key).value;
      assert es[..k] == key + (first + rest)[..k - 1];
      RunAppend(f, s, key, (first + rest)[..k - 1]);
      if k - 1 <= |first| {
        assert (first + rest)[..k - 1] == first[..k - 1];
        LevelsStayOpen(f, sender, t, ms[0].value, k - 1);
      } else {
        AcceptWrites(f, sender, t, ms[0].value);
        WroteIsGrown(f, t, ms[0].value);
        assert (first + rest)[..k - 1] == first + rest[..k - 1 - |first|];
        RunAppend(f, t, first, rest[..k - 1 - |first|]);
        MemberLevels(f, sender, Wrote(f, t, ms[0].value), ms[1..], count + 1, k - 1 - |first|);
      }
    }
  }

  /** IsComplete is false before and between the events of a value and true after the last one. */
  lemma CompleteOnlyAtTheEnd(f: Format, sender: Sender, v: Value, k: nat)
    requires k <= |Events(sender, v)|
    ensures Run(f, INIT, Events(sender, v)[..k]).Some?
    ensures Run(f, INIT, Events(sender, v)[..k]).value.IsComplete() <==> k == |Events(sender, v)|
  {
    LevelsStayOpen(f, sender, INIT, v, k);
    if k == |Events(sender, v)| {
      assert Events(sender, v)[..k] == Events(sender, v);
      AcceptWrites(f, sender, INIT, v);
    }
  }
}
