/** Deleting the white space outside strings from what PrettyWriter puts leaves what Writer puts. */
module JsonStrip {
  import opened ByteStreams
  import opened JsonText
  import opened JsonValue
  import opened JsonWriterSpec

  /** Where a reader of the text is: outside strings, inside one, or just behind a backslash inside one. */
  datatype Place = Outside | Inside | Escape

  function Moved(p: Place, c: Byte): (r: Place) {
    match p
    case Outside => if c == QUOTE then Inside else Outside
    case Inside => if c == QUOTE then Outside else if c == BACKSLASH then Escape else Inside
    case Escape => Inside
  }

  function End(p: Place, s: seq<Byte>): (r: Place)
    decreases s
  {
    if s == [] then p else End(Moved(p, s[0]), s[1..])
  }

  /** The text without its white space outside strings. */
  function Strip(p: Place, s: seq<Byte>): (r: seq<Byte>)
    decreases s
  {
    if s == [] then []
    else (if p == Outside && Whitespace(s[0]) then [] else [s[0]]) + Strip(Moved(p, s[0]), s[1..])
  }

  lemma {:induction false} StripAppend(p: Place, a: seq<Byte>, b: seq<Byte>)
    ensures End(p, a + b) == End(End(p, a), b)
    ensures Strip(p, a + b) == Strip(p, a) + Strip(End(p, a), b)
    decreases a
  {
    if a == [] {
      assert a + b == b;
    } else {
      assert (a + b)[1..] == a[1..] + b;
      StripAppend(Moved(p, a[0]), a[1..], b);
    }
  }

  /** s, read outside strings, ends outside strings and loses nothing but white space: t is left of it. */
  predicate StripsTo(s: seq<Byte>, t: seq<Byte>) {
    End(Outside, s) == Outside && Strip(Outside, s) == t
  }

  lemma StripsJoin(a: seq<Byte>, a': seq<Byte>, b: seq<Byte>, b': seq<Byte>)
    requires StripsTo(a, a') && StripsTo(b, b')
    ensures StripsTo(a + b, a' + b')
  {
    StripAppend(Outside, a, b);
  }

  lemma {:induction false} PlainStays(s: seq<Byte>)
    requires forall k :: 0 <= k < |s| ==> !Whitespace(s[k]) && s[k] != QUOTE
    ensures StripsTo(s, s)
  {
    if s != [] {
      PlainStays(s[1..]);
    }
  }

  lemma {:induction false} BlankGoes(s: seq<Byte>)
    requires forall k :: 0 <= k < |s| ==> Whitespace(s[k])
    ensures StripsTo(s, [])
  {
    if s != [] {
      BlankGoes(s[1..]);
    }
  }

  lemma {:induction false} EscapesStay(s: seq<Byte>)
    ensures End(Inside, AllEscaped(s)) == Inside && Strip(Inside, AllEscaped(s)) == AllEscaped(s)
  {
    if s != [] {
      EscapeStays(s[0]);
      EscapesStay(s[1..]);
      StripAppend(Inside, Escaped(s[0]), AllEscaped(s[1..]));
    }
  }

  /** No escape sequence ends the string, and none is taken apart. */
  lemma EscapeStays(c: Byte)
    ensures End(Inside, Escaped(c)) == Inside && Strip(Inside, Escaped(c)) == Escaped(c)
  {
    var e := EscapeLetter(c);
    StripAppend(Inside, [BACKSLASH], [e]);
    assert [BACKSLASH] + [e] == [BACKSLASH, e];
    if e == 0x75 {
      var hex := [ZERO, ZERO, HexDigit(c / 0x10), HexDigit(c % 0x10)];
      HexStays(hex);
      assert Escaped(c) == [BACKSLASH, e] + hex;
      StripAppend(Inside, [BACKSLASH, e], hex);
    }
  }

  lemma {:induction false} HexStays(s: seq<Byte>)
    requires forall k :: 0 <= k < |s| ==> s[k] != QUOTE && s[k] != BACKSLASH
    ensures End(Inside, s) == Inside && Strip(Inside, s) == s
  {
    if s != [] {
      HexStays(s[1..]);
    }
  }

  lemma QuotedStays(s: seq<Byte>)
    ensures StripsTo(Quoted(s), Quoted(s))
  {
    EscapesStay(s);
    StripAppend(Inside, AllEscaped(s), [QUOTE]);
    StripAppend(Outside, [QUOTE], AllEscaped(s) + [QUOTE]);
    assert Quoted(s) == [QUOTE] + (AllEscaped(s) + [QUOTE]);
  }

  lemma NumberStays(n: int)
    ensures StripsTo(NumberText(n), NumberText(n))
  {
    hide Decimal, DigitsValue;
    DecimalDigits(if n < 0 then -n else n);
    PlainStays(NumberText(n));
  }

  lemma TokenStays(e: Event)
    ensures StripsTo(Token(e), Token(e))
  {
    hide StripsTo, Quoted, NumberText;
    match e
    case StringEvent(s) => QuotedStays(s);
    case KeyEvent(s) => QuotedStays(s);
    case NumberEvent(_, n) => NumberStays(n);
    case _ => PlainStays(Token(e));
  }

  lemma LeadStrips(f: Format, depth: nat, level: Level)
    requires f.Valid()
    ensures StripsTo(Lead(f, depth, level), Lead(Compact, depth, level))
  {
    hide StripsTo;
    PlainStays(Lead(Compact, depth, level));
    if f.Pretty? {
      var blank := Lead(f, depth, level)[|Lead(Compact, depth, level)|..];
      BlankGoes(blank);
      assert Lead(f, depth, level) == Lead(Compact, depth, level) + blank;
      StripsJoin(Lead(Compact, depth, level), Lead(Compact, depth, level), blank, []);
      assert Lead(Compact, depth, level) + [] == Lead(Compact, depth, level);
    }
  }

  lemma CloseStrips(f: Format, depth: nat, level: Level)
    requires f.Valid()
    ensures StripsTo(Close(f, depth, level), Close(Compact, depth, level))
  {
    BlankGoes(Close(f, depth, level));
  }

  /** A pretty and a compact writer that have seen the same events. */
  predicate Alike(p: State, c: State) {
    p.levels == c.levels && p.hasRoot == c.hasRoot && StripsTo(p.out, c.out)
  }

  lemma StepAlike(f: Format, p: State, c: State, e: Event)
    requires f.Valid() && Alike(p, c)
    ensures Step(f, p, e).Some? <==> Step(Compact, c, e).Some?
    ensures Step(f, p, e).Some? ==> Alike(Step(f, p, e).value, Step(Compact, c, e).value)
  {
    hide StripsTo, Lead, Close, Token;
    TokenStays(e);
    if p.levels != [] {
      var n := |p.levels| - 1;
      var top := p.levels[n];
      CloseStrips(f, n, top);
      StripsJoin(Close(f, n, top), Close(Compact, n, top), Token(e), Token(e));
      LeadStrips(f, n + 1, top);
      StripsJoin(p.out, c.out, Lead(f, n + 1, top), Lead(Compact, n + 1, top));
      StripsJoin(p.out, c.out, Close(f, n, top) + Token(e), Close(Compact, n, top) + Token(e));
    }
    StripsJoin(Prefixed(f, p).out, Prefixed(Compact, c).out, Token(e), Token(e));
  }

  /**
   * For every sequence of events and every format: PrettyWriter trips an assertion exactly when Writer does, is
   * complete exactly when Writer is, and its text without white space outside strings is Writer's text.
   */
  lemma {:induction false} PrettyIsCompact(f: Format, p: State, c: State, es: seq<Event>)
    requires f.Valid() && Alike(p, c)
    ensures Run(f, p, es).Some? <==> Run(Compact, c, es).Some?
    ensures Run(f, p, es).Some? ==> Alike(Run(f, p, es).value, Run(Compact, c, es).value)
    decreases es
  {
    hide Step, Alike;
    if es != [] {
      StepAlike(f, p, c, es[0]);
      if Step(f, p, es[0]).Some? {
        PrettyIsCompact(f, Step(f, p, es[0]).value, Step(Compact, c, es[0]).value, es[1..]);
      }
    }
  }

  /** The same for the text of a value, whatever depth it stands at. */
  lemma PrettyTextIsCompactText(f: Format, v: Value)
    requires f.Valid()
    ensures Strip(Outside, Text(f, 0, v)) == Text(Compact, 0, v)
  {
    PrettyIsCompact(f, INIT, INIT, Events(Accept, v));
    AcceptWrites(f, Accept, INIT, v);
    AcceptWrites(Compact, Accept, INIT, v);
    assert INIT.out + Text(f, 0, v) == Text(f, 0, v) && INIT.out + Text(Compact, 0, v) == Text(Compact, 0, v);
  }
}
