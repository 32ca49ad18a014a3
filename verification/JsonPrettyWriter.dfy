/** PrettyWriter of prettywriter.h: a Writer with its own prefix and closing brackets. */
module JsonPrettyWriter {
  import opened ByteStreams
  import opened JsonText
  import opened JsonValue
  import opened JsonWriter
  import opened JsonWriterSpec
  import opened Wrappers

  class PrettyWriter {
    /** The base class part, whose levels, root flag and stream this class uses directly. */
    const base: Writer
    var indentChar: Byte
    var indentCharCount: nat
    var singleLineArray: bool

    ghost function Format(): (f: Format)
      reads this
    {
      Pretty(indentChar, indentCharCount, singleLineArray)
    }

    ghost function State(): (s: State)
      reads this, base, base.output
    {
      base.State()
    }

    constructor (output: OutputStream<Byte>)
      ensures fresh(base) && base.output == output
      ensures State() == JsonWriterSpec.State(old(output.content), [], false)
      ensures Format() == Pretty(SPACE, 4, false)
    {
      base := new Writer(output);
      indentChar := SPACE;
      indentCharCount := 4;
      singleLineArray := false;
    }

    method SetIndent(indentChar: Byte, indentCharCount: nat)
      requires Whitespace(indentChar)
      modifies this
      ensures Format() == Pretty(indentChar, indentCharCount, old(singleLineArray))
    {
      this.indentChar := indentChar;
      this.indentCharCount := indentCharCount;
    }

    method SetFormatOptions(singleLineArray: bool)
      modifies this
      ensures Format() == Pretty(old(indentChar), old(indentCharCount), singleLineArray)
    {
      this.singleLineArray := singleLineArray;
    }

    method WriteIndent()
      modifies base.output
      ensures base.output.content
           == old(base.output.content) + Repeat(indentChar, |base.levels| * indentCharCount)
    {
      var count := |base.levels| * indentCharCount;
      while count > 0
        invariant 0 <= count
        invariant base.output.content + Repeat(indentChar, count)
               == old(base.output.content) + Repeat(indentChar, |base.levels| * indentCharCount)
      {
        assert Repeat(indentChar, count) == [indentChar] + Repeat(indentChar, count - 1);
        ghost var before := base.output.content;
        base.output.Put(indentChar);
        count := count - 1;
        assert before + ([indentChar] + Repeat(indentChar, count)) == base.output.content + Repeat(indentChar, count);
      }
    }

    method PutNewLine()
      modifies base.output
      ensures base.output.content == old(base.output.content) + NewLine(Format(), |base.levels|)
    {
      base.output.Put(NEWLINE);
      WriteIndent();
    }

    method PrettyPrefix(isString: bool)
      requires PrefixHolds(State(), isString)
      modifies base, base.output
      ensures State() == Prefixed(Format(), old(State()))
    {
      if base.levels != [] {
        var level := base.levels[|base.levels| - 1];
        ghost var start := base.output.content;
        if level.inArray {
          if level.valueCount > 0 {
            base.output.Put(COMMA);
            if singleLineArray {
              base.output.Put(SPACE);
            }
          }
          if !singleLineArray {
            base.output.Put(NEWLINE);
            WriteIndent();
          }
        } else {
          if level.valueCount > 0 {
            if level.valueCount % 2 == 0 {
              base.output.Put(COMMA);
              base.output.Put(NEWLINE);
            } else {
              base.output.Put(COLON);
              base.output.Put(SPACE);
            }
          } else {
            base.output.Put(NEWLINE);
          }
          if level.valueCount % 2 == 0 {
            WriteIndent();
          }
        }
        assert base.output.content == start + Lead(Format(), |base.levels|, level);
        base.levels := base.levels[..|base.levels| - 1] + [level.(valueCount := level.valueCount + 1)];
      } else {
        base.hasRoot := true;
      }
    }

    method Null()
      requires PrefixHolds(State(), false)
      modifies base, base.output
      ensures Step(Format(), old(State()), NullEvent) == Some(State())
    {
      hide Lead;
      PrettyPrefix(false);
      base.PutAll(NULL_TEXT);
    }

    method Bool(b: bool)
      requires PrefixHolds(State(), false)
      modifies base, base.output
      ensures Step(Format(), old(State()), BoolEvent(b)) == Some(State())
    {
      hide Lead;
      PrettyPrefix(false);
      base.PutAll(BoolText(b));
    }

    /** Int, Uint, Int64 and Uint64. */
    method Number(width: Width, n: Integer)
      requires PrefixHolds(State(), false) && Fits(width, n)
      modifies base, base.output
      ensures Step(Format(), old(State()), NumberEvent(width, n)) == Some(State())
    {
      hide Lead;
      PrettyPrefix(false);
      base.WriteNumber(width, n);
    }

    method String(str: seq<Byte>)
      requires PrefixHolds(State(), true)
      modifies base, base.output
      ensures Step(Format(), old(State()), StringEvent(str)) == Some(State())
    {
      hide Lead;
      PrettyPrefix(true);
      base.WriteString(str);
    }

    method Key(str: seq<Byte>)
      requires PrefixHolds(State(), true)
      modifies base, base.output
      ensures Step(Format(), old(State()), KeyEvent(str)) == Some(State())
    {
      String(str);
    }

    method StartObject()
      requires PrefixHolds(State(), false)
      modifies base, base.output
      ensures Step(Format(), old(State()), JsonValue.StartObject) == Some(State())
    {
      hide Lead;
      PrettyPrefix(false);
      base.levels := base.levels + [Level(false, 0)];
      base.output.Put(OPEN_OBJECT);
    }

    method EndObject(memberCount: nat)
      requires base.levels != [] && !base.levels[|base.levels| - 1].inArray
      modifies base, base.output
      ensures Step(Format(), old(State()), JsonValue.EndObject(memberCount)) == Some(State())
    {
      ghost var start := base.output.content;
      var level := base.levels[|base.levels| - 1];
      var empty := level.valueCount == 0;
      base.levels := base.levels[..|base.levels| - 1];
      if !empty {
        PutNewLine();
      }
      base.output.Put(CLOSE_OBJECT);
      assert base.output.content
          == start + (Close(Format(), |base.levels|, level) + [CLOSE_OBJECT]);
    }

    method StartArray()
      requires PrefixHolds(State(), false)
      modifies base, base.output
      ensures Step(Format(), old(State()), JsonValue.StartArray) == Some(State())
    {
      hide Lead;
      PrettyPrefix(false);
      base.levels := base.levels + [Level(true, 0)];
      base.output.Put(OPEN_ARRAY);
    }

    method EndArray(elementCount: nat)
      requires base.levels != [] && base.levels[|base.levels| - 1].inArray
      modifies base, base.output
      ensures Step(Format(), old(State()), JsonValue.EndArray(elementCount)) == Some(State())
    {
      ghost var start := base.output.content;
      var level := base.levels[|base.levels| - 1];
      var empty := level.valueCount == 0;
      base.levels := base.levels[..|base.levels| - 1];
      if !empty && !singleLineArray {
        PutNewLine();
      }
      base.output.Put(CLOSE_ARRAY);
      assert base.output.content
          == start + (Close(Format(), |base.levels|, level) + [CLOSE_ARRAY]);
    }
  }
}
