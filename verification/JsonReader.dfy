/**
 * The recursive parser of reader.h on the grammar of RFC 8259, sections 2 to 7, without fractions, exponents and
 * numbers beyond 64 bits. It is the reference the writer's output is read back with.
 */
module JsonReader {
  import opened ByteStreams
  import opened JsonText
  import opened JsonValue
  import opened Wrappers
  import Utf8

  /** What a parsing step leaves: its result and the bytes not taken yet; None stands for any parse error. */
  type Read<T> = Option<(T, seq<Byte>)>

  function SkipSpaces(s: seq<Byte>): (r: seq<Byte>)
    ensures |r| <= |s| && (r != [] ==> !Whitespace(r[0]))
  {
    if s != [] && Whitespace(s[0]) then SkipSpaces(s[1..]) else s
  }

  // ---- strings ----------------------------------------------------------------------------------------------------

  /** ParseHex4. */
  function ReadHex4(s: seq<Byte>): (r: Read<int>)
    ensures r.Some? ==> 0 <= r.value.0 < 0x1_0000 && |r.value.1| == |s| - 4
  {
    if |s| < 4 || HexValue(s[0]) < 0 || HexValue(s[1]) < 0 || HexValue(s[2]) < 0 || HexValue(s[3]) < 0 then None
    else Some((((HexValue(s[0]) * 16 + HexValue(s[1])) * 16 + HexValue(s[2])) * 16 + HexValue(s[3]), s[4..]))
  }

  /** \uXXXX, and a second \uXXXX behind a high surrogate; s starts behind the first \u. */
  function ReadUnicode(s: seq<Byte>): (r: Read<int>)
    ensures r.Some? ==> 0 <= r.value.0 <= 0x10FFFF && |r.value.1| < |s|
  {
    match ReadHex4(s)
    case None => None
    case Some((high, rest)) =>
      if !(0xD800 <= high <= 0xDBFF) then Some((high, rest))
      else if |rest| < 2 || rest[0] != BACKSLASH || rest[1] != 0x75 then None
      else match ReadHex4(rest[2..])
           case None => None
           case Some((low, rest2)) =>
             if !(0xDC00 <= low <= 0xDFFF) then None
             else Some(((high - 0xD800) * 0x400 + (low - 0xDC00) + 0x1_0000, rest2))
  }

  /** The escape table of ParseStringToStream, 0 where the letter is none. */
  function Unescaped(e: Byte): (c: Byte) {
    if e == QUOTE || e == 0x2F || e == BACKSLASH then e
    else if e == 0x62 then 0x08
    else if e == 0x66 then 0x0C
    else if e == 0x6E then 0x0A
    else if e == 0x72 then 0x0D
    else if e == 0x74 then 0x09
    else 0
  }

  /** One round of ParseStringToStream on anything but the closing quotation mark: the bytes it puts. */
  function ReadChar(s: seq<Byte>): (r: Read<seq<Byte>>)
    ensures r.Some? ==> |r.value.1| < |s|
  {
    if s == [] || s[0] < 0x20 then None
    else if s[0] != BACKSLASH then Some(([s[0]], s[1..]))
    else if |s| == 1 then None
    else if Unescaped(s[1]) != 0 then Some(([Unescaped(s[1])], s[2..]))
    else if s[1] != 0x75 then None
    else match ReadUnicode(s[2..])
         case None => None
         case Some((codepoint, rest)) => Some((Utf8.Encoded(codepoint), rest))
  }

  /** ParseStringToStream behind the opening quotation mark. */
  function ReadString(s: seq<Byte>): (r: Read<seq<Byte>>)
    ensures r.Some? ==> |r.value.1| < |s|
    decreases |s|
  {
    if s != [] && s[0] == QUOTE then Some(([], s[1..]))
    else match ReadChar(s)
         case None => None
         case Some((bytes, rest)) =>
           match ReadString(rest)
           case None => None
           case Some((more, rest2)) => Some((bytes + more, rest2))
  }

  // ---- numbers ----------------------------------------------------------------------------------------------------

  function DigitRun(s: seq<Byte>): (n: nat)
    ensures n <= |s| && AllDigits(s[..n])
  {
    if s == [] || !Digit(s[0]) then 0 else 1 + DigitRun(s[1..])
  }

  /** A byte that would carry a number on, or make a double of it. */
  predicate Continues(c: Byte) {
    Digit(c) || c == 0x2E || c == 0x45 || c == 0x65
  }

  /** The event for the digits read so far; None for a number that needs a double. */
  function Sent(minus: bool, n: nat): (e: Option<Event>)
  {
    var m: int := if minus then 0 - n else n;
    if minus && Fits(Int, m) then Some(NumberEvent(Int, m))
    else if minus && Fits(Int64, m) then Some(NumberEvent(Int64, m))
    else if !minus && Fits(Uint, m) then Some(NumberEvent(Uint, m))
    else if !minus && Fits(Uint64, m) then Some(NumberEvent(Uint64, m))
    else None
  }

  /** The digits of a number, a leading zero being one on its own. */
  function ReadDigits(t: seq<Byte>): (r: Read<nat>)
    ensures r.Some? ==> |r.value.1| < |t|
  {
    var run := if t != [] && t[0] == ZERO then 1 else DigitRun(t);
    if run == 0 then None
    else
      Some((DigitsValue(t[..run]), t[run..]))
  }

  /** ParseNumber; None also where it would send a double. */
  function ReadNumber(s: seq<Byte>): (r: Read<Event>)
    ensures r.Some? ==> |r.value.1| < |s|
  {
    var minus := s != [] && s[0] == MINUS;
    match ReadDigits(if minus then s[1..] else s)
    case None => None
    case Some((n, rest)) =>
      if rest != [] && Continues(rest[0]) && !Digit(rest[0]) then None
      else match Sent(minus, n) case None => None case Some(e) => Some((e, rest))
  }

  // ---- values -----------------------------------------------------------------------------------------------------

  function ReadLiteral(s: seq<Byte>, text: seq<Byte>, e: Event): (r: Read<seq<Event>>)
    requires text != []
    ensures r.Some? ==> |r.value.1| < |s|
  {
    if text <= s then Some(([e], s[|text|..])) else None
  }

  /** ParseValue. */
  function ReadValue(s: seq<Byte>): (r: Read<seq<Event>>)
    ensures r.Some? ==> |r.value.1| < |s|
    decreases |s|, 1
  {
    var c := Peek(s, 0);
    if c == NULL_TEXT[0] then ReadLiteral(s, NULL_TEXT, NullEvent)
    else if c == TRUE_TEXT[0] then ReadLiteral(s, TRUE_TEXT, BoolEvent(true))
    else if c == FALSE_TEXT[0] then ReadLiteral(s, FALSE_TEXT, BoolEvent(false))
    else if c == QUOTE then
      match ReadString(s[1..]) case None => None case Some((str, rest)) => Some(([StringEvent(str)], rest))
    else if c == OPEN_OBJECT then
      var t := SkipSpaces(s[1..]);
      if Peek(t, 0) == CLOSE_OBJECT then Some(([StartObject, EndObject(0)], t[1..]))
      else match ReadMembers(t, 0) case None => None case Some((es, rest)) => Some(([StartObject] + es, rest))
    else if c == OPEN_ARRAY then
      var t := SkipSpaces(s[1..]);
      if Peek(t, 0) == CLOSE_ARRAY then Some(([StartArray, EndArray(0)], t[1..]))
      else match ReadElements(t, 0) case None => None case Some((es, rest)) => Some(([StartArray] + es, rest))
    else
      match ReadNumber(s) case None => None case Some((e, rest)) => Some(([e], rest))
  }

  /** The loop of ParseArray, with count elements behind it. */
  function ReadElements(s: seq<Byte>, count: nat): (r: Read<seq<Event>>)
    ensures r.Some? ==> |r.value.1| < |s|
    decreases |s|, 2
  {
    match ReadValue(s)
    case None => None
    case Some((es, rest)) =>
      var t := SkipSpaces(rest);
      if Peek(t, 0) == COMMA then
        match ReadElements(SkipSpaces(t[1..]), count + 1)
        case None => None
        case Some((more, rest2)) => Some((es + more, rest2))
      else if Peek(t, 0) == CLOSE_ARRAY then Some((es + [EndArray(count + 1)], t[1..]))
      else None
  }

  /** The loop of ParseObject, with count members behind it. */
  function ReadMembers(s: seq<Byte>, count: nat): (r: Read<seq<Event>>)
    ensures r.Some? ==> |r.value.1| < |s|
    decreases |s|, 2
  {
    if Peek(s, 0) != QUOTE then None
    else match ReadString(s[1..])
         case None => None
         case Some((name, rest)) =>
           var t := SkipSpaces(rest);
           if Peek(t, 0) != COLON then None
           else match ReadValue(SkipSpaces(t[1..]))
                case None => None
                case Some((es, rest2)) =>
                  var u := SkipSpaces(rest2);
                  if Peek(u, 0) == COMMA then
                    match ReadMembers(SkipSpaces(u[1..]), count + 1)
                    case None => None
                    case Some((more, rest3)) => Some(([KeyEvent(name)] + es + more, rest3))
                  else if Peek(u, 0) == CLOSE_OBJECT then
                    Some(([KeyEvent(name)] + es + [EndObject(count + 1)], u[1..]))
                  else None
  }

  /** Parse: one value with white space around it, and nothing else. */
  function ReadDocument(s: seq<Byte>): (r: Option<seq<Event>>) {
    match ReadValue(SkipSpaces(s))
    case None => None
    case Some((es, rest)) => if Peek(SkipSpaces(rest), 0) == 0 then Some(es) else None
  }
}
