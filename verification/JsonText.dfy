/** The tokens of a JSON text: what WriteNull, WriteBool, WriteInt and WriteString of writer.h put. */
module JsonText {
  import opened ByteStreams
  import opened JsonValue

  const TAB: Byte := 0x09
  const NEWLINE: Byte := 0x0A
  const RETURN: Byte := 0x0D
  const SPACE: Byte := 0x20
  const QUOTE: Byte := 0x22
  const COMMA: Byte := 0x2C
  const MINUS: Byte := 0x2D
  const ZERO: Byte := 0x30
  const COLON: Byte := 0x3A
  const OPEN_ARRAY: Byte := 0x5B
  const BACKSLASH: Byte := 0x5C
  const CLOSE_ARRAY: Byte := 0x5D
  const OPEN_OBJECT: Byte := 0x7B
  const CLOSE_OBJECT: Byte := 0x7D
  const NULL_TEXT: seq<Byte> := [0x6E, 0x75, 0x6C, 0x6C]
  const TRUE_TEXT: seq<Byte> := [0x74, 0x72, 0x75, 0x65]
  const FALSE_TEXT: seq<Byte> := [0x66, 0x61, 0x6C, 0x73, 0x65]

  predicate Whitespace(c: Byte) {
    c == SPACE || c == NEWLINE || c == RETURN || c == TAB
  }

  predicate Digit(c: Byte) {
    0x30 <= c <= 0x39
  }

  function HexDigit(d: int): (c: Byte)
    requires 0 <= d < 16
  {
    if d < 10 then 0x30 + d else 0x41 + d - 10
  }

  /** -1 where the byte is no hexadecimal digit. */
  function HexValue(c: Byte): (d: int)
    ensures -1 <= d < 16
  {
    if Digit(c) then c - 0x30 else if 0x41 <= c <= 0x46 then c - 0x37 else if 0x61 <= c <= 0x66 then c - 0x57 else -1
  }

  /** The letter the escape table of WriteString gives a byte: 0 for a byte that stands for itself. */
  function EscapeLetter(c: Byte): (e: Byte) {
    if c == QUOTE || c == BACKSLASH then c
    else if c == 0x08 then 0x62
    else if c == 0x09 then 0x74
    else if c == 0x0A then 0x6E
    else if c == 0x0C then 0x66
    else if c == 0x0D then 0x72
    else if c < 0x20 then 0x75
    else 0
  }

  function Escaped(c: Byte): (s: seq<Byte>)
    ensures s != []
  {
    var e := EscapeLetter(c);
    if e == 0 then [c]
    else if e != 0x75 then [BACKSLASH, e]
    else [BACKSLASH, e, ZERO, ZERO, HexDigit(c / 0x10), HexDigit(c % 0x10)]
  }

  function AllEscaped(s: seq<Byte>): (t: seq<Byte>) {
    if s == [] then [] else Escaped(s[0]) + AllEscaped(s[1..])
  }

  function Quoted(s: seq<Byte>): (t: seq<Byte>) {
    [QUOTE] + AllEscaped(s) + [QUOTE]
  }

  function Decimal(n: nat): (s: seq<Byte>)
    ensures s != []
  {
    (if n < 10 then [] else Decimal(n / 10)) + [ZERO + n % 10]
  }

  predicate AllDigits(s: seq<Byte>) {
    forall k :: 0 <= k < |s| ==> Digit(s[k])
  }

  /** The number some digits stand for. */
  function DigitsValue(s: seq<Byte>): (n: nat)
    requires AllDigits(s)
  {
    if s == [] then 0
    else
      assert Digit(s[|s| - 1]);
      10 * DigitsValue(s[..|s| - 1]) + HexValue(s[|s| - 1])
  }

  /** Decimal prints digits that stand for the number, with no leading zero. */
  lemma {:induction false} DecimalDigits(n: nat)
    ensures AllDigits(Decimal(n)) && DigitsValue(Decimal(n)) == n && (n > 0 ==> Decimal(n)[0] != ZERO)
  {
    if n >= 10 {
      DecimalDigits(n / 10);
      assert Decimal(n)[..|Decimal(n)| - 1] == Decimal(n / 10);
    } else {
      assert Decimal(n) == [ZERO + n];
      assert Decimal(n)[..0] == [];
    }
  }

  /** What i32toa, u32toa, i64toa and u64toa leave in the buffer. */
  function NumberText(n: int): (s: seq<Byte>) {
    if n < 0 then [MINUS] + Decimal(-n) else Decimal(n)
  }

  function BoolText(b: bool): (s: seq<Byte>) {
    if b then TRUE_TEXT else FALSE_TEXT
  }

  /** What an event puts besides separators and white space. */
  function Token(e: Event): (s: seq<Byte>) {
    match e
    case NullEvent => NULL_TEXT
    case BoolEvent(b) => BoolText(b)
    case NumberEvent(_, n) => NumberText(n)
    case StringEvent(s) => Quoted(s)
    case KeyEvent(s) => Quoted(s)
    case StartObject => [OPEN_OBJECT]
    case EndObject(_) => [CLOSE_OBJECT]
    case StartArray => [OPEN_ARRAY]
    case EndArray(_) => [CLOSE_ARRAY]
  }

  // ---- in characters ----------------------------------------------------------------------------------------------

  /** The bytes of an ASCII text. */
  function Ascii(s: string): (t: seq<Byte>)
    requires forall k :: 0 <= k < |s| ==> s[k] < 128 as char
    ensures |t| == |s| && forall k :: 0 <= k < |s| ==> t[k] == s[k] as int
  {
    seq(|s|, k requires 0 <= k < |s| => s[k] as int)
  }

  /** The upper-case hexadecimal digits. */
  lemma HexDigits(d: int)
    requires 0 <= d < 16
    ensures HexDigit(d) == Ascii("0123456789ABCDEF")[d]
  {
  }

  /** The escapes of section 7 of RFC 8259: the short ones as far as there are any, and \u00XX for other controls. */
  lemma EscapeTable(c: Byte)
    ensures Escaped(0x22) == Ascii("\\\"") && Escaped(0x5C) == Ascii("\\\\")
    ensures Escaped(0x08) == Ascii("\\b") && Escaped(0x09) == Ascii("\\t") && Escaped(0x0A) == Ascii("\\n")
    ensures Escaped(0x0C) == Ascii("\\f") && Escaped(0x0D) == Ascii("\\r")
    ensures c < 0x20 && c != 0x08 && c != 0x09 && c != 0x0A && c != 0x0C && c != 0x0D ==>
              Escaped(c) == Ascii("\\u00") + [HexDigit(c / 0x10), HexDigit(c % 0x10)]
    ensures c >= 0x20 && c != 0x22 && c != 0x5C ==> Escaped(c) == [c]
  {
    assert Ascii("\\u00") == [BACKSLASH, 0x75, ZERO, ZERO];
  }

  /** What the events without a string or a number put. */
  lemma TokenTable(members: nat)
    ensures Token(NullEvent) == Ascii("null")
    ensures Token(BoolEvent(true)) == Ascii("true") && Token(BoolEvent(false)) == Ascii("false")
    ensures Token(StartObject) == Ascii("{") && Token(EndObject(members)) == Ascii("}")
    ensures Token(StartArray) == Ascii("[") && Token(EndArray(members)) == Ascii("]")
    ensures [SPACE] == Ascii(" ") && [NEWLINE] == Ascii("\n")
    ensures [COLON] == Ascii(":") && [COMMA] == Ascii(",") && [MINUS] == Ascii("-") && [QUOTE] == Ascii("\"")
  {
  }
}
