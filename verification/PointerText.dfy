/**
 * The two text forms of a JSON Pointer, as GenericPointer::Parse and Stringify of pointer.h read and write them:
 * section 3 (syntax) and section 6 (URI fragments) of RFC 6901.
 */
module PointerText {
  import opened ByteStreams
  import opened JsonText
  import opened Wrappers
  import Utf8

  const SLASH: Byte := 0x2F
  const TILDE: Byte := 0x7E
  const PERCENT: Byte := 0x25
  const HASH: Byte := 0x23
  const ONE: Byte := 0x31

  datatype ErrorCode =
    | TokenMustBeginWithSolidus
    | InvalidEscape
    | InvalidPercentEncoding
    | CharacterMustPercentEncode

  type Name = seq<Byte>

  /** The outcome of Parse: the names of the tokens, or what is wrong and where. */
  datatype Parsed = Tokens(names: seq<Name>) | Error(code: ErrorCode, offset: nat)

  predicate NeedPercentEncode(c: Byte) {
    !(Digit(c) || 0x41 <= c <= 0x5A || 0x61 <= c <= 0x7A || c == 0x2D || c == 0x2E || c == 0x5F || c == TILDE)
  }

  // ---- reading ----------------------------------------------------------------------------------------------------

  predicate Triplet(s: seq<Byte>) {
    |s| >= 3 && s[0] == PERCENT && HexValue(s[1]) >= 0 && HexValue(s[2]) >= 0
  }

  /** The bytes the leading %XY triplets stand for. */
  function Triplets(s: seq<Byte>): (bytes: seq<Byte>)
    ensures 3 * |bytes| <= |s|
  {
    if !Triplet(s) then [] else [HexValue(s[1]) * 16 + HexValue(s[2])] + Triplets(s[3..])
  }

  /** What one round of the inner loop of Parse appends to the name and takes, or the error and how far i has got. */
  datatype Chunk = Chunk(bytes: seq<Byte>, taken: nat) | Bad(code: ErrorCode, at: nat)

  /** The round from the point where c is known, taken bytes into s. */
  function Unescape(s: seq<Byte>, c: Byte, taken: nat): (r: Chunk)
    requires taken <= |s|
  {
    if c != TILDE then Chunk([c], taken)
    else if taken == |s| then Bad(InvalidEscape, taken)
    else if s[taken] == ZERO then Chunk([TILDE], taken + 1)
    else if s[taken] == ONE then Chunk([SLASH], taken + 1)
    else Bad(InvalidEscape, taken)
  }

  /** One round, at a byte that is no solidus. */
  function NextChunk(uri: bool, s: seq<Byte>): (r: Chunk)
    requires s != []
    ensures r.Chunk? ==> 0 < r.taken <= |s| && 0 < |r.bytes| <= r.taken
    ensures r.Bad? ==> r.at <= |s|
  {
    var c := s[0];
    if uri && c == PERCENT then
      var bytes := Triplets(s);
      if bytes == [] || !Utf8.Scanned(bytes).ok then Bad(InvalidPercentEncoding, 0)
      else
        Utf8.ScanIsGrammar(bytes);
        var copied := Utf8.Scanned(bytes).copied;
        if |copied| == 1 then Unescape(s, copied[0], 3) else Chunk(copied, 3 * |copied|)
    else if uri && NeedPercentEncode(c) then Bad(CharacterMustPercentEncode, 0)
    else Unescape(s, c, 1)
  }

  /** A name as far as the next solidus; at is the offset of s in the source. */
  datatype Read = Read(name: Name, taken: nat) | Failed(code: ErrorCode, offset: nat)

  function ReadName(uri: bool, s: seq<Byte>, at: nat): (r: Read)
    ensures r.Read? ==> |r.name| <= r.taken <= |s| && (r.taken < |s| ==> s[r.taken] == SLASH)
    decreases |s|
  {
    if s == [] || s[0] == SLASH then Read([], 0)
    else match NextChunk(uri, s)
         case Bad(code, k) => Failed(code, at + k)
         case Chunk(bytes, k) =>
           match ReadName(uri, s[k..], at + k)
           case Failed(code, offset) => Failed(code, offset)
           case Read(name, taken) => Read(bytes + name, k + taken)
  }

  /** The tokens from a solidus on. */
  function ParseFrom(uri: bool, s: seq<Byte>, at: nat): (r: Parsed)
    requires s != [] ==> s[0] == SLASH
    decreases |s|
  {
    if s == [] then Tokens([])
    else match ReadName(uri, s[1..], at + 1)
         case Failed(code, offset) => Error(code, offset)
         case Read(name, taken) =>
           match ParseFrom(uri, s[1 + taken..], at + 1 + taken)
           case Error(code, offset) => Error(code, offset)
           case Tokens(names) => Tokens([name] + names)
  }

  function Parse(source: seq<Byte>): (r: Parsed) {
    var uri := source != [] && source[0] == HASH;
    var at := if uri then 1 else 0;
    if at != |source| && source[at] != SLASH then Error(TokenMustBeginWithSolidus, at)
    else ParseFrom(uri, source[at..], at)
  }

  // ---- writing ----------------------------------------------------------------------------------------------------

  function Percent(c: Byte): (s: seq<Byte>) {
    [PERCENT, HexDigit(c / 0x10), HexDigit(c % 0x10)]
  }

  function PercentAll(s: seq<Byte>): (t: seq<Byte>) {
    if s == [] then [] else Percent(s[0]) + PercentAll(s[1..])
  }

  predicate Encodes(uri: bool, c: Byte) {
    uri && c != TILDE && c != SLASH && NeedPercentEncode(c)
  }

  /** What one round of the loop over a name puts. */
  function PieceText(uri: bool, name: Name): (s: seq<Byte>)
    requires name != []
  {
    var c := name[0];
    if c == TILDE then [TILDE, ZERO] else if c == SLASH then [TILDE, ONE]
    else if Encodes(uri, c) then PercentAll(Utf8.Scanned(name).copied)
    else [c]
  }

  /** What one round leaves of the name. */
  function Left(uri: bool, name: Name): (s: Name)
    requires name != []
    ensures |s| < |name|
  {
    if Encodes(uri, name[0]) then Utf8.Scanned(name).rest else name[1..]
  }

  /** One name; None where the URI form meets bytes that are no UTF-8. */
  function NameText(uri: bool, name: Name): (r: Option<seq<Byte>>)
    decreases |name|
  {
    if name == [] then Some([])
    else if Encodes(uri, name[0]) && !Utf8.Scanned(name).ok then None
    else match NameText(uri, Left(uri, name))
         case None => None
         case Some(more) => Some(PieceText(uri, name) + more)
  }

  function NamesText(uri: bool, names: seq<Name>): (r: Option<seq<Byte>>) {
    if names == [] then Some([])
    else match (NameText(uri, names[0]), NamesText(uri, names[1..]))
         case (Some(text), Some(more)) => Some([SLASH] + text + more)
         case _ => None
  }

  /** Stringify and StringifyUriFragment. */
  function Stringify(uri: bool, names: seq<Name>): (r: Option<seq<Byte>>) {
    match NamesText(uri, names)
    case None => None
    case Some(text) => Some((if uri then [HASH] else []) + text)
  }
}
