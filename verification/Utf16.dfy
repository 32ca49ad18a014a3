/** UTF16, its two byte orders and the Transcoder of encodings.h, against section 2 of RFC 2781. */
module Utf16 {
  import opened ByteStreams
  import opened Wrappers
  import Utf8

  predicate Surrogate(u: int) {
    0xD800 <= u <= 0xDFFF
  }

  /** What Encode puts; the code point must not be a surrogate, which the source asserts. */
  function Encoded(c: int): (s: seq<Unit>)
    requires 0 <= c <= 0x10FFFF && !Surrogate(c)
    ensures s != []
  {
    if c <= 0xFFFF then [c] else [0xD800 + (c - 0x1_0000) / 0x400, 0xDC00 + (c - 0x1_0000) % 0x400]
  }

  datatype Scan = Scan(ok: bool, code: nat, rest: seq<Unit>)

  /** One call of Decode. */
  function Scanned(s: seq<Unit>): (d: Scan)
    ensures s != [] ==> |d.rest| < |s|
  {
    var c: int, rest := Peek(s, 0), Skip(s);
    if !Surrogate(c) then Scan(true, c, rest)
    else if c <= 0xDBFF then
      var c2: int := Peek(rest, 0);
      Scan(0xDC00 <= c2 <= 0xDFFF, c % 0x400 * 0x400 + c2 % 0x400 + 0x1_0000, Skip(rest))
    else Scan(false, 0, rest)
  }

  method Encode(output: OutputStream<Unit>, codepoint: int)
    requires 0 <= codepoint <= 0x10FFFF && !Surrogate(codepoint)
    modifies output
    ensures output.content == old(output.content) + Encoded(codepoint)
  {
    if codepoint <= 0xFFFF {
      output.Put(codepoint);
    } else {
      var v := codepoint - 0x1_0000;
      output.Put(v / 0x400 + 0xD800);
      output.Put(v % 0x400 + 0xDC00);
    }
  }

  predicate LowFirst(s: seq<Unit>) {
    0xDC00 <= Peek(s, 0) <= 0xDFFF
  }

  /** before is what *codepoint held; a low surrogate that comes first leaves it so. */
  method Decode(input: InputStream<Unit>, before: nat) returns (ok: bool, codepoint: nat)
    requires input.Valid() && input.end == 0
    modifies input
    ensures input.Valid()
    ensures var d := Scanned(old(input.Rest()));
            ok == d.ok && input.Rest() == d.rest
            && codepoint == if LowFirst(old(input.Rest())) then before else d.code
  {
    codepoint := before;
    var c: int := input.Take();
    if c < 0xD800 || c > 0xDFFF {
      return true, c;
    } else if c <= 0xDBFF {
      codepoint := c % 0x400 * 0x400;
      c := input.Take();
      codepoint := codepoint + c % 0x400;
      codepoint := codepoint + 0x1_0000;
      return c >= 0xDC00 && c <= 0xDFFF, codepoint;
    }
    return false, codepoint;
  }

  lemma DecodeOfEncode(c: int, rest: seq<Unit>)
    requires Utf8.Scalar(c)
    ensures Scanned(Encoded(c) + rest) == Scan(true, c, rest)
  {
    var s := Encoded(c) + rest;
    assert s[0] == Encoded(c)[0] && s[|Encoded(c)|..] == rest;
    if c > 0xFFFF {
      assert s[1] == Encoded(c)[1] && s[1..][1..] == rest;
    }
  }

  /** Whether it succeeds or fails, a call takes two units from a high surrogate on, and else one. */
  lemma UnitsTaken(s: seq<Unit>)
    requires s != []
    ensures Scanned(s).rest == s[if 0xD800 <= s[0] <= 0xDBFF && |s| > 1 then 2 else 1..]
    ensures Scanned(s).ok <==>
              !Surrogate(s[0]) || (s[0] <= 0xDBFF && |s| > 1 && 0xDC00 <= s[1] <= 0xDFFF)
  {
  }

  /** A code point behind the first plane becomes a high surrogate and then a low one, ten bits of it in each. */
  lemma PairOf(c: int)
    requires 0x1_0000 <= c <= 0x10FFFF
    ensures |Encoded(c)| == 2 && 0xD800 <= Encoded(c)[0] <= 0xDBFF && 0xDC00 <= Encoded(c)[1] <= 0xDFFF
    ensures var high: int, low: int := Encoded(c)[0], Encoded(c)[1];
            c - 0x1_0000 == (high - 0xD800) * 0x400 + (low - 0xDC00)
  {
  }

  lemma EncodeOfDecode(s: seq<Unit>)
    requires s != [] && Scanned(s).ok
    ensures Utf8.Scalar(Scanned(s).code) && s == Encoded(Scanned(s).code) + Scanned(s).rest
  {
  }

  // ---- byte orders ------------------------------------------------------------------------------------------------

  datatype Order = LE | BE

  /** UTF16LE::Put and UTF16BE::Put. */
  function PutUnit(order: Order, u: Unit): (s: seq<Byte>) {
    match order
    case LE => [u % 0x100, u / 0x100 % 0x100]
    case BE => [u / 0x100 % 0x100, u % 0x100]
  }

  /** The first byte is the low one in UTF16LE and the high one in UTF16BE. */
  lemma UnitBytes(u: Unit)
    ensures |PutUnit(LE, u)| == 2 && (PutUnit(LE, u)[0] as int) + 0x100 * (PutUnit(LE, u)[1] as int) == u
    ensures |PutUnit(BE, u)| == 2 && 0x100 * (PutUnit(BE, u)[0] as int) + (PutUnit(BE, u)[1] as int) == u
  {
  }

  /** UTF16LE::Take and UTF16BE::Take. */
  function TakeUnit(order: Order, s: seq<Byte>): (r: (Unit, seq<Byte>))
    ensures s != [] ==> |r.1| < |s|
  {
    var first: int, second: int := Peek(s, 0), Peek(Skip(s), 0);
    var u: Unit := match order case LE => first + second * 0x100 case BE => first * 0x100 + second;
    (u, Skip(Skip(s)))
  }

  function PutAll(order: Order, units: seq<Unit>): (s: seq<Byte>) {
    if units == [] then [] else PutUnit(order, units[0]) + PutAll(order, units[1..])
  }

  function TakeAll(order: Order, s: seq<Byte>): (units: seq<Unit>)
    decreases |s|
  {
    if s == [] then [] else var (u, rest) := TakeUnit(order, s); [u] + TakeAll(order, rest)
  }

  lemma TakeOfPut(order: Order, u: Unit, rest: seq<Byte>)
    ensures TakeUnit(order, PutUnit(order, u) + rest) == (u, rest)
  {
    var s := PutUnit(order, u) + rest;
    assert s[0] == PutUnit(order, u)[0] && s[1] == PutUnit(order, u)[1] && s[1..][1..] == rest;
  }

  lemma {:induction false} TakeAllOfPutAll(order: Order, units: seq<Unit>)
    ensures TakeAll(order, PutAll(order, units)) == units
  {
    if units != [] {
      TakeAllOfPutAll(order, units[1..]);
      TakeOfPut(order, units[0], PutAll(order, units[1..]));
      assert [units[0]] + units[1..] == units;
    }
  }

  // ---- transcoding ------------------------------------------------------------------------------------------------

  function EncodeAll(codes: seq<int>): (s: seq<Unit>)
    requires Utf8.Scalars(codes)
  {
    if codes == [] then [] else Encoded(codes[0]) + EncodeAll(codes[1..])
  }

  /** Transcoder<UTF8, UTF16>::Transcode, called until the input is used up; None also where Encode would assert. */
  function ToUtf16(s: seq<Byte>): (r: Option<seq<Unit>>)
    decreases |s|
  {
    if s == [] then Some([])
    else
      var d := Utf8.Scanned(s);
      if !d.ok || !(d.code <= 0x10FFFF && !Surrogate(d.code)) then None
      else match ToUtf16(d.rest) case None => None case Some(units) => Some(Encoded(d.code) + units)
  }

  /** Transcoder<UTF16, UTF8>::Transcode, called until the input is used up. */
  function ToUtf8(s: seq<Unit>): (r: Option<seq<Byte>>)
    decreases |s|
  {
    if s == [] then Some([])
    else
      var d := Scanned(s);
      if !d.ok || d.code > 0x10FFFF then None
      else match ToUtf8(d.rest) case None => None case Some(bytes) => Some(Utf8.Encoded(d.code) + bytes)
  }

  /** One call of Transcoder<UTF8, UTF16>::Transcode: the assertions of Encode hold whatever Decode accepted. */
  method TranscodeToUtf16(input: InputStream<Byte>, output: OutputStream<Unit>) returns (ok: bool)
    requires input.Valid() && input.end == 0
    modifies input, output
    ensures input.Valid() && input.Rest() == Utf8.Scanned(old(input.Rest())).rest
    ensures ok == Utf8.Scanned(old(input.Rest())).ok
    ensures ok ==> var c := Utf8.Scanned(old(input.Rest())).code;
                   Utf8.Scalar(c) && output.content == old(output.content) + Encoded(c)
    ensures !ok ==> output.content == old(output.content)
  {
    ghost var s := input.Rest();
    if s != [] && Utf8.Scanned(s).ok {
      Utf8.EncodeOfDecode(s);
    }
    var codepoint;
    ok, codepoint := Utf8.Decode(input);
    if !ok {
      return false;
    }
    Encode(output, codepoint);
    return true;
  }

  /** One call of Transcoder<UTF16, UTF8>::Transcode. */
  method TranscodeToUtf8(input: InputStream<Unit>, output: OutputStream<Byte>) returns (ok: bool)
    requires input.Valid() && input.end == 0
    modifies input, output
    ensures input.Valid() && input.Rest() == Scanned(old(input.Rest())).rest
    ensures ok == Scanned(old(input.Rest())).ok
    ensures ok ==> var c := Scanned(old(input.Rest())).code;
                   Utf8.Scalar(c) && output.content == old(output.content) + Utf8.Encoded(c)
    ensures !ok ==> output.content == old(output.content)
  {
    ghost var s := input.Rest();
    if s != [] && Scanned(s).ok {
      EncodeOfDecode(s);
    }
    var codepoint := *;
    ok, codepoint := Decode(input, codepoint);
    if !ok {
      return false;
    }
    Utf8.Encode(output, codepoint);
    return true;
  }

  lemma {:induction false} ToUtf16IsEncode(s: seq<Byte>)
    ensures ToUtf16(s).Some? <==> Utf8.DecodeAll(s).Some?
    ensures ToUtf16(s).Some? ==>
              Utf8.Scalars(Utf8.DecodeAll(s).value) && ToUtf16(s).value == EncodeAll(Utf8.DecodeAll(s).value)
    decreases |s|
  {
    hide Utf8.Scanned, Utf8.Encoded, Encoded;
    if s != [] && Utf8.Scanned(s).ok {
      Utf8.EncodeOfDecode(s);
      ToUtf16IsEncode(Utf8.Scanned(s).rest);
    }
  }

  lemma {:induction false} ToUtf8OfEncode(codes: seq<int>)
    requires Utf8.Scalars(codes)
    ensures ToUtf8(EncodeAll(codes)) == Some(Utf8.EncodeAll(codes))
  {
    hide Scanned, Utf8.Encoded, Encoded;
    if codes != [] {
      ToUtf8OfEncode(codes[1..]);
      DecodeOfEncode(codes[0], EncodeAll(codes[1..]));
    }
  }

  /**
   * Every well-formed UTF-8 text goes to UTF-16, through the bytes of either order, and comes back unchanged;
   * no other text can be transcoded.
   */
  lemma TranscodingIsIdentity(s: seq<Byte>, order: Order)
    ensures ToUtf16(s).Some? <==> Utf8.WellFormed(s)
    ensures Utf8.WellFormed(s) ==> ToUtf8(TakeAll(order, PutAll(order, ToUtf16(s).value))) == Some(s)
  {
    Utf8.DecodeAllIsGrammar(s);
    ToUtf16IsEncode(s);
    if Utf8.WellFormed(s) {
      TakeAllOfPutAll(order, ToUtf16(s).value);
      ToUtf8OfEncode(Utf8.DecodeAll(s).value);
      Utf8.EncodeAllOfDecodeAll(s);
    }
  }
}
