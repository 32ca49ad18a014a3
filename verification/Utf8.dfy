/** UTF8::Encode, Decode, Validate and GetRange of encodings.h against RFC 3629. */
module Utf8 {
  import opened ByteStreams
  import opened Wrappers

  // ---- section 3 and 4 of RFC 3629 -------------------------------------------------------------------------------

  /** A Unicode scalar value: a code point that is not a surrogate. */
  predicate Scalar(c: int) {
    0 <= c <= 0x10FFFF && !(0xD800 <= c <= 0xDFFF)
  }

  predicate Scalars(codes: seq<int>) {
    forall k :: 0 <= k < |codes| ==> Scalar(codes[k])
  }

  predicate Tail(b: Byte) {
    0x80 <= b <= 0xBF
  }

  /** UTF8-char: the octet sequences of the grammar in section 4. */
  predicate Utf8Char(s: seq<Byte>) {
    match |s|
    case 1 => s[0] <= 0x7F
    case 2 => 0xC2 <= s[0] <= 0xDF && Tail(s[1])
    case 3 =>
      && Tail(s[1]) && Tail(s[2])
      && ( || (s[0] == 0xE0 && 0xA0 <= s[1])
           || 0xE1 <= s[0] <= 0xEC
           || (s[0] == 0xED && s[1] <= 0x9F)
           || 0xEE <= s[0] <= 0xEF)
    case 4 =>
      && Tail(s[1]) && Tail(s[2]) && Tail(s[3])
      && ( || (s[0] == 0xF0 && 0x90 <= s[1])
           || 0xF1 <= s[0] <= 0xF3
           || (s[0] == 0xF4 && s[1] <= 0x8F))
    case _ => false
  }

  function Above(b: Byte, base: int): (d: int)
  {
    b - base
  }

  /** The number a UTF8-char stands for, from the x bits of the table in section 3. */
  function CodePoint(s: seq<Byte>): (c: nat)
    requires Utf8Char(s)
  {
    match |s|
    case 1 => s[0]
    case 2 => 0x40 * Above(s[0], 0xC0) + Above(s[1], 0x80)
    case 3 => 0x1000 * Above(s[0], 0xE0) + 0x40 * Above(s[1], 0x80) + Above(s[2], 0x80)
    case 4 => 0x4_0000 * Above(s[0], 0xF0) + 0x1000 * Above(s[1], 0x80) + 0x40 * Above(s[2], 0x80) + Above(s[3], 0x80)
  }

  /** UTF8-octets: any number of UTF8-char, one after the other. */
  ghost predicate WellFormed(s: seq<Byte>)
    decreases |s|
  {
    s == [] || exists n :: 0 < n <= |s| && Utf8Char(s[..n]) && WellFormed(s[n..])
  }

  // ---- the code ---------------------------------------------------------------------------------------------------

  /** What Encode puts for one code point. */
  function Encoded(c: int): (s: seq<Byte>)
    requires 0 <= c <= 0x10FFFF
    ensures 1 <= |s| <= 4
  {
    if c <= 0x7F then [c]
    else if c <= 0x7FF then [0xC0 + c / 0x40, 0x80 + c % 0x40]
    else if c <= 0xFFFF then [0xE0 + c / 0x1000, 0x80 + c / 0x40 % 0x40, 0x80 + c % 0x40]
    else [0xF0 + c / 0x4_0000, 0x80 + c / 0x1000 % 0x40, 0x80 + c / 0x40 % 0x40, 0x80 + c % 0x40]
  }

  /** The class of a byte, looked up in the table of the source. */
  function GetRange(c: Byte): (t: bv8) {
    if c <= 0x7F then 0
    else if c <= 0x8F then 0x10
    else if c <= 0x9F then 0x40
    else if c <= 0xBF then 0x20
    else if c <= 0xC1 then 8
    else if c <= 0xDF then 2
    else if c == 0xE0 then 10
    else if c <= 0xEC then 3
    else if c == 0xED then 4
    else if c <= 0xEF then 3
    else if c == 0xF0 then 11
    else if c <= 0xF3 then 6
    else if c == 0xF4 then 5
    else 8
  }

  /** The state of a scan: the verdict, the code point, the bytes copied so far and the bytes not taken yet. */
  datatype Scan = Scan(ok: bool, code: nat, copied: seq<Byte>, rest: seq<Byte>)

  /** COPY() and TRANS(mask) of the source: take one byte, fold its low six bits in, test its class. */
  function Next(d: Scan, mask: bv8): (r: Scan)
  {
    var c := Peek(d.rest, 0);
    Scan(d.ok && GetRange(c) & mask != 0, d.code * 0x40 + c % 0x40, d.copied + [c], Skip(d.rest))
  }

  /** Where the scan stands after the first byte: the low bits the class of the lead byte leaves to it. */
  function Lead(s: seq<Byte>): (d: Scan)
  {
    var c := Peek(s, 0);
    var bits := match GetRange(c) case 0 => c case 2 => c % 0x40 case 3 => c % 0x20 case 4 => c % 0x10
                                  case 5 => c % 8 case 6 => c % 4 case _ => 0;
    Scan(true, bits, [c], Skip(s))
  }

  /** One call of Decode or of Validate on the bytes s. */
  function Scanned(s: seq<Byte>): (d: Scan)
    ensures s != [] ==> |d.rest| < |s|
  {
    var d := Lead(s);
    match GetRange(Peek(s, 0))
    case 0 => d
    case 2 => Next(d, 0x70)
    case 3 => Next(Next(d, 0x70), 0x70)
    case 4 => Next(Next(d, 0x50), 0x70)
    case 5 => Next(Next(Next(d, 0x10), 0x70), 0x70)
    case 6 => Next(Next(Next(d, 0x70), 0x70), 0x70)
    case 10 => Next(Next(d, 0x20), 0x70)
    case 11 => Next(Next(Next(d, 0x60), 0x70), 0x70)
    case _ => d.(ok := false)
  }

  /** The tests Validate makes behind a lead byte of the given class; None for a byte that leads nothing. */
  function TailMasks(t: bv8): (masks: Option<seq<bv8>>)
    ensures masks.Some? ==> |masks.value| <= 3
  {
    match t
    case 0 => Some([])
    case 2 => Some([0x70])
    case 3 => Some([0x70, 0x70])
    case 4 => Some([0x50, 0x70])
    case 5 => Some([0x10, 0x70, 0x70])
    case 6 => Some([0x70, 0x70, 0x70])
    case 10 => Some([0x20, 0x70])
    case 11 => Some([0x60, 0x70, 0x70])
    case _ => None
  }

  function NextAll(d: Scan, masks: seq<bv8>): (r: Scan)
    decreases masks
  {
    if masks == [] then d else NextAll(Next(d, masks[0]), masks[1..])
  }

  lemma ScannedInSteps(s: seq<Byte>)
    ensures var masks := TailMasks(GetRange(Peek(s, 0)));
            Scanned(s) == if masks.Some? then NextAll(Lead(s), masks.value) else Lead(s).(ok := false)
  {
    hide Next, Lead;
    var masks := TailMasks(GetRange(Peek(s, 0)));
    if masks.Some? && |masks.value| > 1 {
      var m := masks.value;
      assert m[1..][0] == m[1] && m[1..][1..] == m[2..];
      if |m| == 3 {
        assert m[2..][0] == m[2] && m[2..][1..] == [];
      }
    }
  }

  lemma {:induction false} FailureStays(d: Scan, masks: seq<bv8>)
    requires !d.ok
    ensures !NextAll(d, masks).ok
    decreases masks
  {
    if masks != [] {
      FailureStays(Next(d, masks[0]), masks[1..]);
    }
  }

  method Encode(output: OutputStream<Byte>, codepoint: int)
    requires 0 <= codepoint <= 0x10FFFF
    modifies output
    ensures output.content == old(output.content) + Encoded(codepoint)
  {
    if codepoint <= 0x7F {
      output.Put(codepoint);
    } else if codepoint <= 0x7FF {
      output.Put(0xC0 + codepoint / 0x40);
      output.Put(0x80 + codepoint % 0x40);
    } else if codepoint <= 0xFFFF {
      output.Put(0xE0 + codepoint / 0x1000);
      output.Put(0x80 + codepoint / 0x40 % 0x40);
      output.Put(0x80 + codepoint % 0x40);
    } else {
      output.Put(0xF0 + codepoint / 0x4_0000);
      output.Put(0x80 + codepoint / 0x1000 % 0x40);
      output.Put(0x80 + codepoint / 0x40 % 0x40);
      output.Put(0x80 + codepoint % 0x40);
    }
  }

  /** One COPY(); TRANS(mask) of Decode. */
  method DecodeNext(input: InputStream<Byte>, mask: bv8, ok: bool, codepoint: nat, ghost d: Scan)
    returns (ok': bool, codepoint': nat, ghost d': Scan)
    requires input.Valid() && input.end == 0
    requires ok == d.ok && codepoint == d.code && input.Rest() == d.rest
    modifies input
    ensures input.Valid() && d' == Next(d, mask)
    ensures ok' == d'.ok && codepoint' == d'.code && input.Rest() == d'.rest
  {
    d' := Next(d, mask);
    var c := input.Take();
    codepoint' := codepoint * 0x40 + c % 0x40;
    ok' := ok && GetRange(c) & mask != 0;
  }

  method Decode(input: InputStream<Byte>) returns (ok: bool, codepoint: nat)
    requires input.Valid() && input.end == 0
    modifies input
    ensures input.Valid()
    ensures var d := Scanned(old(input.Rest()));
            ok == d.ok && codepoint == d.code && input.Rest() == d.rest
  {
    ghost var d := Lead(input.Rest());
    var c := input.Take();
    if c < 0x80 {
      return true, c;
    }
    ok := true;
    match GetRange(c)
    case 2 =>
      codepoint := c % 0x40;
      ok, codepoint, d := DecodeNext(input, 0x70, ok, codepoint, d);
    case 3 =>
      codepoint := c % 0x20;
      ok, codepoint, d := DecodeNext(input, 0x70, ok, codepoint, d);
      ok, codepoint, d := DecodeNext(input, 0x70, ok, codepoint, d);
    case 4 =>
      codepoint := c % 0x10;
      ok, codepoint, d := DecodeNext(input, 0x50, ok, codepoint, d);
      ok, codepoint, d := DecodeNext(input, 0x70, ok, codepoint, d);
    case 5 =>
      codepoint := c % 8;
      ok, codepoint, d := DecodeNext(input, 0x10, ok, codepoint, d);
      ok, codepoint, d := DecodeNext(input, 0x70, ok, codepoint, d);
      ok, codepoint, d := DecodeNext(input, 0x70, ok, codepoint, d);
    case 6 =>
      codepoint := c % 4;
      ok, codepoint, d := DecodeNext(input, 0x70, ok, codepoint, d);
      ok, codepoint, d := DecodeNext(input, 0x70, ok, codepoint, d);
      ok, codepoint, d := DecodeNext(input, 0x70, ok, codepoint, d);
    case 10 =>
      codepoint := 0;
      ok, codepoint, d := DecodeNext(input, 0x20, ok, codepoint, d);
      ok, codepoint, d := DecodeNext(input, 0x70, ok, codepoint, d);
    case 11 =>
      codepoint := 0;
      ok, codepoint, d := DecodeNext(input, 0x60, ok, codepoint, d);
      ok, codepoint, d := DecodeNext(input, 0x70, ok, codepoint, d);
      ok, codepoint, d := DecodeNext(input, 0x70, ok, codepoint, d);
    case _ =>
      ok, codepoint := false, 0;
  }

  /** One COPY(); TRANS(mask) of Validate; start is what the output held before the character. */
  method ValidateNext(input: InputStream<Byte>, output: OutputStream<Byte>, mask: bv8, ok: bool,
                      ghost d: Scan, ghost start: seq<Byte>)
    returns (ok': bool, ghost d': Scan)
    requires input.Valid() && input.end == 0
    requires ok == d.ok && input.Rest() == d.rest && output.content == start + d.copied
    modifies input, output
    ensures input.Valid() && d' == Next(d, mask)
    ensures ok' == d'.ok && input.Rest() == d'.rest && output.content == start + d'.copied
  {
    d' := Next(d, mask);
    var c := input.Take();
    output.Put(c);
    ok' := ok && GetRange(c) & mask != 0;
  }

  method Validate(input: InputStream<Byte>, output: OutputStream<Byte>) returns (ok: bool)
    requires input.Valid() && input.end == 0
    modifies input, output
    ensures input.Valid()
    ensures var d := Scanned(old(input.Rest()));
            ok == d.ok && input.Rest() == d.rest && output.content == old(output.content) + d.copied
  {
    ghost var d, start := Lead(input.Rest()), output.content;
    var c := input.Take();
    output.Put(c);
    if c < 0x80 {
      return true;
    }
    ok := true;
    match GetRange(c)
    case 2 =>
      ok, d := ValidateNext(input, output, 0x70, ok, d, start);
    case 3 =>
      ok, d := ValidateNext(input, output, 0x70, ok, d, start);
      ok, d := ValidateNext(input, output, 0x70, ok, d, start);
    case 4 =>
      ok, d := ValidateNext(input, output, 0x50, ok, d, start);
      ok, d := ValidateNext(input, output, 0x70, ok, d, start);
    case 5 =>
      ok, d := ValidateNext(input, output, 0x10, ok, d, start);
      ok, d := ValidateNext(input, output, 0x70, ok, d, start);
      ok, d := ValidateNext(input, output, 0x70, ok, d, start);
    case 6 =>
      ok, d := ValidateNext(input, output, 0x70, ok, d, start);
      ok, d := ValidateNext(input, output, 0x70, ok, d, start);
      ok, d := ValidateNext(input, output, 0x70, ok, d, start);
    case 10 =>
      ok, d := ValidateNext(input, output, 0x20, ok, d, start);
      ok, d := ValidateNext(input, output, 0x70, ok, d, start);
    case 11 =>
      ok, d := ValidateNext(input, output, 0x60, ok, d, start);
      ok, d := ValidateNext(input, output, 0x70, ok, d, start);
      ok, d := ValidateNext(input, output, 0x70, ok, d, start);
    case _ =>
      ok := false;
  }

  // ---- one character ----------------------------------------------------------------------------------------------

  /** A mask of the source stands for an interval of continuation bytes. */
  lemma Masks(c: Byte)
    ensures GetRange(c) & 0x70 != 0 <==> Tail(c)
    ensures GetRange(c) & 0x50 != 0 <==> 0x80 <= c <= 0x9F
    ensures GetRange(c) & 0x10 != 0 <==> 0x80 <= c <= 0x8F
    ensures GetRange(c) & 0x20 != 0 <==> 0xA0 <= c <= 0xBF
    ensures GetRange(c) & 0x60 != 0 <==> 0x90 <= c <= 0xBF
  {
  }

  /** A byte at the end of the input never passes for a continuation byte: the '\0' shown there is in class 0. */
  lemma NextMeans(d: Scan, mask: bv8)
    requires mask == 0x70 || mask == 0x50 || mask == 0x10 || mask == 0x20 || mask == 0x60
    ensures var lo, hi := if mask == 0x20 then 0xA0 else if mask == 0x60 then 0x90 else 0x80,
                          if mask == 0x50 then 0x9F else if mask == 0x10 then 0x8F else 0xBF;
            Next(d, mask).ok <==> d.ok && d.rest != [] && lo <= d.rest[0] <= hi
    ensures Next(d, mask).ok ==>
              Next(d, mask) == Scan(true, 0x40 * d.code + Above(d.rest[0], 0x80), d.copied + [d.rest[0]], d.rest[1..])
  {
    Masks(Peek(d.rest, 0));
  }

  /** How many bytes the lead byte of a UTF8-char announces, 0 when no UTF8-char starts so. */
  function Size(c: Byte): (n: nat) {
    if c <= 0x7F then 1 else if 0xC2 <= c <= 0xDF then 2 else if 0xE0 <= c <= 0xEF then 3
    else if 0xF0 <= c <= 0xF4 then 4 else 0
  }

  /** The grammar is a prefix code: the lead byte alone decides where the character ends. */
  lemma SizeIsForced(s: seq<Byte>, n: nat)
    requires n <= |s| && Utf8Char(s[..n])
    ensures n == Size(s[0])
  {
    assert s[..n][0] == s[0];
  }

  /** Whether it succeeds or fails, a call takes as many bytes as the lead byte tells, or one, or all there are. */
  lemma BytesTaken(s: seq<Byte>)
    requires s != []
    ensures var n := if Size(s[0]) == 0 then 1 else Size(s[0]);
            Scanned(s).rest == s[if n < |s| then n else |s|..]
  {
    hide Next;
    var d := Lead(s);
    forall e: Scan, m: bv8 ensures Next(e, m).rest == Skip(e.rest) { NextTakes(e, m); }
  }

  lemma NextTakes(d: Scan, mask: bv8)
    ensures Next(d, mask).rest == Skip(d.rest)
  {
  }

  lemma ScanOne(s: seq<Byte>, n: nat)
    requires s != [] && n == Size(s[0]) && n <= 2
    ensures Scanned(s).ok <==> 0 < n <= |s| && Utf8Char(s[..n])
    ensures Scanned(s).ok ==> Scanned(s) == Scan(true, CodePoint(s[..n]), s[..n], s[n..])
  {
    NextMeans(Lead(s), 0x70);
  }

  lemma ScanThree(s: seq<Byte>)
    requires s != [] && Size(s[0]) == 3
    ensures Scanned(s).ok <==> 3 <= |s| && Utf8Char(s[..3])
    ensures Scanned(s).ok ==> Scanned(s) == Scan(true, CodePoint(s[..3]), s[..3], s[3..])
  {
    var d := Lead(s);
    var mask := if s[0] == 0xE0 then 0x20 else if s[0] == 0xED then 0x50 else 0x70;
    NextMeans(d, mask);
    NextMeans(Next(d, mask), 0x70);
  }

  lemma ScanFour(s: seq<Byte>)
    requires s != [] && Size(s[0]) == 4
    ensures Scanned(s).ok <==> 4 <= |s| && Utf8Char(s[..4])
    ensures Scanned(s).ok ==> Scanned(s) == Scan(true, CodePoint(s[..4]), s[..4], s[4..])
  {
    hide Next, Scanned, GetRange;
    var d := Lead(s);
    var mask := if s[0] == 0xF0 then 0x60 else if s[0] == 0xF4 then 0x10 else 0x70;
    FourMasks(s);
    NextMeans(d, mask);
    NextMeans(Next(d, mask), 0x70);
    NextMeans(Next(Next(d, mask), 0x70), 0x70);
    if |s| >= 4 {
      assert s[1..][1..] == s[2..] && s[2..][1..] == s[3..] && s[3..][1..] == s[4..];
      assert s[..4] == [s[0]] + [s[1]] + [s[2]] + [s[3]];
    }
  }

  lemma FourMasks(s: seq<Byte>)
    requires s != [] && Size(s[0]) == 4
    ensures var mask := if s[0] == 0xF0 then 0x60 else if s[0] == 0xF4 then 0x10 else 0x70;
            Scanned(s) == Next(Next(Next(Lead(s), mask), 0x70), 0x70)
    ensures Lead(s) == Scan(true, s[0] % 0x08, [s[0]], s[1..])
  {
    hide Next;
  }

  /** The scan accepts exactly when the bytes start with a UTF8-char of the grammar, and takes that one. */
  lemma ScanIsGrammar(s: seq<Byte>)
    requires s != []
    ensures Scanned(s).ok <==> exists n :: 0 < n <= |s| && Utf8Char(s[..n])
    ensures Scanned(s).ok ==> var n := Size(s[0]);
            0 < n <= |s| && Utf8Char(s[..n]) && Scanned(s) == Scan(true, CodePoint(s[..n]), s[..n], s[n..])
  {
    hide Utf8Char, Scanned;
    var n := Size(s[0]);
    if n <= 2 {
      ScanOne(s, n);
    } else if n == 3 {
      ScanThree(s);
    } else {
      ScanFour(s);
    }
    forall k | 0 < k <= |s| && Utf8Char(s[..k])
      ensures k == n
    {
      SizeIsForced(s, k);
    }
  }

  lemma Split(high: int, low: int)
    requires 0 <= low < 0x40
    ensures (0x40 * high + low) / 0x40 == high && (0x40 * high + low) % 0x40 == low
  {
  }

  /** Encode and the table of section 3 are inverse to each other on scalar values and UTF8-chars. */
  lemma EncodedIsChar(c: int)
    requires Scalar(c)
    ensures Utf8Char(Encoded(c)) && CodePoint(Encoded(c)) == c
  {
    if c > 0xFFFF {
      EncodedFour(c);
    } else if c > 0x7FF {
      EncodedThree(c);
    }
  }

  lemma EncodedThree(c: int)
    requires Scalar(c) && 0x7FF < c <= 0xFFFF
    ensures Utf8Char(Encoded(c)) && CodePoint(Encoded(c)) == c
  {
    assert c == 0x40 * (c / 0x40) + c % 0x40;
    assert c / 0x40 == 0x40 * (c / 0x1000) + c / 0x40 % 0x40;
  }

  lemma EncodedFour(c: int)
    requires 0xFFFF < c <= 0x10FFFF
    ensures Utf8Char(Encoded(c)) && CodePoint(Encoded(c)) == c
  {
    assert c == 0x40 * (c / 0x40) + c % 0x40;
    assert c / 0x40 == 0x40 * (c / 0x1000) + c / 0x40 % 0x40;
    assert c / 0x1000 == 0x40 * (c / 0x4_0000) + c / 0x1000 % 0x40;
  }

  lemma CharIsEncoded(s: seq<Byte>)
    requires Utf8Char(s)
    ensures Scalar(CodePoint(s)) && Encoded(CodePoint(s)) == s
  {
    if |s| == 2 {
      Split(Above(s[0], 0xC0), Above(s[1], 0x80));
    } else if |s| == 3 {
      CharOfThree(s);
    } else if |s| == 4 {
      CharOfFour(s);
    }
  }

  lemma CharOfThree(s: seq<Byte>)
    requires |s| == 3 && Utf8Char(s)
    ensures Scalar(CodePoint(s)) && Encoded(CodePoint(s)) == s
  {
    Split(0x40 * Above(s[0], 0xE0) + Above(s[1], 0x80), Above(s[2], 0x80));
    Split(Above(s[0], 0xE0), Above(s[1], 0x80));
  }

  lemma FourParts(a: nat, b: nat, c: nat, d: nat)
    requires b < 0x40 && c < 0x40 && d < 0x40
    ensures var n := 0x4_0000 * a + 0x1000 * b + 0x40 * c + d;
            n / 0x4_0000 == a && n / 0x1000 % 0x40 == b && n / 0x40 % 0x40 == c && n % 0x40 == d
  {
    Split(0x1000 * a + 0x40 * b + c, d);
    Split(0x40 * a + b, c);
    Split(a, b);
  }

  lemma CharOfFour(s: seq<Byte>)
    requires |s| == 4 && Utf8Char(s)
    ensures Scalar(CodePoint(s)) && Encoded(CodePoint(s)) == s
  {
    var a, b, c, d := Above(s[0], 0xF0), Above(s[1], 0x80), Above(s[2], 0x80), Above(s[3], 0x80);
    FourParts(a, b, c, d);
    assert 0xFFFF < CodePoint(s) <= 0x10FFFF;
    assert s == [0xF0 + a, 0x80 + b, 0x80 + c, 0x80 + d];
  }

  /** On anything but an empty input, a successful Decode is undone by Encode, and what it returns can be encoded. */
  lemma EncodeOfDecode(s: seq<Byte>)
    requires s != [] && Scanned(s).ok
    ensures Scalar(Scanned(s).code) && Encoded(Scanned(s).code) == Scanned(s).copied
    ensures s == Scanned(s).copied + Scanned(s).rest
  {
    hide Scanned, Encoded, CodePoint, Utf8Char;
    ScanIsGrammar(s);
    CharIsEncoded(Scanned(s).copied);
  }

  lemma DecodeOfEncode(c: int, rest: seq<Byte>)
    requires Scalar(c)
    ensures Scanned(Encoded(c) + rest) == Scan(true, c, Encoded(c), rest)
  {
    hide Scanned, Encoded, CodePoint, Utf8Char;
    var s := Encoded(c) + rest;
    EncodedIsChar(c);
    assert s[..|Encoded(c)|] == Encoded(c) && s[|Encoded(c)|..] == rest;
    SizeIsForced(s, |Encoded(c)|);
    ScanIsGrammar(s);
  }

  // ---- texts ------------------------------------------------------------------------------------------------------

  /** Decode, called until the input is used up. */
  function DecodeAll(s: seq<Byte>): (r: Option<seq<int>>)
    decreases |s|
  {
    if s == [] then Some([])
    else
      var d := Scanned(s);
      if !d.ok then None
      else match DecodeAll(d.rest) case None => None case Some(codes) => Some([d.code] + codes)
  }

  function EncodeAll(codes: seq<int>): (s: seq<Byte>)
    requires Scalars(codes)
  {
    if codes == [] then [] else Encoded(codes[0]) + EncodeAll(codes[1..])
  }

  lemma {:induction false} DecodeAllOfEncodeAll(codes: seq<int>)
    requires Scalars(codes)
    ensures DecodeAll(EncodeAll(codes)) == Some(codes)
  {
    hide Scanned, Encoded;
    if codes != [] {
      DecodeAllOfEncodeAll(codes[1..]);
      DecodeOfEncode(codes[0], EncodeAll(codes[1..]));
      assert [codes[0]] + codes[1..] == codes;
    }
  }

  lemma {:induction false} EncodeAllOfDecodeAll(s: seq<Byte>)
    requires DecodeAll(s).Some?
    ensures Scalars(DecodeAll(s).value)
    ensures EncodeAll(DecodeAll(s).value) == s
    decreases |s|
  {
    hide Scanned, Encoded;
    if s != [] {
      EncodeOfDecode(s);
      EncodeAllOfDecodeAll(Scanned(s).rest);
    }
  }

  /** Decode accepts exactly the UTF8-octets of section 4. */
  lemma {:induction false} DecodeAllIsGrammar(s: seq<Byte>)
    ensures DecodeAll(s).Some? <==> WellFormed(s)
    decreases |s|
  {
    hide Scanned, Utf8Char, CodePoint;
    if s != [] {
      ScanIsGrammar(s);
      var n := Size(s[0]);
      forall k | 0 < k <= |s| && Utf8Char(s[..k])
        ensures k == n && Scanned(s).rest == s[k..]
      {
        SizeIsForced(s, k);
      }
      DecodeAllIsGrammar(Scanned(s).rest);
    }
  }
}
