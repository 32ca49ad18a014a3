/** Parsing undoes printing, in both forms, and which names the URI form can carry. */
module PointerRoundTrip {
  import opened ByteStreams
  import opened JsonText
  import opened PointerText

  lemma {:induction false} TripletsOfPercent(bytes: seq<Byte>, tail: seq<Byte>)
    ensures Triplets(PercentAll(bytes) + tail) == bytes + Triplets(tail)
    ensures |PercentAll(bytes)| == 3 * |bytes|
    ensures bytes != [] ==> PercentAll(bytes)[0] == PERCENT
  {
    if bytes == [] {
      assert PercentAll(bytes) + tail == tail;
    } else {
      TripletOfPercent(bytes[0], PercentAll(bytes[1..]) + tail);
      TripletsOfPercent(bytes[1..], tail);
      assert PercentAll(bytes) + tail == Percent(bytes[0]) + (PercentAll(bytes[1..]) + tail);
      assert [bytes[0]] + (bytes[1..] + Triplets(tail)) == bytes + Triplets(tail);
    }
  }

  lemma TripletOfPercent(c: Byte, tail: seq<Byte>)
    ensures Triplets(Percent(c) + tail) == [c] + Triplets(tail)
  {
    HexOfByte(c);
    assert (Percent(c) + tail)[3..] == tail;
  }

  lemma HexOfByte(c: Byte)
    ensures HexValue(HexDigit(c / 0x10)) * 16 + HexValue(HexDigit(c % 0x10)) == c
  {
  }

  lemma CopiedStarts(name: Name)
    requires name != []
    ensures Utf8.Scanned(name).copied != [] && Utf8.Scanned(name).copied[0] == name[0]
  {
  }

  lemma ChunkOfEncoded(name: Name, tail: seq<Byte>)
    requires name != [] && Encodes(true, name[0]) && Utf8.Scanned(name).ok
    ensures var copied := Utf8.Scanned(name).copied;
            NextChunk(true, PercentAll(copied) + tail) == Chunk(copied, 3 * |copied|)
  {
    hide Utf8.Scanned, Utf8.Encoded;
    var d := Utf8.Scanned(name);
    CopiedStarts(name);
    TripletsOfPercent(d.copied, tail);
    Utf8.EncodeOfDecode(name);
    Utf8.DecodeOfEncode(d.code, Triplets(tail));
  }

  /** The bytes one round stands for. */
  function Piece(uri: bool, name: Name): (bytes: seq<Byte>)
    requires name != []
  {
    if Encodes(uri, name[0]) then Utf8.Scanned(name).copied else [name[0]]
  }

  lemma PieceAndLeft(uri: bool, name: Name)
    requires name != [] && (Encodes(uri, name[0]) ==> Utf8.Scanned(name).ok)
    ensures Piece(uri, name) + Left(uri, name) == name
  {
    hide Utf8.Scanned;
    if Encodes(uri, name[0]) {
      Utf8.EncodeOfDecode(name);
    }
  }

  lemma ChunkOfPiece(uri: bool, name: Name, tail: seq<Byte>)
    requires name != [] && (Encodes(uri, name[0]) ==> Utf8.Scanned(name).ok)
    ensures var text := PieceText(uri, name);
            text != [] && text[0] != SLASH && NextChunk(uri, text + tail) == Chunk(Piece(uri, name), |text|)
  {
    hide Utf8.Scanned;
    if Encodes(uri, name[0]) {
      ChunkOfEncoded(name, tail);
      CopiedStarts(name);
      TripletsOfPercent(Utf8.Scanned(name).copied, tail);
    }
  }

  /** Reading the text of a name gives the name and stops at its end. */
  lemma {:induction false} ReadNameOfText(uri: bool, name: Name, tail: seq<Byte>, at: nat)
    requires NameText(uri, name).Some? && (tail != [] ==> tail[0] == SLASH)
    ensures ReadName(uri, NameText(uri, name).value + tail, at) == Read(name, |NameText(uri, name).value|)
    decreases |name|
  {
    hide NextChunk, PieceText, Piece, Left, Encodes, ReadName, Utf8.Scanned;
    if name == [] {
      ReadNothing(uri, tail, at);
    } else {
      var text := PieceText(uri, name);
      var more := NameText(uri, Left(uri, name)).value;
      PieceAndLeft(uri, name);
      ChunkOfPiece(uri, name, more + tail);
      ReadNameOfText(uri, Left(uri, name), tail, at + |text|);
      ReadChunk(uri, text, more + tail, at);
      assert NameText(uri, name).value + tail == text + (more + tail);
    }
  }

  lemma ReadNothing(uri: bool, tail: seq<Byte>, at: nat)
    requires tail != [] ==> tail[0] == SLASH
    ensures ReadName(uri, [] + tail, at) == Read([], 0)
  {
    assert [] + tail == tail;
  }

  lemma ReadChunk(uri: bool, text: seq<Byte>, tail: seq<Byte>, at: nat)
    requires text != [] && text[0] != SLASH
    requires NextChunk(uri, text + tail).Chunk? && NextChunk(uri, text + tail).taken == |text|
    requires ReadName(uri, tail, at + |text|).Read?
    ensures ReadName(uri, text + tail, at)
         == Read(NextChunk(uri, text + tail).bytes + ReadName(uri, tail, at + |text|).name,
                 |text| + ReadName(uri, tail, at + |text|).taken)
  {
    hide NextChunk;
    assert (text + tail)[|text|..] == tail;
  }

  lemma {:induction false} ParseFromOfText(uri: bool, names: seq<Name>, at: nat)
    requires NamesText(uri, names).Some?
    ensures var text := NamesText(uri, names).value;
            (text != [] ==> text[0] == SLASH) && ParseFrom(uri, text, at) == Tokens(names)
  {
    hide ReadName, NameText, ParseFrom;
    if names == [] {
      ParseNothing(uri, at);
    } else {
      var text, more := NameText(uri, names[0]).value, NamesText(uri, names[1..]).value;
      ParseFromOfText(uri, names[1..], at + 1 + |text|);
      ReadNameOfText(uri, names[0], more, at + 1);
      ParseOne(uri, text, more, at);
      assert [names[0]] + names[1..] == names;
    }
  }

  lemma ParseNothing(uri: bool, at: nat)
    ensures ParseFrom(uri, [], at) == Tokens([])
  {
  }

  lemma ParseOne(uri: bool, text: seq<Byte>, more: seq<Byte>, at: nat)
    requires more != [] ==> more[0] == SLASH
    requires var r := ReadName(uri, text + more, at + 1); r.Read? && r.taken == |text|
    requires ParseFrom(uri, more, at + 1 + |text|).Tokens?
    ensures ParseFrom(uri, [SLASH] + text + more, at)
         == Tokens([ReadName(uri, text + more, at + 1).name] + ParseFrom(uri, more, at + 1 + |text|).names)
  {
    hide ReadName;
    var s := [SLASH] + text + more;
    assert s[1..] == text + more && s[1 + |text|..] == more;
  }

  /** Whatever either form prints, Parse reads back: the same tokens in the same order. */
  lemma ParseOfStringify(uri: bool, names: seq<Name>)
    requires Stringify(uri, names).Some?
    ensures Parse(Stringify(uri, names).value) == Tokens(names)
  {
    hide ParseFrom, NamesText;
    var text := NamesText(uri, names).value;
    ParseFromOfText(uri, names, if uri then 1 else 0);
    assert [] + text == text && ([HASH] + text)[1..] == text;
  }

  // ---- what can be printed ----------------------------------------------------------------------------------------

  lemma {:induction false} NameTextExists(uri: bool, name: Name)
    ensures NameText(uri, name).Some? <==> !uri || Utf8.DecodeAll(name).Some?
    decreases |name|
  {
    if name != [] {
      if !Encodes(uri, name[0]) {
        assert uri ==> Utf8.Scanned(name).ok && Utf8.Scanned(name).rest == name[1..];
      }
      NameTextExists(uri, Left(uri, name));
    }
  }

  /** The plain form prints all names; the URI form prints exactly the well-formed UTF-8 ones. */
  lemma {:induction false} StringifyExists(uri: bool, names: seq<Name>)
    ensures Stringify(uri, names).Some? <==> !uri || forall k :: 0 <= k < |names| ==> Utf8.WellFormed(names[k])
  {
    hide NameText, Utf8.WellFormed;
    if names != [] {
      StringifyExists(uri, names[1..]);
      NameTextExists(uri, names[0]);
      Utf8.DecodeAllIsGrammar(names[0]);
      assert names == [names[0]] + names[1..];
    }
  }

  // ---- what Parse can return --------------------------------------------------------------------------------------

  lemma UriChunkIsChar(s: seq<Byte>)
    requires s != [] && s[0] != SLASH && NextChunk(true, s).Chunk?
    ensures Utf8.Utf8Char(NextChunk(true, s).bytes)
  {
    hide Utf8.Scanned, Utf8.CodePoint;
    var bytes := Triplets(s);
    if s[0] == PERCENT && bytes != [] {
      Utf8.ScanIsGrammar(bytes);
    }
  }

  lemma {:induction false} UriNameIsUtf8(s: seq<Byte>, at: nat)
    requires ReadName(true, s, at).Read?
    ensures Utf8.DecodeAll(ReadName(true, s, at).name).Some?
    decreases |s|
  {
    hide NextChunk, Utf8.Scanned, Utf8.Encoded, Utf8.CodePoint, Utf8.Utf8Char;
    if s != [] && s[0] != SLASH {
      var chunk := NextChunk(true, s);
      var left := s[chunk.taken..];
      UriNameIsUtf8(left, at + chunk.taken);
      var name := ReadName(true, left, at + chunk.taken).name;
      UriChunkIsChar(s);
      Utf8.CharIsEncoded(chunk.bytes);
      Utf8.DecodeOfEncode(Utf8.CodePoint(chunk.bytes), name);
    }
  }

  lemma {:induction false} UriNamesAreUtf8(s: seq<Byte>, at: nat)
    requires s != [] ==> s[0] == SLASH
    requires ParseFrom(true, s, at).Tokens?
    ensures forall k :: 0 <= k < |ParseFrom(true, s, at).names| ==> Utf8.WellFormed(ParseFrom(true, s, at).names[k])
    decreases |s|
  {
    hide ReadName, Utf8.DecodeAll, Utf8.WellFormed;
    if s != [] {
      var r := ReadName(true, s[1..], at + 1);
      UriNameIsUtf8(s[1..], at + 1);
      Utf8.DecodeAllIsGrammar(r.name);
      UriNamesAreUtf8(s[1 + r.taken..], at + 1 + r.taken);
    }
  }

  /**
   * The tokens of any source that parses are printed by the plain form so that they parse again; those of a URI
   * fragment also by the URI form.
   */
  lemma StringifyOfParse(source: seq<Byte>)
    requires Parse(source).Tokens?
    ensures var names := Parse(source).names;
            Stringify(false, names).Some? && Parse(Stringify(false, names).value) == Tokens(names)
    ensures var names := Parse(source).names;
            source != [] && source[0] == HASH ==>
              Stringify(true, names).Some? && Parse(Stringify(true, names).value) == Tokens(names)
  {
    hide Stringify;
    var names := Parse(source).names;
    StringifyExists(false, names);
    ParseOfStringify(false, names);
    if source != [] && source[0] == HASH {
      UriNamesAreUtf8(source[1..], 1);
      StringifyExists(true, names);
      ParseOfStringify(true, names);
    }
  }

  // ---- the number of tokens ---------------------------------------------------------------------------------------

  /** What the first pass of Parse counts. */
  function Slashes(s: seq<Byte>): (n: nat)
    ensures n <= |s|
  {
    if s == [] then 0 else (if s[0] == SLASH then 1 else 0) + Slashes(s[1..])
  }

  lemma {:induction false} SlashesAppend(a: seq<Byte>, b: seq<Byte>)
    ensures Slashes(a + b) == Slashes(a) + Slashes(b)
  {
    if a == [] {
      assert a + b == b;
    } else {
      assert (a + b)[1..] == a[1..] + b;
      SlashesAppend(a[1..], b);
    }
  }

  lemma {:induction false} NoSlash(s: seq<Byte>)
    requires forall k :: 0 <= k < |s| ==> s[k] != SLASH
    ensures Slashes(s) == 0
  {
    if s != [] {
      NoSlash(s[1..]);
    }
  }

  lemma {:induction false} TripletsHaveNoSlash(s: seq<Byte>, n: nat)
    requires n <= 3 * |Triplets(s)|
    ensures forall k :: 0 <= k < n ==> s[k] != SLASH
  {
    if n > 3 {
      TripletsHaveNoSlash(s[3..], n - 3);
      assert forall k :: 3 <= k < n ==> s[k] == s[3..][k - 3];
    }
  }

  /** A round of the inner loop takes no solidus. */
  lemma ChunkTakesNoSlash(uri: bool, s: seq<Byte>)
    requires s != [] && s[0] != SLASH && NextChunk(uri, s).Chunk?
    ensures Slashes(s[NextChunk(uri, s).taken..]) == Slashes(s)
  {
    hide Utf8.Scanned, Utf8.Utf8Char, Utf8.CodePoint, Slashes;
    var k := NextChunk(uri, s).taken;
    var bytes := Triplets(s);
    if uri && s[0] == PERCENT {
      Utf8.ScanIsGrammar(bytes);
      TripletsHaveNoSlash(s, 3 * |Utf8.Scanned(bytes).copied|);
    }
    NoSlash(s[..k]);
    SlashesAppend(s[..k], s[k..]);
    assert s[..k] + s[k..] == s;
  }
}
