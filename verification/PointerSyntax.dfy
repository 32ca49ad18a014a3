/** Which sources GenericPointer::Parse takes, and with what error and where it stops at the others. */
module PointerSyntax {
  import opened ByteStreams
  import opened JsonText
  import opened PointerText
  import opened Wrappers

  /** A tilde is followed by 0 or 1, as section 3 of RFC 6901 has it. */
  predicate TildeFine(s: seq<Byte>, k: nat)
    requires k < |s|
  {
    s[k] == TILDE ==> k + 1 < |s| && (s[k + 1] == ZERO || s[k + 1] == ONE)
  }

  /** All tildes among the first n bytes are. */
  predicate TildesFine(s: seq<Byte>, n: nat)
    requires n <= |s|
  {
    forall k :: 0 <= k < n ==> TildeFine(s, k)
  }

  lemma TildesBehind(s: seq<Byte>, m: nat, n: nat)
    requires m <= |s| && n <= |s| - m && TildesFine(s, m) && TildesFine(s[m..], n)
    ensures TildesFine(s, m + n)
  {
    forall k | m <= k < m + n
      ensures TildeFine(s, k)
    {
      assert TildeFine(s[m..], k - m);
    }
  }

  /** What stops a name in the plain form behind byte n - 1: the first tilde that is not fine. */
  predicate StopsPlain(code: ErrorCode, s: seq<Byte>, n: nat) {
    code == InvalidEscape && 0 < n <= |s| && TildesFine(s, n - 1) && !TildeFine(s, n - 1)
  }

  lemma StopsPlainBehind(code: ErrorCode, s: seq<Byte>, m: nat, n: nat)
    requires m <= |s| && TildesFine(s, m) && StopsPlain(code, s[m..], n)
    ensures StopsPlain(code, s, m + n)
  {
    TildesBehind(s, m, n - 1);
  }

  /** One round of the loop over a name. */
  lemma ReadUnfolds(uri: bool, s: seq<Byte>, at: nat)
    ensures s == [] || s[0] == SLASH ==> ReadName(uri, s, at) == Read([], 0)
    ensures s != [] && s[0] != SLASH ==>
              match NextChunk(uri, s)
              case Bad(code, n) => ReadName(uri, s, at) == Failed(code, at + n)
              case Chunk(bytes, m) =>
                match ReadName(uri, s[m..], at + m)
                case Failed(code, offset) => ReadName(uri, s, at) == Failed(code, offset)
                case Read(name, n) => ReadName(uri, s, at) == Read(bytes + name, m + n)
  {
    hide NextChunk;
  }

  // ---- the plain form ---------------------------------------------------------------------------------------------

  lemma ChunkPlain(s: seq<Byte>)
    requires s != [] && s[0] != SLASH
    ensures match NextChunk(false, s)
            case Chunk(_, n) => TildesFine(s, n)
            case Bad(code, n) => StopsPlain(code, s, n)
  {
  }

  /** A name is read up to the next solidus or the first tilde that is not fine, and prints as it was written. */
  lemma {:induction false} ReadPlain(s: seq<Byte>, at: nat)
    ensures match ReadName(false, s, at)
            case Read(name, n) => TildesFine(s, n) && NameText(false, name) == Some(s[..n])
            case Failed(code, offset) => offset > at && StopsPlain(code, s, offset - at)
    decreases |s|
  {
    hide NextChunk, NameText, TildesFine, StopsPlain, ReadName;
    ReadUnfolds(false, s, at);
    if s == [] || s[0] == SLASH {
      NoTildes(s);
    } else {
      ChunkPlain(s);
      match NextChunk(false, s)
      case Bad(code, n) => StopsLate(code, s, n);
      case Chunk(_, m) =>
        ReadPlain(s[m..], at + m);
        match ReadName(false, s[m..], at + m)
        case Failed(code, offset) => StopsPlainBehind(code, s, m, offset - at - m);
        case Read(name, n) =>
          TildesBehind(s, m, n);
          ChunkPrints(s, name, s[m..][..n]);
          assert s[..m] + s[m..][..n] == s[..m + n];
    }
  }

  lemma StopsLate(code: ErrorCode, s: seq<Byte>, n: nat)
    requires StopsPlain(code, s, n)
    ensures n > 0 && code == InvalidEscape && s != []
  {
  }

  lemma NoTildes(s: seq<Byte>)
    ensures TildesFine(s, 0) && NameText(false, []) == Some(s[..0]) && NamesText(false, []) == Some([])
  {
  }

  lemma ChunkPrints(s: seq<Byte>, name: Name, text: seq<Byte>)
    requires s != [] && s[0] != SLASH && NextChunk(false, s).Chunk? && NameText(false, name) == Some(text)
    ensures NameText(false, NextChunk(false, s).bytes + name) == Some(s[..NextChunk(false, s).taken] + text)
  {
    var chunk := NextChunk(false, s);
    var whole := chunk.bytes + name;
    assert whole[1..] == name && Left(false, whole) == name;
    assert PieceText(false, whole) == s[..chunk.taken];
  }

  lemma {:induction false} ParseFromPlain(s: seq<Byte>, at: nat)
    requires s != [] ==> s[0] == SLASH
    ensures match ParseFrom(false, s, at)
            case Tokens(names) => TildesFine(s, |s|) && NamesText(false, names) == Some(s)
            case Error(code, offset) => offset > at && StopsPlain(code, s, offset - at)
    decreases |s|
  {
    hide ReadName, NameText, NamesText, TildesFine, StopsPlain;
    if s == [] {
      NoTildes(s);
    } else {
      ReadPlain(s[1..], at + 1);
      SolidusFine(s);
      match ReadName(false, s[1..], at + 1)
      case Failed(code, offset) => StopsPlainBehind(code, s, 1, offset - at - 1);
      case Read(name, n) =>
        var rest := s[1 + n..];
        TildesBehind(s, 1, n);
        ParseFromPlain(rest, at + 1 + n);
        match ParseFrom(false, rest, at + 1 + n)
        case Error(code, offset) => StopsPlainBehind(code, s, 1 + n, offset - (at + 1 + n));
        case Tokens(names) =>
          TildesBehind(s, 1 + n, |rest|);
          NamesPrint(s, n, name, names);
    }
  }

  lemma SolidusFine(s: seq<Byte>)
    requires s != [] && s[0] == SLASH
    ensures TildesFine(s, 1)
  {
  }

  lemma NamesPrint(s: seq<Byte>, n: nat, name: Name, names: seq<Name>)
    requires s != [] && s[0] == SLASH && n < |s|
    requires NameText(false, name) == Some(s[1..][..n]) && NamesText(false, names) == Some(s[1 + n..])
    ensures NamesText(false, [name] + names) == Some(s)
  {
    hide NameText;
    assert ([name] + names)[1..] == names;
    assert [SLASH] + s[1..][..n] + s[1 + n..] == s;
  }

  /**
   * A source that is no URI fragment has tokens exactly when it is empty or starts with a solidus, and all its tildes
   * are followed by 0 or 1; printing the tokens then gives the source back. Otherwise the error says which of the two
   * is wrong, and the offset is that of the first byte, or of the byte behind the first tilde at fault.
   */
  lemma PlainParse(source: seq<Byte>)
    requires source != [] ==> source[0] != HASH
    ensures match Parse(source)
            case Tokens(names) =>
              && (source != [] ==> source[0] == SLASH) && TildesFine(source, |source|)
              && Stringify(false, names) == Some(source)
            case Error(TokenMustBeginWithSolidus, offset) =>
              source != [] && source[0] != SLASH && offset == 0
            case Error(code, offset) =>
              source != [] && source[0] == SLASH && StopsPlain(code, source, offset)
  {
    hide ParseFrom, NamesText, TildesFine, StopsPlain;
    assert source[0..] == source;
    if source == [] || source[0] == SLASH {
      ParseFromPlain(source, 0);
      match ParseFrom(false, source, 0)
      case Tokens(names) => assert [] + source == source;
      case Error(code, offset) => StopsLate(code, source, offset);
    }
  }

  // ---- the URI form -----------------------------------------------------------------------------------------------

  /** The unreserved characters of section 2.3 of RFC 3986. */
  predicate Unreserved(c: char) {
    || 'A' <= c <= 'Z' || 'a' <= c <= 'z' || '0' <= c <= '9' || c == '-' || c == '.' || c == '_' || c == '~'
  }

  lemma ReservedIs(c: Byte)
    ensures NeedPercentEncode(c) <==> !Unreserved(c as char)
  {
  }

  /** The first n bytes are solidi, percent signs and unreserved characters. */
  predicate InFragment(s: seq<Byte>, n: nat)
    requires n <= |s|
  {
    forall k :: 0 <= k < n ==> s[k] == SLASH || s[k] == PERCENT || Unreserved(s[k] as char)
  }

  lemma {:induction false} TripletsInFragment(s: seq<Byte>, n: nat)
    requires n <= |Triplets(s)|
    ensures InFragment(s, 3 * n)
  {
    if n > 0 {
      TripletsInFragment(s[3..], n - 1);
      assert forall k :: 3 <= k < 3 * n ==> s[k] == s[3..][k - 3];
      HexUnreserved(s[1]);
      HexUnreserved(s[2]);
    }
  }

  lemma HexUnreserved(c: Byte)
    requires HexValue(c) >= 0
    ensures Unreserved(c as char)
  {
  }

  /** What stops a name at byte n. */
  predicate StopsAt(code: ErrorCode, s: seq<Byte>, n: nat)
    requires n <= |s|
  {
    match code
    case TokenMustBeginWithSolidus => false
    case CharacterMustPercentEncode => n < |s| && s[n] != PERCENT && !Unreserved(s[n] as char)
    case InvalidPercentEncoding =>
      n < |s| && s[n] == PERCENT && (!Triplet(s[n..]) || !Utf8.Scanned(Triplets(s[n..])).ok)
    case InvalidEscape =>
      // Behind a tilde, be it percent-encoded.
      && ((n >= 1 && s[n - 1] == TILDE) || (n >= 3 && Triplet(s[n - 3..]) && Triplets(s[n - 3..])[0] == TILDE))
      && (n < |s| ==> s[n] != ZERO && s[n] != ONE)
  }

  predicate StopsUri(code: ErrorCode, s: seq<Byte>, n: nat) {
    n <= |s| && InFragment(s, n) && StopsAt(code, s, n)
  }

  lemma ChunkInUri(s: seq<Byte>)
    requires s != [] && s[0] != SLASH
    ensures match NextChunk(true, s)
            case Chunk(_, n) => InFragment(s, n)
            case Bad(code, n) => StopsUri(code, s, n)
  {
    hide Utf8.Scanned, Utf8.Utf8Char, Utf8.CodePoint;
    ReservedIs(s[0]);
    if s[0] == PERCENT && Triplet(s) {
      var bytes := Triplets(s);
      if Utf8.Scanned(bytes).ok {
        Utf8.ScanIsGrammar(bytes);
        TripletsInFragment(s, |Utf8.Scanned(bytes).copied|);
        assert bytes[0] == Utf8.Scanned(bytes).copied[0];
      }
      assert s[3 - 3..] == s;
    }
  }

  lemma {:induction false} ReadUri(s: seq<Byte>, at: nat)
    ensures match ReadName(true, s, at)
            case Read(_, n) => InFragment(s, n)
            case Failed(code, offset) => offset >= at && StopsUri(code, s, offset - at)
    decreases |s|
  {
    hide NextChunk, InFragment, StopsUri, ReadName;
    ReadUnfolds(true, s, at);
    if s == [] || s[0] == SLASH {
      NothingBefore(s);
    } else {
      ChunkInUri(s);
      match NextChunk(true, s)
      case Bad(_, _) =>
      case Chunk(_, m) =>
        ReadUri(s[m..], at + m);
        match ReadName(true, s[m..], at + m)
        case Failed(code, offset) => StopsUriBehind(code, s, m, offset - at - m);
        case Read(_, n) => FragmentBehind(s, m, n);
    }
  }

  lemma NothingBefore(s: seq<Byte>)
    ensures InFragment(s, 0) && (s != [] && s[0] == SLASH ==> InFragment(s, 1))
  {
  }

  lemma FragmentBehind(s: seq<Byte>, m: nat, n: nat)
    requires m <= |s| && n <= |s| - m && InFragment(s, m) && InFragment(s[m..], n)
    ensures InFragment(s, m + n)
  {
    hide Unreserved;
    assert forall k :: m <= k < m + n ==> s[k] == s[m..][k - m];
  }

  lemma StopsUriBehind(code: ErrorCode, s: seq<Byte>, m: nat, n: nat)
    requires m <= |s| && InFragment(s, m) && StopsUri(code, s[m..], n)
    ensures StopsUri(code, s, m + n)
  {
    hide InFragment, StopsAt;
    FragmentBehind(s, m, n);
    StopsBehind(code, s, m, n);
  }

  lemma StopsBehind(code: ErrorCode, s: seq<Byte>, m: nat, n: nat)
    requires m <= |s| && n <= |s| - m && StopsAt(code, s[m..], n)
    ensures StopsAt(code, s, m + n)
  {
    hide Triplet, Triplets, Utf8.Scanned, Unreserved;
    assert s[m..][n..] == s[m + n..];
    assert n >= 3 ==> s[m..][n - 3..] == s[m + n - 3..];
  }

  lemma {:induction false} ParseFromUri(s: seq<Byte>, at: nat)
    requires s != [] ==> s[0] == SLASH
    ensures match ParseFrom(true, s, at)
            case Tokens(_) => InFragment(s, |s|)
            case Error(code, offset) => offset > at && StopsUri(code, s, offset - at)
    decreases |s|
  {
    hide ReadName, InFragment, StopsUri;
    NothingBefore(s);
    if s != [] {
      ReadUri(s[1..], at + 1);
      match ReadName(true, s[1..], at + 1)
      case Failed(code, offset) => StopsUriBehind(code, s, 1, offset - at - 1);
      case Read(name, n) =>
        var rest := s[1 + n..];
        FragmentBehind(s, 1, n);
        ParseFromUri(rest, at + 1 + n);
        match ParseFrom(true, rest, at + 1 + n)
        case Error(code, offset) => StopsUriBehind(code, s, 1 + n, offset - (at + 1 + n));
        case Tokens(_) => FragmentBehind(s, 1 + n, |rest|);
    }
  }

  lemma StopsSomewhere(code: ErrorCode, s: seq<Byte>, n: nat)
    requires StopsUri(code, s, n)
    ensures code != TokenMustBeginWithSolidus && s != []
  {
  }

  /**
   * A URI fragment that has tokens consists of solidi, percent signs and unreserved characters, behind its number sign.
   * One that has none does so up to the offset, where the error says what is wrong.
   */
  lemma UriParse(source: seq<Byte>)
    requires source != [] && source[0] == HASH
    ensures var s := source[1..];
            match Parse(source)
            case Tokens(_) => (s != [] ==> s[0] == SLASH) && InFragment(s, |s|)
            case Error(TokenMustBeginWithSolidus, offset) => s != [] && s[0] != SLASH && offset == 1
            case Error(code, offset) =>
              s != [] && s[0] == SLASH && offset > 1 && StopsUri(code, s, offset - 1)
  {
    hide ParseFrom, InFragment, StopsUri;
    var s := source[1..];
    if s == [] || s[0] == SLASH {
      ParseFromUri(s, 1);
      match ParseFrom(true, s, 1)
      case Error(code, offset) => StopsSomewhere(code, s, offset - 1);
      case Tokens(_) =>
    }
  }

  // ---- what is written --------------------------------------------------------------------------------------------

  /** How a byte is written: "~0" and "~1" in both forms; in a URI, what is not unreserved by its hexadecimal digits. */
  lemma ByteText(uri: bool, c: Byte)
    ensures NameText(uri, Ascii("~")) == Some(Ascii("~0")) && NameText(uri, Ascii("/")) == Some(Ascii("~1"))
    ensures c as char != '~' && c as char != '/' && (!uri || Unreserved(c as char)) ==> NameText(uri, [c]) == Some([c])
    ensures c < 128 && c as char != '/' && !Unreserved(c as char) ==>
              NameText(true, [c]) == Some(Ascii("%") + [HexDigit(c / 0x10), HexDigit(c % 0x10)])
  {
    OneByte(uri, c);
    OneByte(true, c);
    OneByte(uri, TILDE);
    OneByte(uri, SLASH);
    assert Ascii("~") == [TILDE] && Ascii("/") == [SLASH] && Ascii("%") == [PERCENT];
    assert Ascii("~0") == [TILDE, ZERO] && Ascii("~1") == [TILDE, ONE];
    var x, y := HexDigit(c / 0x10), HexDigit(c % 0x10);
    assert Ascii("%") + [x, y] == [PERCENT, x, y];
  }

  lemma OneByte(uri: bool, c: Byte)
    ensures c < 128 || !uri ==> NameText(uri, [c]) == Some(PieceText(uri, [c]))
    ensures c < 128 ==> PercentAll(Utf8.Scanned([c]).copied) == [PERCENT, HexDigit(c / 0x10), HexDigit(c % 0x10)]
  {
    if c < 128 {
      assert Utf8.Scanned([c]).copied == [c];
      assert PercentAll([c]) == Percent(c) + PercentAll([]) == Percent(c);
    }
    if c < 128 || !uri {
      assert Left(uri, [c]) == [];
      assert PieceText(uri, [c]) + [] == PieceText(uri, [c]);
    }
  }
}
