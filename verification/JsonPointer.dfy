/** GenericPointer of pointer.h: Parse into a token array and a name buffer, Stringify out of them. */
module JsonPointer {
  import opened ByteStreams
  import opened JsonText
  import opened PointerIndex
  import opened PointerRoundTrip
  import opened PointerText
  import opened Wrappers

  /** Where a Take on s leaves the stream: behind the triplet, or at the byte that is at fault. */
  function TakeRest(s: seq<Byte>): (rest: seq<Byte>) {
    if |s| < 3 || s[0] != PERCENT then s
    else if HexValue(s[1]) < 0 then s[1..]
    else if HexValue(s[2]) < 0 then s[2..]
    else s[3..]
  }

  /** One of the next takes meets the end of the source. */
  predicate MeetsEnd(s: seq<Byte>, takes: nat) {
    takes > 0 && (s == [] || MeetsEnd(TakeRest(s), takes - 1))
  }

  /** Decoding the percent-encoded character at the start of s, whose first byte tells how many more to take, does. */
  predicate DecodesBehind(s: seq<Byte>) {
    Triplet(s) && match Utf8.TailMasks(Utf8.GetRange(Triplets(s)[0]))
                  case None => false
                  case Some(masks) => MeetsEnd(TakeRest(s), |masks|)
  }

  /**
   * PercentDecodeStream: Take at pos, where valid says whether every triplet so far was one. At the end of the source
   * it reads the byte behind; whatever that is, the triplet is none.
   */
  method TakePercent(source: seq<Byte>, pos: nat, valid: bool) returns (c: Byte, pos': nat, valid': bool)
    requires pos <= |source|
    ensures pos <= pos' <= |source| && source[pos'..] == TakeRest(source[pos..])
    ensures Triplet(source[pos..]) ==>
              c == Triplets(source[pos..])[0] && pos' == pos + 3 && valid' == valid
              && Triplets(source[pos'..]) == Triplets(source[pos..])[1..]
    ensures !Triplet(source[pos..]) ==> c == 0 && !valid'
  {
    if pos == |source| || source[pos] != PERCENT || pos + 3 > |source| {
      return 0, pos, false;
    }
    assert source[pos..][0] == source[pos] && source[pos..][1] == source[pos + 1]
           && source[pos..][2] == source[pos + 2];
    assert source[pos..][3..] == source[pos + 3..];
    pos', c := pos + 1, 0;
    for j := 0 to 2
      invariant pos' == pos + 1 + j
      invariant j >= 1 ==> HexValue(source[pos + 1]) >= 0
      invariant j == 0 ==> c == 0
      invariant j == 1 ==> c == HexValue(source[pos + 1])
      invariant j == 2 ==>
                  HexValue(source[pos + 2]) >= 0 && c == HexValue(source[pos + 1]) * 16 + HexValue(source[pos + 2])
    {
      var h := HexValue(source[pos']);
      if h < 0 {
        return 0, pos', false;
      }
      c := c % 0x10 * 16 + h;
      pos' := pos' + 1;
    }
    valid' := valid;
  }

  /** Where the scan of the triplets at i stands: d behind those before pos, masks still to be tested. */
  ghost predicate Tracks(source: seq<Byte>, i: nat, pos: nat, valid: bool, ok: bool, d: Utf8.Scan, masks: seq<bv8>)
    requires i <= pos <= |source|
  {
    var bytes := Triplets(source[i..]);
    if valid then
      bytes != [] && ok == d.ok && d.rest == Triplets(source[pos..]) && pos == i + 3 * |d.copied|
      && Utf8.Scanned(bytes) == Utf8.NextAll(d, masks)
    else bytes == [] || !Utf8.Scanned(bytes).ok
  }

  lemma TracksNext(source: seq<Byte>, i: nat, pos: nat, valid: bool, ok: bool, d: Utf8.Scan, masks: seq<bv8>,
                   c: Byte, pos': nat, valid': bool)
    requires i <= pos <= pos' <= |source| && Tracks(source, i, pos, valid, ok, d, masks) && masks != []
    requires Triplet(source[pos..]) ==>
               c == Triplets(source[pos..])[0] && pos' == pos + 3 && valid' == valid
               && Triplets(source[pos'..]) == Triplets(source[pos..])[1..]
    requires !Triplet(source[pos..]) ==> c == 0 && !valid'
    ensures Tracks(source, i, pos', valid', ok && Utf8.GetRange(c) & masks[0] != 0, Utf8.Next(d, masks[0]), masks[1..])
    ensures valid' ==> Utf8.Next(d, masks[0]).copied == d.copied + [c]
  {
    hide Utf8.Scanned, Utf8.Next;
    NextMeans(d, masks[0]);
    if valid && !Triplet(source[pos..]) {
      assert Utf8.GetRange(0) == 0;
      Utf8.FailureStays(Utf8.Next(d, masks[0]), masks[1..]);
    }
  }

  /** One COPY(); TRANS(mask) of Validate on these two streams. */
  method PercentNext(source: seq<Byte>, ghost i: nat, pos: nat, valid: bool, ok: bool, mask: bv8,
                     buffer: array<Byte>, ghost start: nat, name: nat, ghost d: Utf8.Scan, ghost masks: seq<bv8>)
    returns (pos': nat, valid': bool, ok': bool)
    requires i <= pos <= |source| && start < name < buffer.Length && masks != [] && mask == masks[0]
    requires Tracks(source, i, pos, valid, ok, d, masks) && (valid ==> d.copied == buffer[start..name])
    modifies buffer
    ensures pos <= pos' <= |source| && buffer[..start] == old(buffer[..start])
    ensures source[pos'..] == TakeRest(source[pos..]) && (valid' ==> valid && pos < |source|)
    ensures Tracks(source, i, pos', valid', ok', Utf8.Next(d, mask), masks[1..])
    ensures valid' ==> Utf8.Next(d, mask).copied == buffer[start..name + 1]
  {
    hide Triplet, Triplets, Tracks, TakeRest, Utf8.Next, Utf8.GetRange;
    NoTripletAtEnd(source, pos);
    var c;
    c, pos', valid' := TakePercent(source, pos, valid);
    TracksNext(source, i, pos, valid, ok, d, masks, c, pos', valid');
    buffer[name] := c;
    ok' := ok && Utf8.GetRange(c) & mask != 0;
    assert valid' ==> valid;
  }

  lemma NoTripletAtEnd(source: seq<Byte>, pos: nat)
    requires pos <= |source|
    ensures Triplet(source[pos..]) ==> pos < |source|
  {
  }

  /**
   * Transcoder::Validate from a PercentDecodeStream into the name buffer, with the test of IsValid behind it. Whatever
   * it finds, it writes no further than the buffer goes; behind tells whether it reads behind the end of the source.
   */
  method ValidatePercent(source: seq<Byte>, i: nat, buffer: array<Byte>, start: nat)
    returns (ok: bool, pos: nat, name: nat, ghost behind: bool)
    requires i < |source| && buffer.Length == |source| && start + 2 <= i
    modifies buffer
    ensures i <= pos <= |source| && start < name <= buffer.Length && buffer[..start] == old(buffer[..start])
    ensures var bytes := Triplets(source[i..]);
            ok <==> bytes != [] && Utf8.Scanned(bytes).ok
    ensures (behind <==> DecodesBehind(source[i..])) && (behind ==> !ok)
    ensures ok ==> var copied := Utf8.Scanned(Triplets(source[i..])).copied;
                   buffer[start..name] == copied && pos == i + 3 * |copied|
  {
    hide Utf8.Scanned, Utf8.Next, Utf8.Lead, Utf8.GetRange, Triplet, Triplets, Tracks, TakeRest, DecodesBehind;
    ghost var bytes := Triplets(source[i..]);
    Utf8.ScannedInSteps(bytes);
    LeadMeans(bytes);
    var valid, c;
    c, pos, valid := TakePercent(source, i, true);
    buffer[start] := c;
    name := start + 1;
    ghost var d := Utf8.Lead(bytes);
    FirstTriplet(source, i, c, pos, valid);
    FirstDecodes(source[i..], c);
    var masks := Utf8.TailMasks(Utf8.GetRange(c));
    if masks == None {
      return false, pos, name, false;
    }
    ok, behind := true, false;
    var k := 0;
    while k < |masks.value|
      invariant 0 <= k <= |masks.value| && i <= pos <= |source| && name == start + 1 + k
      invariant |masks.value| > 0 ==> start + 5 <= buffer.Length
      invariant buffer[..start] == old(buffer[..start])
      invariant Tracks(source, i, pos, valid, ok, d, masks.value[k..])
      invariant valid ==> d.copied == buffer[start..name]
      invariant behind ==> !valid
      invariant behind || MeetsEnd(source[pos..], |masks.value| - k)
                <==> MeetsEnd(TakeRest(source[i..]), |masks.value|)
    {
      behind := behind || pos == |source|;
      pos, valid, ok :=
        PercentNext(source, i, pos, valid, ok, masks.value[k], buffer, start, name, d, masks.value[k..]);
      d := Utf8.Next(d, masks.value[k]);
      k, name := k + 1, name + 1;
    }
    assert masks.value[k..] == [];
    TracksToTheEnd(source, i, pos, valid, ok, d);
    ok := ok && valid;
  }

  lemma FirstDecodes(s: seq<Byte>, c: Byte)
    requires if Triplet(s) then c == Triplets(s)[0] else c == 0
    ensures DecodesBehind(s) <==> match Utf8.TailMasks(Utf8.GetRange(c))
                                  case None => false
                                  case Some(masks) => MeetsEnd(TakeRest(s), |masks|)
  {
    assert Utf8.TailMasks(Utf8.GetRange(0)) == Some([]);
  }

  /** The first Take: an invalid one shows the terminator, which leads nothing. */
  lemma FirstTriplet(source: seq<Byte>, i: nat, c: Byte, pos: nat, valid: bool)
    requires i <= pos <= |source|
    requires Triplet(source[i..]) ==>
               c == Triplets(source[i..])[0] && pos == i + 3 && valid
               && Triplets(source[pos..]) == Triplets(source[i..])[1..]
    requires !Triplet(source[i..]) ==> c == 0 && !valid
    ensures var bytes := Triplets(source[i..]);
            var masks := Utf8.TailMasks(Utf8.GetRange(c));
            var d := Utf8.Lead(bytes);
            && (valid ==> d.copied == [c])
            && (masks.Some? ==> Tracks(source, i, pos, valid, true, d, masks.value))
            && (masks.Some? && masks.value != [] ==> pos == i + 3)
            && (masks == None ==> bytes == [] || !Utf8.Scanned(bytes).ok)
  {
    hide Utf8.Scanned;
    var bytes := Triplets(source[i..]);
    LeadMeans(bytes);
    Utf8.ScannedInSteps(bytes);
  }

  lemma TracksToTheEnd(source: seq<Byte>, i: nat, pos: nat, valid: bool, ok: bool, d: Utf8.Scan)
    requires i <= pos <= |source| && Tracks(source, i, pos, valid, ok, d, [])
    ensures var bytes := Triplets(source[i..]);
            (ok && valid <==> bytes != [] && Utf8.Scanned(bytes).ok)
            && (ok && valid ==> Utf8.Scanned(bytes) == d && pos == i + 3 * |d.copied|)
  {
    hide Utf8.Scanned;
  }

  lemma LeadMeans(bytes: seq<Byte>)
    ensures Utf8.Lead(bytes).ok && Utf8.Lead(bytes).copied == [Peek(bytes, 0)] && Utf8.Lead(bytes).rest == Skip(bytes)
  {
  }

  lemma NextMeans(d: Utf8.Scan, mask: bv8)
    ensures Utf8.Next(d, mask).ok <==> d.ok && Utf8.GetRange(Peek(d.rest, 0)) & mask != 0
    ensures Utf8.Next(d, mask).copied == d.copied + [Peek(d.rest, 0)] && Utf8.Next(d, mask).rest == Skip(d.rest)
  {
  }

  /**
   * For exactly these sources Parse reads a byte behind the end: the empty one, and those of the URI form in which the
   * character that fails to decode is cut off by the end.
   */
  predicate ReadsBehind(source: seq<Byte>) {
    source == [] || match Parse(source)
                    case Error(InvalidPercentEncoding, i) => i <= |source| && DecodesBehind(source[i..])
                    case _ => false
  }

  // ---- one token --------------------------------------------------------------------------------------------------

  /** What reading gives when prefix has been read already, k bytes before. */
  function Joined(prefix: Name, k: nat, r: Read): (t: Read) {
    match r case Failed(code, offset) => r case Read(name, taken) => Read(prefix + name, k + taken)
  }

  lemma ReadRound(uri: bool, s: seq<Byte>, at: nat, prefix: Name, k: nat, bytes: seq<Byte>, taken: nat)
    requires s != [] && s[0] != SLASH && NextChunk(uri, s) == Chunk(bytes, taken)
    ensures taken <= |s|
    ensures Joined(prefix, k, ReadName(uri, s, at))
         == Joined(prefix + bytes, k + taken, ReadName(uri, s[taken..], at + taken))
  {
    hide NextChunk;
    var r := ReadName(uri, s[taken..], at + taken);
    if r.Read? {
      assert prefix + (bytes + r.name) == prefix + bytes + r.name;
    }
  }

  lemma RoundRead(uri: bool, source: seq<Byte>, at: nat, prefix: Name, k: nat, bytes: seq<Byte>, taken: nat)
    requires at < |source| && source[at] != SLASH && NextChunk(uri, source[at..]) == Chunk(bytes, taken)
    ensures at + taken <= |source| && Slashes(source[at + taken..]) == Slashes(source[at..])
    ensures Joined(prefix, k, ReadName(uri, source[at..], at))
         == Joined(prefix + bytes, k + taken, ReadName(uri, source[at + taken..], at + taken))
    ensures AllDigits(prefix + bytes) <==> AllDigits(prefix) && AllDigits(bytes)
  {
    hide NextChunk, ReadName, AllDigits, Joined, Slashes;
    ReadRound(uri, source[at..], at, prefix, k, bytes, taken);
    assert source[at..][taken..] == source[at + taken..];
    ChunkTakesNoSlash(uri, source[at..]);
    DigitsJoin(prefix, bytes);
  }

  lemma ReadFails(uri: bool, s: seq<Byte>, at: nat, prefix: Name, k: nat, code: ErrorCode, offset: nat)
    requires s != [] && s[0] != SLASH && NextChunk(uri, s) == Bad(code, offset)
    ensures Joined(prefix, k, ReadName(uri, s, at)) == Failed(code, at + offset)
  {
    hide NextChunk;
  }

  /** The part of a round behind a character: "~0" and "~1" stand for "~" and "/". */
  method TakeEscape(source: seq<Byte>, i: nat, k: nat, c: Byte) returns (code: Option<ErrorCode>, k': nat, c': Byte)
    requires i + k <= |source|
    ensures match Unescape(source[i..], c, k)
            case Bad(e, at) => code == Some(e) && k' == at
            case Chunk(bytes, taken) => code == None && bytes == [c'] && k' == taken
    ensures i + k' <= |source| && code != Some(InvalidPercentEncoding)
  {
    k', c' := k, c;
    if c == TILDE {
      if i + k < |source| {
        c' := source[i + k];
        if c' == ZERO {
          c' := TILDE;
        } else if c' == ONE {
          c' := SLASH;
        } else {
          return Some(InvalidEscape), k, c;
        }
        k' := k + 1;
      } else {
        return Some(InvalidEscape), k, c;
      }
    }
    return None, k', c';
  }

  lemma PlainChunk(uri: bool, s: seq<Byte>)
    requires s != [] && (uri ==> s[0] != PERCENT)
    ensures NextChunk(uri, s)
         == if uri && NeedPercentEncode(s[0]) then Bad(CharacterMustPercentEncode, 0) else Unescape(s, s[0], 1)
  {
    hide Unescape;
  }

  /** A character in triplets. */
  lemma DecodedChunk(s: seq<Byte>)
    requires s != [] && s[0] == PERCENT
    ensures var bytes := Triplets(s);
            var copied := Utf8.Scanned(bytes).copied;
            if bytes == [] || !Utf8.Scanned(bytes).ok then NextChunk(true, s) == Bad(InvalidPercentEncoding, 0)
            else 0 < |copied|
                 && if |copied| == 1 then 3 <= |s| && NextChunk(true, s) == Unescape(s, copied[0], 3)
                    else NextChunk(true, s) == Chunk(copied, 3 * |copied|) && !AllDigits(copied)
  {
    hide Unescape, Utf8.Scanned, Utf8.CodePoint, Triplets;
    if Triplets(s) != [] && Utf8.Scanned(Triplets(s)).ok {
      Utf8.ScanIsGrammar(Triplets(s));
      var copied := Utf8.Scanned(Triplets(s)).copied;
      assert |copied| > 1 ==> !Digit(copied[0]);
    }
  }

  lemma OneDigit(c: Byte)
    ensures AllDigits([c]) <==> Digit(c)
  {
    assert [c][0] == c;
  }

  /** One round of the inner loop of Parse: code tells the error, if any. */
  method ReadChunk(source: seq<Byte>, uri: bool, i: nat, buffer: array<Byte>, start: nat, isNumber: bool)
    returns (code: Option<ErrorCode>, i': nat, name: nat, isNumber': bool, ghost behind: bool)
    requires i < |source| == buffer.Length && source[i] != SLASH && start + (if uri then 2 else 1) <= i
    modifies buffer
    ensures buffer[..start] == old(buffer[..start]) && start <= name <= buffer.Length
    ensures match NextChunk(uri, source[i..])
            case Bad(c, at) => code == Some(c) && i' == i + at
            case Chunk(bytes, taken) =>
              code == None && i' == i + taken && buffer[start..name] == bytes
              && isNumber' == (isNumber && AllDigits(bytes))
    ensures i' <= |source| && (behind <==> code == Some(InvalidPercentEncoding) && DecodesBehind(source[i'..]))
  {
    hide Utf8.Scanned, Triplets, DecodesBehind, NextChunk, Unescape, NeedPercentEncode, Digit, AllDigits;
    behind := false;
    var c, k := source[i], 0;
    i', name, isNumber' := i, start, isNumber;
    if uri && c == PERCENT {
      DecodedChunk(source[i..]);
      var ok, pos, end;
      ok, pos, end, behind := ValidatePercent(source, i, buffer, start);
      if !ok {
        return Some(InvalidPercentEncoding), i, name, isNumber, behind;
      }
      var len := end - start;
      k := pos - 1 - i;
      if len == 1 {
        c := buffer[start];
      } else {
        return None, i + k + 1, end, false, false;
      }
    } else {
      PlainChunk(uri, source[i..]);
      if uri && NeedPercentEncode(c) {
        return Some(CharacterMustPercentEncode), i, name, isNumber, false;
      }
    }
    code, k, c := TakeEscape(source, i, k + 1, c);
    i' := i + k;
    if code != None {
      return code, i', name, isNumber, false;
    }
    if !Digit(c) {
      isNumber' := false;
    }
    buffer[start] := c;
    name := start + 1;
    assert buffer[start..name] == [c];
    OneDigit(c);
    return None, i', name, isNumber', false;
  }

  /** The inner loop of Parse: the characters of one name, from behind its solidus to the next one. */
  method ReadToken(source: seq<Byte>, uri: bool, i: nat, buffer: array<Byte>, start: nat)
    returns (code: Option<ErrorCode>, i': nat, name: nat, isNumber: bool, ghost behind: bool)
    requires i <= |source| == buffer.Length && start + (if uri then 2 else 1) <= i
    modifies buffer
    ensures buffer[..start] == old(buffer[..start]) && start <= name <= buffer.Length && i <= i' <= |source|
    ensures match ReadName(uri, source[i..], i)
            case Failed(c, offset) => code == Some(c) && i' == offset
            case Read(n, taken) =>
              code == None && i' == i + taken && buffer[start..name] == n && isNumber == AllDigits(n)
    ensures code == None ==> Slashes(source[i'..]) == Slashes(source[i..]) && (i' < |source| ==> source[i'] == SLASH)
    ensures behind <==> code == Some(InvalidPercentEncoding) && DecodesBehind(source[i'..])
  {
    hide NextChunk, ReadName, AllDigits, Joined, Slashes, DecodesBehind;
    code, i', name, isNumber, behind := None, i, start, true, false;
    JoinedNothing(ReadName(uri, source[i..], i));
    assert buffer[start..name] == [] && AllDigits([]) by { NoDigits(); }
    while i' < |source| && source[i'] != SLASH
      invariant code == None && !behind && i <= i' <= |source| && start <= name <= buffer.Length
                && name - start <= i' - i
      invariant buffer[..start] == old(buffer[..start])
      invariant isNumber == AllDigits(buffer[start..name])
      invariant Slashes(source[i'..]) == Slashes(source[i..])
      invariant Joined(buffer[start..name], i' - i, ReadName(uri, source[i'..], i')) == ReadName(uri, source[i..], i)
    {
      ghost var prefix, at, s := buffer[start..name], i', source[i'..];
      ghost var from, before := name, buffer[..];
      code, i', name, isNumber, behind := ReadChunk(source, uri, i', buffer, name, isNumber);
      if code != None {
        ReadFails(uri, s, at, prefix, at - i, code.value, i' - at);
        return;
      }
      Grows(before, buffer[..], start, from, name);
      RoundRead(uri, source, at, prefix, at - i, buffer[from..name], i' - at);
    }
    NothingLeft(uri, source[i'..], i');
    JoinedEnd(buffer[start..name], i' - i);
  }

  /** What has been stored stays in front of what is stored behind it. */
  lemma Grows(before: seq<Byte>, after: seq<Byte>, start: nat, from: nat, to: nat)
    requires start <= from <= to <= |after| == |before| && after[..from] == before[..from]
    ensures after[start..to] == before[start..from] + after[from..to]
  {
    assert before[..from][start..] == before[start..from] && after[..from][start..] == after[start..from];
  }

  lemma NoDigits()
    ensures AllDigits([])
  {
  }

  lemma DigitsJoin(a: seq<Byte>, b: seq<Byte>)
    ensures AllDigits(a + b) <==> AllDigits(a) && AllDigits(b)
  {
    if AllDigits(a + b) {
      assert forall k :: 0 <= k < |a| ==> a[k] == (a + b)[k];
      assert forall k :: 0 <= k < |b| ==> b[k] == (a + b)[|a| + k];
    }
  }

  lemma JoinedEnd(prefix: Name, k: nat)
    ensures Joined(prefix, k, Read([], 0)) == Read(prefix, k)
  {
    assert prefix + [] == prefix;
  }

  lemma JoinedNothing(r: Read)
    ensures Joined([], 0, r) == r
  {
  }

  lemma NothingLeft(uri: bool, s: seq<Byte>, at: nat)
    requires s != [] ==> s[0] == SLASH
    ensures ReadName(uri, s, at) == Read([], 0)
  {
  }

  // ---- all tokens -------------------------------------------------------------------------------------------------

  /** A token: where its name starts in the name buffer, how long it is, and the array index it can stand for. */
  datatype Token = Token(name: nat, length: nat, index: nat)

  /** The first tokens hold these names and indices, and all of it lies below cursor. */
  ghost predicate Stored(buffer: seq<Byte>, tokens: seq<Token>, keys: seq<Key>, cursor: nat) {
    && |keys| <= |tokens| && cursor <= |buffer|
    && forall k :: 0 <= k < |keys| ==> Holds(buffer, tokens[k], keys[k], cursor)
  }

  ghost predicate Holds(buffer: seq<Byte>, token: Token, key: Key, cursor: nat) {
    && token.name + token.length <= cursor <= |buffer|
    && buffer[token.name..token.name + token.length] == key.name && token.index == key.index
  }

  lemma StoredStays(buffer: seq<Byte>, buffer': seq<Byte>, tokens: seq<Token>, keys: seq<Key>, cursor: nat,
                    cursor': nat)
    requires Stored(buffer, tokens, keys, cursor) && cursor <= cursor' <= |buffer'|
    requires buffer[..cursor] == buffer'[..cursor]
    ensures Stored(buffer', tokens, keys, cursor')
  {
    forall k | 0 <= k < |keys|
      ensures Holds(buffer', tokens[k], keys[k], cursor')
    {
      var from, to := tokens[k].name, tokens[k].name + tokens[k].length;
      assert buffer[..cursor][from..to] == buffer[from..to] && buffer'[..cursor][from..to] == buffer'[from..to];
    }
  }

  lemma StoredOneMore(buffer: seq<Byte>, tokens: seq<Token>, keys: seq<Key>, cursor: nat, token: Token, key: Key)
    requires Stored(buffer, tokens, keys, cursor) && |keys| < |tokens| && Holds(buffer, token, key, cursor)
    ensures Stored(buffer, tokens[|keys| := token], keys + [key], cursor)
  {
  }

  lemma KeysLength(names: seq<Name>)
    ensures |KeysOf(names)| == |names|
  {
  }

  lemma KeysOneMore(names: seq<Name>, name: Name)
    ensures KeysOf(names + [name]) == KeysOf(names) + [ParsedKey(name)]
  {
  }

  /** The outcome of parsing behind tokens with these names. */
  function Behind(names: seq<Name>, r: Parsed): (t: Parsed) {
    match r case Error(_, _) => r case Tokens(more) => Tokens(names + more)
  }

  lemma BehindOne(uri: bool, s: seq<Byte>, at: nat, names: seq<Name>, name: Name, taken: nat)
    requires s != [] && s[0] == SLASH && ReadName(uri, s[1..], at + 1) == Read(name, taken)
    ensures 1 + taken <= |s| && (1 + taken < |s| ==> s[1 + taken] == SLASH)
    ensures Behind(names, ParseFrom(uri, s, at))
         == Behind(names + [name], ParseFrom(uri, s[1 + taken..], at + 1 + taken))
  {
    hide ReadName;
    assert s[1..][taken..] == s[1 + taken..];
    var r := ParseFrom(uri, s[1 + taken..], at + 1 + taken);
    if r.Tokens? {
      assert names + ([name] + r.names) == names + [name] + r.names;
    }
  }

  lemma BehindFails(uri: bool, s: seq<Byte>, at: nat, names: seq<Name>, code: ErrorCode, offset: nat)
    requires s != [] && s[0] == SLASH && ReadName(uri, s[1..], at + 1) == Failed(code, offset)
    ensures Behind(names, ParseFrom(uri, s, at)) == Error(code, offset)
  {
    hide ReadName;
  }

  lemma BehindEnd(uri: bool, names: seq<Name>, at: nat)
    ensures Behind(names, ParseFrom(uri, [], at)) == Tokens(names)
    ensures Behind([], ParseFrom(uri, [], at)) == Tokens([])
  {
    assert names + [] == names;
  }

  lemma BehindNothing(r: Parsed)
    ensures Behind([], r) == r
  {
    if r.Tokens? {
      assert [] + r.names == r.names;
    }
  }

  /** The conversion of a name to an index, with the two checks in front of it and the overflow test in its loop. */
  method ConvertIndex(buffer: array<Byte>, name: nat, length: nat, digits: bool) returns (index: nat)
    requires name + length <= buffer.Length && digits == AllDigits(buffer[name..name + length])
    ensures index == IndexOf(buffer[name..name + length])
  {
    hide Digit;
    ghost var s := buffer[name..name + length];
    var isNumber := digits;
    if length == 0 {
      isNumber := false;
    }
    if isNumber && length > 1 && buffer[name] == ZERO {
      isNumber := false;
    }
    var n := 0;
    if isNumber {
      assert IndexForm(s);
      for j := 0 to length
        invariant Converted(s[..j]) == Some(n)
      {
        assert s[..j + 1][..j] == s[..j] && s[..j + 1][j] == s[j] == buffer[name + j];
        var m := (n * 10 + HexValue(buffer[name + j])) % WORD;
        if m < n {
          ConvertedFails(s, j + 1);
          return INVALID_INDEX;
        }
        n := m;
      }
      assert s[..length] == s;
      return n;
    }
    return INVALID_INDEX;
  }

  lemma {:induction false} ConvertedFails(s: seq<Byte>, j: nat)
    requires AllDigits(s) && j <= |s| && Converted(s[..j]) == None
    ensures Converted(s) == None
    decreases |s|
  {
    if j == |s| {
      assert s[..j] == s;
    } else {
      var t := s[..|s| - 1];
      assert t[..j] == s[..j];
      ConvertedFails(t, j);
    }
  }

  /** The first pass: the number of tokens. */
  method CountSlashes(source: seq<Byte>) returns (count: nat)
    ensures count == Slashes(source)
  {
    count := 0;
    for s := 0 to |source|
      invariant count == Slashes(source[..s])
    {
      assert source[..s + 1] == source[..s] + [source[s]];
      SlashesAppend(source[..s], [source[s]]);
      if source[s] == SLASH {
        count := count + 1;
      }
    }
    assert source[..|source|] == source;
  }

  /** One round of the outer loop of Parse: a token from its solidus on, stored as number t. */
  method ParseToken(source: seq<Byte>, uri: bool, i: nat, buffer: array<Byte>, toks: array<Token>, t: nat, start: nat,
                    ghost names: seq<Name>)
    returns (code: Option<ErrorCode>, i': nat, name: nat, ghost names': seq<Name>, ghost behind: bool)
    requires i < |source| == buffer.Length && source[i] == SLASH && start + (if uri then 1 else 0) <= i
    requires t == |names| < toks.Length && Stored(buffer[..], toks[..], KeysOf(names), start)
    modifies buffer, toks
    ensures code == None ==>
              i < i' <= |source| && (i' < |source| ==> source[i'] == SLASH)
              && Slashes(source[i'..]) == Slashes(source[i + 1..])
              && name + (if uri then 1 else 0) <= i' && |names'| == t + 1
              && Stored(buffer[..], toks[..], KeysOf(names'), name)
              && Behind(names, ParseFrom(uri, source[i..], i)) == Behind(names', ParseFrom(uri, source[i'..], i'))
    ensures code != None ==> Behind(names, ParseFrom(uri, source[i..], i)) == Error(code.value, i')
    ensures i' <= |source| && (behind <==> code == Some(InvalidPercentEncoding) && DecodesBehind(source[i'..]))
  {
    hide ReadName, ParseFrom, IndexOf, AllDigits, Behind, Slashes, Stored, KeysOf, DecodesBehind;
    ghost var s, before := source[i..], buffer[..];
    assert s[1..] == source[i + 1..];
    var isNumber;
    code, i', name, isNumber, behind := ReadToken(source, uri, i + 1, buffer, start);
    names' := names;
    if code != None {
      BehindFails(uri, s, i, names, code.value, i');
      return;
    }
    ghost var n := buffer[start..name];
    BehindOne(uri, s, i, names, n, i' - i - 1);
    assert s[1 + (i' - i - 1)..] == source[i'..];
    var index := ConvertIndex(buffer, start, name - start, isNumber);
    StoredStays(before, buffer[..], toks[..], KeysOf(names), start, name);
    KeysLength(names);
    StoredOneMore(buffer[..], toks[..], KeysOf(names), name, Token(start, name - start, index), ParsedKey(n));
    KeysOneMore(names, n);
    toks[t] := Token(start, name - start, index);
    names' := names + [n];
    ghost var filled := buffer[..];
    buffer[name] := 0;
    name := name + 1;
    StoredStays(filled, buffer[..], toks[..], KeysOf(names'), name - 1, name);
  }

  /** PercentEncodeStream::Put on every byte that Validate copies. */
  method PutPercent(bytes: seq<Byte>, output: OutputStream<Byte>)
    modifies output
    ensures output.content == old(output.content) + PercentAll(bytes)
  {
    for i := 0 to |bytes|
      invariant output.content + PercentAll(bytes[i..]) == old(output.content) + PercentAll(bytes)
    {
      ghost var before := output.content;
      output.Put(PERCENT);
      output.Put(HexDigit(bytes[i] / 0x10));
      output.Put(HexDigit(bytes[i] % 0x10));
      assert PercentAll(bytes[i..]) == Percent(bytes[i]) + PercentAll(bytes[i + 1..]) by {
        assert bytes[i..][1..] == bytes[i + 1..];
      }
      assert output.content == before + Percent(bytes[i]);
      assert before + (Percent(bytes[i]) + PercentAll(bytes[i + 1..])) == output.content + PercentAll(bytes[i + 1..]);
    }
  }

  /** One round of the loop over a name: what it puts and what it leaves, or that it gives up. */
  method StringifyPiece(uri: bool, name: Name, output: OutputStream<Byte>) returns (ok: bool, taken: nat)
    requires name != []
    modifies output
    ensures ok <==> (Encodes(uri, name[0]) ==> Utf8.Scanned(name).ok)
    ensures ok ==> 0 < taken <= |name| && name[taken..] == Left(uri, name)
                   && output.content == old(output.content) + PieceText(uri, name)
    ensures !ok ==> old(output.content) <= output.content
  {
    hide Utf8.Scanned;
    var c := name[0];
    ok, taken := true, 1;
    if c == TILDE {
      output.Put(TILDE);
      output.Put(ZERO);
    } else if c == SLASH {
      output.Put(TILDE);
      output.Put(ONE);
    } else if uri && NeedPercentEncode(c) {
      var source := new InputStream<Byte>(name, 0);
      var target := new OutputStream<Byte>();
      ok := Utf8.Validate(source, target);
      taken := source.position;
      PutPercent(target.content, output);
      if ok {
        Utf8.EncodeOfDecode(name);
        assert target.content == Utf8.Scanned(name).copied;
      }
    } else {
      output.Put(c);
    }
  }

  /** What is put of a name before the first byte the URI form cannot carry. */
  function Carried(uri: bool, name: Name): (s: seq<Byte>)
    decreases |name|
  {
    if name == [] || (Encodes(uri, name[0]) && !Utf8.Scanned(name).ok) then []
    else PieceText(uri, name) + Carried(uri, Left(uri, name))
  }

  /** The same of all names: the first name that cannot be carried is the last one begun. */
  function AllCarried(uri: bool, names: seq<Name>): (s: seq<Byte>) {
    if names == [] then []
    else [SLASH] + Carried(uri, names[0]) + if NameText(uri, names[0]) == None then [] else AllCarried(uri, names[1..])
  }

  lemma {:induction false} CarriedAll(uri: bool, name: Name)
    ensures NameText(uri, name).Some? ==> NameText(uri, name).value == Carried(uri, name)
    decreases |name|
  {
    hide Utf8.Scanned, PieceText, Left;
    if name != [] && NameText(uri, name).Some? {
      CarriedAll(uri, Left(uri, name));
    }
  }

  method StringifyName(uri: bool, name: Name, output: OutputStream<Byte>) returns (ok: bool)
    modifies output
    ensures ok <==> NameText(uri, name).Some?
    ensures ok ==> output.content == old(output.content) + NameText(uri, name).value
    ensures !ok ==> old(output.content) + Carried(uri, name) <= output.content
  {
    hide Utf8.Scanned, PieceText, Left;
    ok := true;
    var j := 0;
    assert name[0..] == name;
    while j < |name|
      invariant 0 <= j <= |name|
      invariant Printed(old(output.content), output.content, NameText(uri, name), NameText(uri, name[j..]))
      invariant output.content + Carried(uri, name[j..]) == old(output.content) + Carried(uri, name)
    {
      var taken;
      ghost var before := output.content;
      ok, taken := StringifyPiece(uri, name[j..], output);
      if !ok {
        assert Carried(uri, name[j..]) == [];
        return false;
      }
      assert name[j..][taken..] == name[j + taken..];
      PieceGoes(uri, name[j..], before);
      j := j + taken;
    }
    ok := true;
  }

  lemma PieceGoes(uri: bool, name: Name, before: seq<Byte>)
    requires name != [] && (Encodes(uri, name[0]) ==> Utf8.Scanned(name).ok)
    ensures NameText(uri, name).Some? <==> NameText(uri, Left(uri, name)).Some?
    ensures NameText(uri, name).Some? ==>
              before + NameText(uri, name).value
              == before + PieceText(uri, name) + NameText(uri, Left(uri, name)).value
    ensures before + Carried(uri, name) == before + PieceText(uri, name) + Carried(uri, Left(uri, name))
  {
    hide Utf8.Scanned, PieceText, Left;
  }

  class GenericPointer {
    var nameBuffer: array<Byte>
    var tokens: array<Token>
    var tokenCount: nat
    var parseErrorCode: Option<ErrorCode>
    var parseErrorOffset: nat

    /** The tokens are these. */
    ghost predicate Has(keys: seq<Key>)
      reads this, nameBuffer, tokens
    {
      |keys| == tokenCount == tokens.Length && Stored(nameBuffer[..], tokens[..], keys, nameBuffer.Length)
    }

    constructor ()
      ensures Has([]) && parseErrorCode == None
      ensures fresh(nameBuffer) && fresh(tokens)
    {
      nameBuffer := new Byte[0];
      tokens := new Token[0];
      tokenCount := 0;
      parseErrorCode := None;
      parseErrorOffset := 0;
    }

    /**
     * Parse: the tokens and indices, or the error and its offset, are those of the grammar. The name buffer is no
     * longer than the source and the token array is full exactly when the source ends. behind tells whether a byte
     * behind the end of the source is read.
     */
    method Parse(source: seq<Byte>) returns (ghost behind: bool)
      requires tokenCount == 0 && parseErrorCode == None
      modifies this
      ensures match PointerText.Parse(source)
              case Tokens(names) => parseErrorCode == None && Has(KeysOf(names)) && tokenCount == Slashes(source)
              case Error(code, offset) => parseErrorCode == Some(code) && parseErrorOffset == offset && tokenCount == 0
      ensures parseErrorCode == None ==> nameBuffer.Length == |source|
      ensures behind <==> ReadsBehind(source)
    {
      hide ReadName, ParseFrom, IndexOf, AllDigits, Behind, Slashes, DecodesBehind, KeysOf;
      behind := source == [];
      var count := CountSlashes(source);
      var toks := new Token[count];
      var buffer := new Byte[|source|];
      var i := 0;
      var uri := false;
      if source != [] && source[0] == HASH {
        uri := true;
        i := 1;
      }
      HashIsNoSlash(source, i);
      if i != |source| && source[i] != SLASH {
        parseErrorCode, parseErrorOffset, tokenCount := Some(TokenMustBeginWithSolidus), i, 0;
        return;
      }
      ghost var names: seq<Name> := [];
      ghost var at := i;
      BehindNothing(ParseFrom(uri, source[i..], i));
      var t: nat, name: nat := 0, 0;
      while i < |source|
        invariant i <= |source| && name + (if uri then 1 else 0) <= i
        invariant i < |source| ==> source[i] == SLASH
        invariant t == |names| && t + Slashes(source[i..]) == count
        invariant Stored(buffer[..], toks[..], KeysOf(names), name)
        invariant behind <==> source == []
        invariant Behind(names, ParseFrom(uri, source[i..], i)) == PointerText.Parse(source)
      {
        SlashAt(source, i);
        var code;
        code, i, name, names, behind := ParseToken(source, uri, i, buffer, toks, t, name, names);
        if code != None {
          parseErrorCode, parseErrorOffset, tokenCount := code, i, 0;
          return;
        }
        t := t + 1;
      }
      BehindEnd(uri, names, i);
      assert source[i..] == [];
      nameBuffer, tokens, tokenCount := buffer, toks, count;
      StoredStays(buffer[..], buffer[..], toks[..], KeysOf(names), name, buffer.Length);
      KeysLength(names);
      parseErrorCode := None;
    }

    /** Stringify; false where the URI form meets a name that is no UTF-8. */
    method Stringify(uriFragment: bool, output: OutputStream<Byte>, ghost keys: seq<Key>) returns (ok: bool)
      requires parseErrorCode == None && Has(keys)
      modifies output
      ensures var names := NamesOf(keys);
              && (ok <==> PointerText.Stringify(uriFragment, names).Some?)
              && (ok ==> output.content == old(output.content) + PointerText.Stringify(uriFragment, names).value)
              && (!ok ==> old(output.content) + [HASH] + AllCarried(uriFragment, names) <= output.content)
    {
      hide NamesText, NameText, Stored, Carried, AllCarried, Printed, PointerText.Stringify;
      ghost var names := NamesOf(keys);
      ghost var start := output.content + if uriFragment then [HASH] else [];
      if uriFragment {
        output.Put(HASH);
      }
      assert output.content == start;
      NothingPrinted(start, uriFragment, names);
      for t := 0 to tokenCount
        invariant Printed(start, output.content, NamesText(uriFragment, names), NamesText(uriFragment, names[t..]))
        invariant output.content + AllCarried(uriFragment, names[t..]) == start + AllCarried(uriFragment, names)
      {
        StoredAt(nameBuffer[..], tokens[..], keys, nameBuffer.Length, t);
        var token := tokens[t];
        ghost var before := output.content;
        output.Put(SLASH);
        ok := StringifyName(uriFragment, nameBuffer[token.name..token.name + token.length], output);
        if !ok {
          NameStuck(start, before, output.content, uriFragment, names, t);
          return false;
        }
        NameDone(start, before, output.content, uriFragment, names, t);
      }
      AllPrinted(start, output.content, uriFragment, names);
      return true;
    }

    /** operator==: both are valid and have the same tokens. */
    method Equals(rhs: GenericPointer, ghost keys: seq<Key>, ghost keys': seq<Key>) returns (equal: bool)
      requires parseErrorCode == None ==> Has(keys)
      requires rhs.parseErrorCode == None ==> rhs.Has(keys')
      ensures equal <==> parseErrorCode == None && rhs.parseErrorCode == None && keys == keys'
    {
      if parseErrorCode != None || rhs.parseErrorCode != None || tokenCount != rhs.tokenCount {
        return false;
      }
      for i := 0 to tokenCount
        invariant keys[..i] == keys'[..i]
      {
        var a, b := tokens[i], rhs.tokens[i];
        assert Holds(nameBuffer[..], a, keys[i], nameBuffer.Length);
        assert Holds(rhs.nameBuffer[..], b, keys'[i], rhs.nameBuffer.Length);
        if a.index != b.index || a.length != b.length
           || nameBuffer[a.name..a.name + a.length] != rhs.nameBuffer[b.name..b.name + b.length] {
          return false;
        }
      }
      return true;
    }

    /** Append of a token: a new pointer with the buffers copied and one token more. */
    method Append(name: Name, index: nat, ghost keys: seq<Key>) returns (r: GenericPointer)
      requires parseErrorCode == None && Has(keys)
      ensures fresh(r) && r.parseErrorCode == None && r.Has(keys + [Key(name, index)])
    {
      hide Stored;
      var bytes := nameBuffer[..] + (name + [0]);
      var all := tokens[..] + [Token(nameBuffer.Length, |name|, index)];
      var buffer := new Byte[|bytes|](i requires 0 <= i < |bytes| => bytes[i]);
      var toks := new Token[|all|](i requires 0 <= i < |all| => all[i]);
      assert buffer[..] == bytes && toks[..] == all;
      StoredAppended(nameBuffer[..], tokens[..], keys, name, index);
      r := new GenericPointer();
      r.nameBuffer, r.tokens, r.tokenCount := buffer, toks, tokenCount + 1;
    }
  }

  /** From start on, out holds all of the text but left; nothing more can come when the text does not exist. */
  ghost predicate Printed(start: seq<Byte>, out: seq<Byte>, all: Option<seq<Byte>>, left: Option<seq<Byte>>) {
    (all.Some? <==> left.Some?) && (all.Some? ==> out + left.value == start + all.value)
  }

  lemma StoredAppended(buffer: seq<Byte>, tokens: seq<Token>, keys: seq<Key>, name: Name, index: nat)
    requires Stored(buffer, tokens, keys, |buffer|) && |tokens| == |keys|
    ensures var bytes := buffer + (name + [0]);
            Stored(bytes, tokens + [Token(|buffer|, |name|, index)], keys + [Key(name, index)], |bytes|)
  {
    var bytes, all := buffer + (name + [0]), tokens + [Token(|buffer|, |name|, index)];
    forall k | 0 <= k < |keys| + 1
      ensures Holds(bytes, all[k], (keys + [Key(name, index)])[k], |bytes|)
    {
      if k < |keys| {
        assert Holds(buffer, tokens[k], keys[k], |buffer|);
        assert bytes[tokens[k].name..tokens[k].name + tokens[k].length]
            == buffer[tokens[k].name..tokens[k].name + tokens[k].length];
      } else {
        assert bytes[|buffer|..|buffer| + |name|] == name;
      }
    }
  }

  lemma StoredAt(buffer: seq<Byte>, tokens: seq<Token>, keys: seq<Key>, cursor: nat, t: nat)
    requires Stored(buffer, tokens, keys, cursor) && t < |keys|
    ensures Holds(buffer, tokens[t], keys[t], cursor)
  {
  }

  lemma NameGoes(uri: bool, names: seq<Name>, t: nat)
    requires t < |names|
    ensures NamesText(uri, names[t..])
         == match (NameText(uri, names[t]), NamesText(uri, names[t + 1..]))
            case (Some(text), Some(more)) => Some([SLASH] + text + more)
            case _ => None
    ensures AllCarried(uri, names[t..])
         == [SLASH] + Carried(uri, names[t])
            + if NameText(uri, names[t]) == None then [] else AllCarried(uri, names[t + 1..])
  {
    hide NameText, Carried;
    assert names[t..][1..] == names[t + 1..];
  }

  /** A name that has been put brings the output one name forward. */
  lemma NameDone(start: seq<Byte>, before: seq<Byte>, out: seq<Byte>, uri: bool, names: seq<Name>, t: nat)
    requires t < |names| && Printed(start, before, NamesText(uri, names), NamesText(uri, names[t..]))
    requires before + AllCarried(uri, names[t..]) == start + AllCarried(uri, names)
    requires NameText(uri, names[t]).Some? && out == before + [SLASH] + NameText(uri, names[t]).value
    ensures Printed(start, out, NamesText(uri, names), NamesText(uri, names[t + 1..]))
    ensures out + AllCarried(uri, names[t + 1..]) == start + AllCarried(uri, names)
  {
    hide NameText, Carried, NamesText, AllCarried;
    NameGoes(uri, names, t);
    CarriedAll(uri, names[t]);
    var text, rest := NameText(uri, names[t]).value, AllCarried(uri, names[t + 1..]);
    assert before + ([SLASH] + text + rest) == out + rest;
    if NamesText(uri, names).Some? {
      var more := NamesText(uri, names[t + 1..]).value;
      assert before + ([SLASH] + text + more) == out + more;
    }
  }

  /** A name that cannot be put ends the output behind what can be. */
  lemma NameStuck(start: seq<Byte>, before: seq<Byte>, out: seq<Byte>, uri: bool, names: seq<Name>, t: nat)
    requires t < |names| && Printed(start, before, NamesText(uri, names), NamesText(uri, names[t..]))
    requires before + AllCarried(uri, names[t..]) == start + AllCarried(uri, names)
    requires NameText(uri, names[t]) == None && before + [SLASH] + Carried(uri, names[t]) <= out
    ensures uri && PointerText.Stringify(uri, names) == None && start + AllCarried(uri, names) <= out
  {
    hide NameText, Carried, NamesText, AllCarried;
    NameGoes(uri, names, t);
    NotUriOk(uri, names[t]);
    assert before + ([SLASH] + Carried(uri, names[t]) + []) == before + [SLASH] + Carried(uri, names[t]);
  }

  lemma AllPrinted(start: seq<Byte>, out: seq<Byte>, uri: bool, names: seq<Name>)
    requires Printed(start, out, NamesText(uri, names), NamesText(uri, names[|names|..]))
    ensures PointerText.Stringify(uri, names).Some?
    ensures forall before: seq<Byte> :: start == before + (if uri then [HASH] else []) ==>
              out == before + PointerText.Stringify(uri, names).value
  {
    hide NamesText;
    assert names[|names|..] == [];
    NoNames(uri);
    var text := NamesText(uri, names).value;
    assert out == start + text;
  }

  lemma NoNames(uri: bool)
    ensures NamesText(uri, []) == Some([])
  {
  }

  /** The plain form carries every name. */
  lemma NotUriOk(uri: bool, name: Name)
    requires NameText(uri, name) == None
    ensures uri
  {
    if !uri {
      StringifyExists(false, [name]);
      assert false;
    }
  }

  lemma NothingPrinted(start: seq<Byte>, uri: bool, names: seq<Name>)
    ensures Printed(start, start, NamesText(uri, names), NamesText(uri, names[0..]))
  {
    assert names[0..] == names;
  }

  lemma HashIsNoSlash(source: seq<Byte>, i: nat)
    requires i == 0 || (i == 1 && source != [] && source[0] == HASH)
    ensures Slashes(source[i..]) == Slashes(source)
  {
    assert source[0..] == source;
  }

  lemma SlashAt(source: seq<Byte>, i: nat)
    requires i < |source| && source[i] == SLASH
    ensures Slashes(source[i..]) == 1 + Slashes(source[i + 1..])
  {
    assert source[i..][1..] == source[i + 1..];
  }
}
