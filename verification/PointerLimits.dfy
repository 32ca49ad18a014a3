/** Which tokens printing and parsing give back, and which sources Parse reads behind the end. */
module PointerLimits {
  import opened ByteStreams
  import opened JsonPointer
  import opened JsonText
  import opened PointerIndex
  import opened PointerRoundTrip
  import opened PointerText

  // ---- what comes back --------------------------------------------------------------------------------------------

  /**
   * Printing any tokens, from wherever they are, and parsing the text gives the tokens back exactly when each has the
   * index its name stands for.
   */
  lemma TokensComeBackIff(uri: bool, keys: seq<Key>)
    requires Stringify(uri, NamesOf(keys)).Some?
    ensures Parse(Stringify(uri, NamesOf(keys)).value) == Tokens(NamesOf(keys))
    ensures KeysOf(NamesOf(keys)) == keys <==> forall k :: 0 <= k < |keys| ==> keys[k].index == IndexOf(keys[k].name)
  {
    hide Stringify, IndexOf;
    ParseOfStringify(uri, NamesOf(keys));
    var back := KeysOf(NamesOf(keys));
    if forall k :: 0 <= k < |keys| ==> keys[k].index == IndexOf(keys[k].name) {
      assert forall k :: 0 <= k < |keys| ==> back[k] == keys[k];
    }
    if back == keys {
      assert forall k :: 0 <= k < |keys| ==> keys[k] == ParsedKey(keys[k].name);
    }
  }

  /**
   * A token appended by its name alone, as the library stores no index for it, comes back exactly when the name is no
   * index; one appended by its index always does.
   */
  lemma AppendedComesBackIff(names: seq<Name>, name: Name, index: nat)
    requires index < WORD
    ensures var keys := KeysOf(names) + [NameKey(name)];
            KeysOf(NamesOf(keys)) == keys <==> IndexOf(name) == INVALID_INDEX
    ensures var keys := KeysOf(names) + [IndexKey(index)];
            KeysOf(NamesOf(keys)) == keys
  {
    hide IndexOf;
    AppendAgrees(index);
    BackAppended(names, NameKey(name));
    BackAppended(names, IndexKey(index));
  }

  lemma BackAppended(names: seq<Name>, key: Key)
    ensures var keys := KeysOf(names) + [key];
            KeysOf(NamesOf(keys)) == keys <==> key == ParsedKey(key.name)
  {
    var keys := KeysOf(names) + [key];
    var back := KeysOf(NamesOf(keys));
    assert back[|names|] == ParsedKey(key.name) && keys[|names|] == key;
    assert forall k :: 0 <= k < |names| ==> back[k] == keys[k];
  }

  // ---- which sources are read behind the end ----------------------------------------------------------------------

  /** A byte that is right at place j of a triplet. */
  predicate Fits(s: seq<Byte>, j: nat)
    requires j < |s|
  {
    if j == 0 then s[j] == PERCENT else HexValue(s[j]) >= 0
  }

  /** Taking a percent-encoded byte goes as far as there is one; less than three bytes are not looked at. */
  lemma TakesTriplet(s: seq<Byte>)
    ensures var k := |s| - |TakeRest(s)|;
            && 0 <= k <= 3 && TakeRest(s) == s[k..] && (|s| < 3 ==> k == 0)
            && (|s| >= 3 ==> (forall j :: 0 <= j < k ==> Fits(s, j)) && (k < 3 ==> !Fits(s, k)))
  {
  }

  /** Only a URI fragment that ends in a percent-encoded byte, or nothing, makes Parse read behind the end. */
  lemma BehindEndsInTriplet(source: seq<Byte>)
    requires ReadsBehind(source) && source != []
    ensures |source| >= 4 && source[0] == HASH && Triplet(source[|source| - 3..])
  {
    hide ParseFrom, MeetsEnd, Triplet, TakeRest;
    var i := Parse(source).offset;
    DecodesToEnd(source[i..]);
    var s := source[i..];
    assert s[|s| - 3..] == source[|source| - 3..];
    ParsedUri(source);
  }

  lemma DecodesToEnd(s: seq<Byte>)
    requires DecodesBehind(s)
    ensures |s| >= 3 && Triplet(s[|s| - 3..])
  {
    hide MeetsEnd;
    var masks := Utf8.TailMasks(Utf8.GetRange(Triplets(s)[0])).value;
    assert TakeRest(s) == s[3..];
    if s[3..] == [] {
      assert s[|s| - 3..] == s;
    } else {
      MeetsEndInTriplet(s[3..], |masks|);
      assert s[3..][|s| - 6..] == s[|s| - 3..];
    }
  }

  lemma {:induction false} MeetsEndInTriplet(s: seq<Byte>, takes: nat)
    requires s != [] && MeetsEnd(s, takes)
    ensures |s| >= 3 && Triplet(s[|s| - 3..])
    decreases takes
  {
    hide TakeRest, Triplet;
    var rest := TakeRest(s);
    RestOf(s);
    if rest != [] {
      MeetsEndInTriplet(rest, takes - 1);
      SameEnd(s, rest);
    }
  }

  lemma RestOf(s: seq<Byte>)
    requires s != []
    ensures |TakeRest(s)| <= |s| && TakeRest(s) == s[|s| - |TakeRest(s)|..]
    ensures TakeRest(s) == [] ==> |s| == 3 && Triplet(s[|s| - 3..])
  {
    assert |s| == 3 ==> s[0..] == s;
  }

  lemma SameEnd(s: seq<Byte>, rest: seq<Byte>)
    requires 3 <= |rest| <= |s| && rest == s[|s| - |rest|..]
    ensures rest[|rest| - 3..] == s[|s| - 3..]
  {
  }

  lemma {:induction false} ReadFailure(uri: bool, s: seq<Byte>, at: nat)
    requires ReadName(uri, s, at).Failed?
    ensures ReadName(uri, s, at).code == InvalidPercentEncoding ==> uri
    ensures ReadName(uri, s, at).offset >= at
    decreases |s|
  {
    hide Utf8.Scanned, Triplets;
    var chunk := NextChunk(uri, s);
    if chunk.Chunk? {
      ReadFailure(uri, s[chunk.taken..], at + chunk.taken);
    }
  }

  lemma {:induction false} ParseFailure(uri: bool, s: seq<Byte>, at: nat)
    requires (s != [] ==> s[0] == SLASH) && ParseFrom(uri, s, at).Error?
    ensures ParseFrom(uri, s, at).code == InvalidPercentEncoding ==> uri
    ensures ParseFrom(uri, s, at).offset > at
    decreases |s|
  {
    hide ReadName;
    var r := ReadName(uri, s[1..], at + 1);
    if r.Read? {
      ParseFailure(uri, s[1 + r.taken..], at + 1 + r.taken);
    } else {
      ReadFailure(uri, s[1..], at + 1);
    }
  }

  lemma ParsedUri(source: seq<Byte>)
    requires Parse(source).Error? && Parse(source).code == InvalidPercentEncoding
    ensures source != [] && source[0] == HASH && Parse(source).offset > 0
  {
    hide ParseFrom;
    var at := if source != [] && source[0] == HASH then 1 else 0;
    ParseFailure(at == 1, source[at..], at);
  }

  /** The shortest such fragment with a token: "#/%E4" stops where two bytes more are due. */
  lemma BehindExample()
    ensures ReadsBehind([HASH, SLASH, PERCENT, 0x45, 0x34])
  {
  }
}
