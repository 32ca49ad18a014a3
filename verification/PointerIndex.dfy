/** The index a token gets from its name: GenericPointer::Parse and Append of pointer.h. */
module PointerIndex {
  import opened ByteStreams
  import opened JsonText
  import opened PointerText
  import opened Wrappers

  const WORD: int := 0x1_0000_0000
  const INVALID_INDEX: nat := 0xFFFF_FFFF

  /** The array-index form of section 4 of RFC 6901: digits without a leading zero. */
  predicate IndexForm(name: Name) {
    name != [] && AllDigits(name) && (|name| > 1 ==> name[0] != ZERO)
  }

  /** The conversion loop, in 32-bit arithmetic; None once the overflow test has fired. */
  function Converted(s: seq<Byte>): (r: Option<nat>)
    requires AllDigits(s)
    ensures r.Some? ==> r.value < WORD
  {
    if s == [] then Some(0)
    else
      assert Digit(s[|s| - 1]);
      match Converted(s[..|s| - 1])
      case None => None
      case Some(n) =>
        var m := (n * 10 + HexValue(s[|s| - 1])) % WORD;
        if m < n then None else Some(m)
  }

  /** The index Parse stores for a name. */
  function IndexOf(name: Name): (index: nat)
    ensures index < WORD
  {
    if !IndexForm(name) then INVALID_INDEX
    else match Converted(name) case None => INVALID_INDEX case Some(n) => n
  }

  /** Below 2 to the 32 the loop computes the value itself, and the overflow test never fires. */
  lemma {:induction false} ConvertedExact(s: seq<Byte>)
    requires AllDigits(s) && DigitsValue(s) < WORD
    ensures Converted(s) == Some(DigitsValue(s))
  {
    if s != [] {
      assert Digit(s[|s| - 1]);
      ConvertedExact(s[..|s| - 1]);
    }
  }

  /** A name in index form whose value is below the invalid index gets that value; so does one Append has printed. */
  lemma IndexIsValue(name: Name)
    requires IndexForm(name) && DigitsValue(name) < WORD
    ensures IndexOf(name) == DigitsValue(name)
  {
    ConvertedExact(name);
  }

  lemma DecimalForm(n: nat)
    ensures IndexForm(Decimal(n)) && DigitsValue(Decimal(n)) == n
  {
    DecimalDigits(n);
    if n == 0 {
      assert Decimal(n) == [ZERO];
    }
  }

  /** The names in index form are the decimal texts of the numbers. */
  lemma {:induction false} IndexFormIff(name: Name)
    ensures IndexForm(name) <==> AllDigits(name) && name == Decimal(DigitsValue(name))
  {
    hide Decimal;
    if AllDigits(name) {
      DecimalForm(DigitsValue(name));
      if IndexForm(name) {
        FormIsDecimal(name);
      }
    }
  }

  lemma {:induction false} FormIsDecimal(name: Name)
    requires IndexForm(name)
    ensures name == Decimal(DigitsValue(name)) && (name[0] != ZERO ==> DigitsValue(name) > 0)
  {
    var t := name[..|name| - 1];
    var d := name[|name| - 1];
    assert Digit(d) && name == t + [d];
    if t == [] {
      assert DigitsValue(t) == 0;
    } else {
      FormIsDecimal(t);
      LastDigit(DigitsValue(t), HexValue(d));
    }
  }

  lemma LastDigit(n: nat, d: int)
    requires n > 0 && 0 <= d < 10
    ensures Decimal(10 * n + d) == Decimal(n) + [ZERO + d]
  {
    DecimalPrefix(10 * n + d);
  }

  // ---- tokens -----------------------------------------------------------------------------------------------------

  /** A token: its name, and the array index it can stand for. */
  datatype Key = Key(name: Name, index: nat)

  const DASH: Name := [0x2D]

  /** The documentation has "-" stand for no index; Parse and each form of Append make only such tokens. */
  predicate Sound(key: Key) {
    key.name == DASH ==> key.index == INVALID_INDEX
  }

  predicate AllSound(keys: seq<Key>) {
    forall k :: 0 <= k < |keys| ==> Sound(keys[k])
  }

  function ParsedKey(name: Name): (key: Key) {
    Key(name, IndexOf(name))
  }

  /** The tokens Parse makes of these names. */
  function KeysOf(names: seq<Name>): (keys: seq<Key>)
    ensures |keys| == |names| && forall k :: 0 <= k < |names| ==> keys[k] == ParsedKey(names[k])
  {
    seq(|names|, k requires 0 <= k < |names| => ParsedKey(names[k]))
  }

  function NamesOf(keys: seq<Key>): (names: seq<Name>)
    ensures |names| == |keys| && forall k :: 0 <= k < |keys| ==> names[k] == keys[k].name
  {
    seq(|keys|, k requires 0 <= k < |keys| => keys[k].name)
  }

  /** Append(name, length). */
  function NameKey(name: Name): (key: Key) {
    Key(name, INVALID_INDEX)
  }

  /** Append(index). */
  function IndexKey(index: nat): (key: Key) {
    Key(Decimal(index), index)
  }

  lemma KeysAreSound(names: seq<Name>, name: Name, index: nat)
    ensures AllSound(KeysOf(names)) && Sound(NameKey(name)) && Sound(IndexKey(index))
  {
    assert !AllDigits(DASH) by { assert !Digit(DASH[0]); }
    DecimalForm(index);
  }

  /** Append(index) makes the token that parsing its name makes. */
  lemma AppendAgrees(index: nat)
    requires index < WORD
    ensures IndexKey(index) == ParsedKey(Decimal(index))
  {
    DecimalForm(index);
    IndexIsValue(Decimal(index));
  }

  // ---- beyond 32 bits ---------------------------------------------------------------------------------------------

  /** The true value never drops, cut to 32 bits, when a digit is added. */
  predicate NeverDrops(s: seq<Byte>)
    requires AllDigits(s)
  {
    s == [] || (DigitsValue(s[..|s| - 1]) % WORD <= DigitsValue(s) % WORD && NeverDrops(s[..|s| - 1]))
  }

  lemma {:induction false} ConvertedIs(s: seq<Byte>)
    requires AllDigits(s)
    ensures Converted(s) == if NeverDrops(s) then Some(DigitsValue(s) % WORD) else None
  {
    if s != [] {
      var t := s[..|s| - 1];
      assert Digit(s[|s| - 1]);
      ConvertedIs(t);
      Shifted(DigitsValue(t), HexValue(s[|s| - 1]));
    }
  }

  lemma Shifted(n: nat, d: nat)
    ensures (n % WORD * 10 + d) % WORD == (10 * n + d) % WORD
  {
    var q, r := n / WORD, n % WORD;
    assert 10 * n + d == 10 * q * WORD + (r * 10 + d);
    Multiples(10 * q, r * 10 + d);
  }

  lemma Multiples(q: nat, x: nat)
    ensures (q * WORD + x) % WORD == x % WORD
  {
    if q > 0 {
      Multiples(q - 1, x);
      assert q * WORD + x == WORD + ((q - 1) * WORD + x);
    }
  }

  /**
   * The documentation promises an invalid index for every number out of bounds. A name keeps a valid index although
   * its number is 2 to the 32 or more exactly when no added digit makes the value, cut to 32 bits, drop.
   */
  lemma OverflowUnnoticed(name: Name)
    requires IndexForm(name) && DigitsValue(name) >= WORD
    ensures IndexOf(name) != INVALID_INDEX <==> NeverDrops(name) && DigitsValue(name) % WORD != INVALID_INDEX
    ensures NeverDrops(name) ==> IndexOf(name) == DigitsValue(name) % WORD
  {
    ConvertedIs(name);
  }

  /** In the first decade beyond 32 bits: the number is taken modulo 2 to the 32 unless that is below a tenth of it. */
  lemma OverflowByOneDigit(n: nat)
    requires WORD <= n < 10 * WORD
    ensures IndexOf(Decimal(n)) == if n % WORD < n / 10 then INVALID_INDEX else n % WORD
  {
    hide Decimal, NeverDrops, IndexForm;
    DecimalForm(n);
    DecimalPrefix(n);
    DecimalForm(n / 10);
    ConvertedExact(Decimal(n / 10));
    assert Converted(Decimal(n)) == (if n % WORD < n / 10 then None else Some(n % WORD));
  }

  /** 8589934590 gets the index 4294967294. */
  lemma OverflowExample()
    ensures IndexOf(Decimal(8589934590)) == 4294967294
  {
    hide IndexOf, Decimal;
    OverflowByOneDigit(8589934590);
  }

  lemma DecimalPrefix(n: nat)
    requires n >= 10
    ensures Decimal(n) != [] && Decimal(n)[..|Decimal(n)| - 1] == Decimal(n / 10)
    ensures Decimal(n)[|Decimal(n)| - 1] == ZERO + n % 10
  {
  }
}
