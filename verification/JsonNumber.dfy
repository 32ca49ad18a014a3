/** The integer part of ParseNumber in reader.h: its overflow tests are exact at 32 and at 64 bits. */
module JsonNumber {
  import opened ByteStreams
  import opened JsonReader
  import opened JsonText
  import opened JsonValue
  import opened Wrappers

  /** The greatest magnitude that is sent as a 32-bit number, and as a 64-bit one. */
  function Limit(minus: bool, wide: bool): (n: nat) {
    if wide then if minus then 0x8000_0000_0000_0000 else 0xFFFF_FFFF_FFFF_FFFF
    else if minus then 0x8000_0000 else 0xFFFF_FFFF
  }

  lemma {:induction false} PrefixIsSmaller(s: seq<Byte>, k: nat)
    requires AllDigits(s) && k <= |s|
    ensures AllDigits(s[..k]) && DigitsValue(s[..k]) <= DigitsValue(s)
    decreases |s|
  {
    if k == |s| {
      assert s[..k] == s;
    } else {
      assert Digit(s[|s| - 1]);
      assert s[..|s| - 1][..k] == s[..k];
      PrefixIsSmaller(s[..|s| - 1], k);
    }
  }

  lemma OneMoreDigit(s: seq<Byte>, k: nat)
    requires AllDigits(s) && k < |s|
    ensures AllDigits(s[..k]) && AllDigits(s[..k + 1])
    ensures DigitsValue(s[..k + 1]) == 10 * DigitsValue(s[..k]) + HexValue(s[k])
  {
    assert s[..k + 1][..k] == s[..k] && s[..k + 1][k] == s[k];
  }

  /**
   * One of the four loops: n, the value of the first pos digits, is carried on while it stays within the limit. The
   * test compares it with a tenth of the limit, and the next digit with the limit's last one.
   */
  method Accumulate(digits: seq<Byte>, start: nat, n: nat, minus: bool, wide: bool)
    returns (pos: nat, n': nat, exceeded: bool)
    requires AllDigits(digits) && start <= |digits| && n == DigitsValue(digits[..start]) && n <= Limit(minus, wide)
    ensures start <= pos <= |digits| && n' == DigitsValue(digits[..pos]) && n' <= Limit(minus, wide)
    ensures exceeded <==> DigitsValue(digits) > Limit(minus, wide)
    ensures !exceeded ==> pos == |digits|
  {
    var tenth := Limit(minus, wide) / 10;
    var last := Limit(minus, wide) % 10;
    pos, n' := start, n;
    while pos < |digits|
      invariant start <= pos <= |digits| && n' == DigitsValue(digits[..pos]) && n' <= Limit(minus, wide)
    {
      OneMoreDigit(digits, pos);
      var digit := HexValue(digits[pos]);
      if n' >= tenth {
        if n' != tenth || digit > last {
          PrefixIsSmaller(digits, pos + 1);
          return pos, n', true;
        }
      }
      n' := n' * 10 + digit;
      pos := pos + 1;
    }
    assert digits[..pos] == digits;
    return pos, n', false;
  }

  /** The event of a magnitude: complementing it and adding one makes it negative. */
  function Signed(minus: bool, signed: Width, unsigned: Width, magnitude: nat): (e: Event)
    requires magnitude <= if minus then 0x8000_0000_0000_0000 else 0xFFFF_FFFF_FFFF_FFFF
  {
    var n: int := magnitude;
    if minus then NumberEvent(signed, 0 - n) else NumberEvent(unsigned, n)
  }

  /** What ParseNumber sends for an integer; None where it goes on with a double. */
  method SendInteger(digits: seq<Byte>, minus: bool) returns (e: Option<Event>)
    requires digits != [] && AllDigits(digits)
    ensures e == Sent(minus, DigitsValue(digits))
  {
    assert digits[..0] == [];
    var pos, i, use64bit := Accumulate(digits, 0, 0, minus, false);
    if !use64bit {
      assert digits[..pos] == digits;
      return Some(Signed(minus, Int, Uint, i));
    }
    var useDouble;
    pos, i, useDouble := Accumulate(digits, pos, i, minus, true);
    if useDouble {
      return None;
    }
    assert digits[..pos] == digits;
    return Some(Signed(minus, Int64, Uint64, i));
  }
}
