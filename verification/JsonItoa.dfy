/** u32toa, i32toa, u64toa and i64toa of internal/itoa.h, which print two digits at a time: the plain decimal text. */
module JsonItoa {
  import opened ByteStreams
  import opened JsonText

  const TEN4 := 1_0000
  const TEN8 := 1_0000_0000
  const TEN16 := 1_0000_0000_0000_0000

  /** The table of the digits of 00 to 99. */
  function Lut(i: nat): (c: Byte)
    requires i < 200
  {
    if i % 2 == 0 then ZERO + i / 20 else ZERO + i / 2 % 10
  }

  function Pow10(k: nat): (p: nat)
    ensures p > 0
  {
    if k == 0 then 1 else 10 * Pow10(k - 1)
  }

  /** The last k digits of n, with leading zeros. */
  function Padded(n: nat, k: nat): (s: seq<Byte>)
    ensures |s| == k
  {
    if k == 0 then [] else Padded(n / 10, k - 1) + [ZERO + n % 10]
  }

  /** How many leading zeros a number of at most k digits has. */
  function Zeros(n: nat, k: nat): (z: nat)
    ensures k > 0 ==> z < k
  {
    if k <= 1 || n >= Pow10(k - 1) then 0 else 1 + Zeros(n, k - 1)
  }

  lemma Powers()
    ensures Pow10(1) == 10 && Pow10(2) == 100 && Pow10(3) == 1000 && Pow10(4) == TEN4
    ensures Pow10(8) == TEN8 && Pow10(16) == TEN16
  {
    PowerAdds(4, 4);
    PowerAdds(8, 8);
  }

  lemma {:induction false} PowerAdds(j: nat, k: nat)
    ensures Pow10(j + k) == Pow10(j) * Pow10(k)
  {
    if j > 0 {
      PowerAdds(j - 1, k);
    }
  }

  lemma LastDigit(front: nat, back: nat, k: nat)
    requires k > 0 && back < Pow10(k)
    ensures var n := front * Pow10(k) + back;
            n / 10 == front * Pow10(k - 1) + back / 10 && n % 10 == back % 10
    ensures back / 10 < Pow10(k - 1)
  {
    var n := front * Pow10(k) + back;
    assert front * Pow10(k) == 10 * (front * Pow10(k - 1));
    assert n == 10 * (front * Pow10(k - 1) + back / 10) + back % 10;
  }

  /** A number's digits are those of its front part and then those of its back part. */
  lemma {:induction false} PaddedSplits(front: nat, back: nat, j: nat, k: nat)
    requires back < Pow10(k)
    ensures Padded(front * Pow10(k) + back, j + k) == Padded(front, j) + Padded(back, k)
  {
    hide Pow10;
    if k == 0 {
      PowerOfNone();
      assert Padded(front, j) + [] == Padded(front, j);
    } else {
      LastDigit(front, back, k);
      PaddedSplits(front, back / 10, j, k - 1);
    }
  }

  lemma PowerOfNone()
    ensures Pow10(0) == 1
  {
  }

  lemma {:induction false} DecimalSplits(front: nat, back: nat, k: nat)
    requires front > 0 && back < Pow10(k)
    ensures Decimal(front * Pow10(k) + back) == Decimal(front) + Padded(back, k)
  {
    hide Pow10;
    if k == 0 {
      PowerOfNone();
      assert Decimal(front) + [] == Decimal(front);
    } else {
      LastDigit(front, back, k);
      DecimalSplits(front, back / 10, k - 1);
      var n := front * Pow10(k) + back;
      assert n >= 10 by { AtLeast(front, Pow10(k - 1)); }
      assert Decimal(n) == Decimal(n / 10) + [ZERO + n % 10];
    }
  }

  lemma AtLeast(front: nat, p: nat)
    requires front > 0
    ensures front * p >= p
  {
  }

  /** Without its leading zeros, the padded text is the decimal text. */
  lemma {:induction false} DecimalOfPadded(n: nat, k: nat)
    requires k > 0 && n < Pow10(k)
    ensures Decimal(n) == Padded(n, k)[Zeros(n, k)..]
  {
    if k == 1 {
      assert Padded(n, 1) == [ZERO + n] && Decimal(n) == [ZERO + n];
    } else if n >= Pow10(k - 1) {
      AllDigitsCount(n, k);
    } else {
      DecimalOfPadded(n, k - 1);
      PaddedSplits(0, n, 1, k - 1);
      assert Padded(0, 1) == [ZERO];
    }
  }

  lemma FrontDigit(n: nat, p: nat)
    requires 0 < p <= n < 10 * p
    ensures 0 < n / p < 10 && n == n / p * p + n % p
  {
  }

  /** A number of exactly k digits needs no zeros. */
  lemma AllDigitsCount(n: nat, k: nat)
    requires k > 0 && n < Pow10(k) && (k > 1 ==> n >= Pow10(k - 1))
    ensures Decimal(n) == Padded(n, k)
  {
    if k == 1 {
      assert Padded(n, 1) == [ZERO + n] && Decimal(n) == [ZERO + n];
    } else {
      var front, back := n / Pow10(k - 1), n % Pow10(k - 1);
      FrontDigit(n, Pow10(k - 1));
      PaddedSplits(front, back, 1, k - 1);
      DecimalSplits(front, back, k - 1);
      assert Padded(front, 1) == [ZERO + front] && Decimal(front) == [ZERO + front];
    }
  }

  // ---- the code ---------------------------------------------------------------------------------------------------

  /** The two lookups for a number below 100. */
  function Two(n: nat): (s: seq<Byte>)
    requires n < 100
  {
    [Lut(2 * n), Lut(2 * n + 1)]
  }

  /** The four lookups for a number below 10000: d1, d1 + 1, d2, d2 + 1. */
  function Four(n: nat): (s: seq<Byte>)
    requires n < TEN4
    ensures s != []
  {
    Two(n / 100) + Two(n % 100)
  }

  function Eight(n: nat): (s: seq<Byte>)
    requires n < TEN8
    ensures s != []
  {
    Four(n / TEN4) + Four(n % TEN4)
  }

  lemma {:induction false} TwoIsPadded(n: nat)
    requires n < 100
    ensures Two(n) == Padded(n, 2)
  {
    assert Padded(n / 10, 1) == [ZERO + n / 10];
  }

  lemma FourIsPadded(n: nat)
    requires n < TEN4
    ensures Four(n) == Padded(n, 4)
  {
    hide Padded, Two;
    Powers();
    PaddedSplits(n / 100, n % 100, 2, 2);
    TwoIsPadded(n / 100);
    TwoIsPadded(n % 100);
  }

  lemma EightIsPadded(n: nat)
    requires n < TEN8
    ensures Eight(n) == Padded(n, 8)
  {
    hide Padded, Four;
    Powers();
    PaddedSplits(n / TEN4, n % TEN4, 4, 4);
    FourIsPadded(n / TEN4);
    FourIsPadded(n % TEN4);
  }

  /** The tests that leave out leading zeros: digit number i is put when value reaches its power of ten. */
  method PutFrom(digits: seq<Byte>, value: nat) returns (buffer: seq<Byte>)
    requires digits != []
    ensures buffer == digits[Zeros(value, |digits|)..]
  {
    buffer := [];
    for i := 0 to |digits|
      invariant buffer == if i <= Zeros(value, |digits|) then [] else digits[Zeros(value, |digits|)..i]
    {
      ZerosAt(value, |digits|, i);
      if i == |digits| - 1 || value >= Pow10(|digits| - 1 - i) {
        buffer := buffer + [digits[i]];
      }
    }
  }

  lemma {:induction false} ZerosAt(n: nat, k: nat, i: nat)
    requires i < k
    ensures i == k - 1 || n >= Pow10(k - 1 - i) <==> i >= Zeros(n, k)
  {
    if k > 1 {
      if n >= Pow10(k - 1) {
        PowerGrows(k - 1 - i, k - 1);
      } else if i > 0 {
        ZerosAt(n, k - 1, i - 1);
      }
    }
  }

  lemma {:induction false} PowerGrows(j: nat, k: nat)
    requires j <= k
    ensures Pow10(j) <= Pow10(k)
  {
    if j < k {
      PowerGrows(j, k - 1);
    }
  }

  method U32toa(value: nat) returns (buffer: seq<Byte>)
    requires value < 0x1_0000_0000
    ensures buffer == Decimal(value)
  {
    hide Decimal, Padded, Zeros, Four, Eight, Two;
    Powers();
    if value < TEN4 {
      DecimalOfPadded(value, 4);
      FourIsPadded(value);
      buffer := PutFrom(Four(value), value);
    } else if value < TEN8 {
      DecimalOfPadded(value, 8);
      EightIsPadded(value);
      buffer := PutFrom(Eight(value), value);
    } else {
      var a := value / TEN8;
      DecimalSplits(a, value % TEN8, 8);
      if a >= 10 {
        AllDigitsCount(a, 2);
        TwoIsPadded(a);
        buffer := Two(a);
      } else {
        buffer := One(a);
      }
      EightIsPadded(value % TEN8);
      buffer := buffer + Eight(value % TEN8);
    }
  }

  /** A single digit, put without the table. */
  function One(n: nat): (s: seq<Byte>)
    requires n < 10
    ensures s == Decimal(n) == Padded(n, 1)
  {
    [ZERO + n]
  }

  method U64toa(value: nat) returns (buffer: seq<Byte>)
    requires value < 0x1_0000_0000_0000_0000
    ensures buffer == Decimal(value)
  {
    hide Decimal, Padded, Zeros, Four, Eight, Two, One;
    Powers();
    if value < TEN8 {
      buffer := U32toa(value);
    } else if value < TEN16 {
      var high := value / TEN8;
      DecimalSplits(high, value % TEN8, 8);
      DecimalOfPadded(high, 8);
      EightIsPadded(high);
      EightIsPadded(value % TEN8);
      buffer := PutFrom(Eight(high), high);
      buffer := buffer + Eight(value % TEN8);
    } else {
      var a := value / TEN16;
      var rest := value % TEN16;
      DecimalSplits(a, rest, 16);
      PaddedSplits(rest / TEN8, rest % TEN8, 8, 8);
      EightIsPadded(rest / TEN8);
      EightIsPadded(rest % TEN8);
      buffer := Front(a);
      buffer := buffer + Eight(rest / TEN8);
      buffer := buffer + Eight(rest % TEN8);
      assert buffer == Decimal(a) + (Padded(rest / TEN8, 8) + Padded(rest % TEN8, 8));
    }
  }

  /** The up to four digits in front of the last sixteen. */
  method Front(a: nat) returns (buffer: seq<Byte>)
    requires 0 < a < TEN4
    ensures buffer == Decimal(a)
  {
    hide Decimal, Padded, Two, One;
    Powers();
    if a < 10 {
      buffer := One(a);
    } else if a < 100 {
      AllDigitsCount(a, 2);
      TwoIsPadded(a);
      buffer := Two(a);
    } else if a < 1000 {
      AllDigitsCount(a, 3);
      PaddedSplits(a / 100, a % 100, 1, 2);
      TwoIsPadded(a % 100);
      buffer := One(a / 100) + Two(a % 100);
    } else {
      AllDigitsCount(a, 4);
      PaddedSplits(a / 100, a % 100, 2, 2);
      TwoIsPadded(a / 100);
      TwoIsPadded(a % 100);
      buffer := Two(a / 100) + Two(a % 100);
    }
  }

  /** i32toa and i64toa: a sign, then the magnitude, which is what complementing and adding one gives. */
  method I64toa(value: int) returns (buffer: seq<Byte>)
    requires -0x8000_0000_0000_0000 <= value < 0x8000_0000_0000_0000
    ensures buffer == NumberText(value)
  {
    hide Decimal;
    buffer := [];
    var u := value % 0x1_0000_0000_0000_0000;
    if value < 0 {
      buffer := [MINUS];
      u := (0xFFFF_FFFF_FFFF_FFFF - u + 1) % 0x1_0000_0000_0000_0000;
      assert u == -value;
    }
    var digits := U64toa(u);
    assert [] + digits == digits;
    buffer := buffer + digits;
  }
}
