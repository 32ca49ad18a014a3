/** 32-bit two's complement: signed integers on one side, bit patterns on the other. */
module TwosComplement {
  import opened TruncatedDivision

  const MODULUS: int := 0x1_0000_0000
  const HALF: int := 0x8000_0000

  predicate IsSigned(n: int) { -HALF <= n < HALF }

  /** The bit pattern of an integer, truncated to 32 bits. */
  function ToBits(n: int): (r: nat)
    ensures r < MODULUS
  {
    n % MODULUS
  }

  /** The signed number a bit pattern stands for. */
  function Signed(bits: nat): int {
    if bits < HALF then bits else bits - MODULUS
  }

  /** Wrap-around of a mathematical result into the signed range. */
  function Wrap(n: int): (r: int)
    ensures IsSigned(r)
  {
    (n + HALF) % MODULUS - HALF
  }

  datatype Gate = AndGate | OrGate | XorGate

  function GateBit(g: Gate, a: nat, b: nat): (r: nat)
    requires a < 2 && b < 2
    ensures r < 2
  {
    match g
    case AndGate => if a == 1 && b == 1 then 1 else 0
    case OrGate => if a == 1 || b == 1 then 1 else 0
    case XorGate => if a != b then 1 else 0
  }

  function Pow2(w: nat): (r: nat)
    ensures r > 0
  {
    if w == 0 then 1 else 2 * Pow2(w - 1)
  }

  /** A gate applied to each of the low w bits. */
  function Bitwise(g: Gate, a: nat, b: nat, w: nat): (r: nat)
    ensures r < Pow2(w)
  {
    if w == 0 then 0 else 2 * Bitwise(g, a / 2, b / 2, w - 1) + GateBit(g, a % 2, b % 2)
  }

  lemma Pow2Of32()
    ensures Pow2(32) == MODULUS
  {
    assert Pow2(8) == 256;
    assert Pow2(16) == 65536;
    assert Pow2(24) == 0x100_0000;
  }

  /** The remainder does not depend on the multiple of the modulus taken away. */
  lemma ModUnique(n: int, k: int, m: int)
    requires n == m + MODULUS * k
    ensures n % MODULUS == m % MODULUS
  {
    assert n / MODULUS == m / MODULUS + k;
  }

  lemma WrapKeepsBits(n: int)
    ensures ToBits(Wrap(n)) == ToBits(n)
  {
    ModUnique(n, (n + HALF) / MODULUS, Wrap(n));
  }

  /** Reading a pattern as signed and truncating a signed number are inverse. */
  lemma SignedInvertsToBits(n: int)
    requires IsSigned(n)
    ensures Signed(ToBits(n)) == n
  {
    if n < 0 {
      ModUnique(n, -1, n + MODULUS);
    }
  }

  lemma ToBitsInjective(a: int, b: int)
    requires IsSigned(a) && IsSigned(b) && ToBits(a) == ToBits(b)
    ensures a == b
  {
    SignedInvertsToBits(a);
    SignedInvertsToBits(b);
  }

  lemma AddBits(a: int, b: int)
    ensures (ToBits(a) + ToBits(b)) % MODULUS == ToBits(Wrap(a + b))
  {
    WrapKeepsBits(a + b);
    ModUnique(a + b, a / MODULUS + b / MODULUS, ToBits(a) + ToBits(b));
  }

  lemma SubBits(a: int, b: int)
    ensures (ToBits(a) - ToBits(b)) % MODULUS == ToBits(Wrap(a - b))
  {
    WrapKeepsBits(a - b);
    ModUnique(a - b, a / MODULUS - b / MODULUS, ToBits(a) - ToBits(b));
  }

  lemma MulBits(a: int, b: int)
    ensures (ToBits(a) * ToBits(b)) % MODULUS == ToBits(Wrap(a * b))
  {
    WrapKeepsBits(a * b);
    var qa, qb, ra, rb := a / MODULUS, b / MODULUS, ToBits(a), ToBits(b);
    calc {
      a * b;
      (ra + MODULUS * qa) * b;
      ra * b + MODULUS * qa * b;
      ra * (rb + MODULUS * qb) + MODULUS * qa * b;
      ra * rb + MODULUS * (ra * qb + qa * b);
    }
    ModUnique(a * b, ra * qb + qa * b, ra * rb);
  }

  // ----- division and shifts -----

  /** A pair of signed numbers whose quotient is a signed number. */
  predicate Divides(a: int, b: int) {
    b != 0 && !(a == -HALF && b == -1)
  }

  function DividedBy(a: int, b: int): (q: int)
    requires IsSigned(a) && IsSigned(b) && Divides(a, b)
    ensures IsSigned(q)
  {
    QuotientSize(a, b);
    Quotient(a, b)
  }

  /** The number a times 2 to the power -k, rounded down. */
  function ShiftedRight(a: int, k: nat): (r: int)
    requires IsSigned(a)
    ensures IsSigned(r)
  {
    FloorSize(a, Pow2(k));
    a / Pow2(k)
  }

  lemma FloorSize(a: int, p: int)
    requires p > 0 && IsSigned(a)
    ensures IsSigned(a / p)
  {
    var q := a / p;
    assert a == q * p + a % p;
    if q >= 0 {
      Grows(q, 1, p);
    } else if q + 1 < 0 {
      Grows(-(q + 1), 1, p);
      assert -(q + 1) * p == -(q * p) - p;
    }
  }

  lemma DivBits(a: int, b: int)
    requires IsSigned(a) && IsSigned(b) && Divides(a, b)
    ensures Quotient(Signed(ToBits(a)), Signed(ToBits(b))) % MODULUS == ToBits(DividedBy(a, b))
  {
    SignedInvertsToBits(a);
    SignedInvertsToBits(b);
  }

  lemma ShlBits(a: int, k: nat)
    ensures ToBits(a) * Pow2(k) % MODULUS == ToBits(Wrap(a * Pow2(k)))
  {
    hide Wrap;
    var p, q := Pow2(k), a / MODULUS;
    WrapKeepsBits(a * p);
    assert a * p == ToBits(a) * p + MODULUS * (q * p) by {
      assert a == ToBits(a) + MODULUS * q;
    }
    ModUnique(a * p, q * p, ToBits(a) * p);
  }

  lemma {:induction false} Pow2Adds(m: nat, n: nat)
    ensures Pow2(m) * Pow2(n) == Pow2(m + n)
  {
    if m > 0 {
      Pow2Adds(m - 1, n);
    }
  }

  /** Filling in copies of the sign bit from the left divides the signed number, rounding down. */
  lemma ShrBits(a: int, k: nat)
    requires IsSigned(a) && k < 32
    ensures (ToBits(a) / Pow2(k) - (if ToBits(a) < HALF then 0 else Pow2(32 - k))) % MODULUS
         == ToBits(ShiftedRight(a, k))
  {
    hide Pow2;
    if a < 0 {
      var p, q := Pow2(k), Pow2(32 - k);
      Pow2Of32();
      Pow2Adds(k, 32 - k);
      ModUnique(a, -1, a + MODULUS);
      FloorOfSum(a, q, p);
    }
  }

  lemma FloorOfSum(a: int, q: int, p: int)
    requires p > 0
    ensures (a + p * q) / p == a / p + q
  {
    assert a + p * q == (a / p + q) * p + a % p;
    QuotientUnique(a + p * q, a / p + q, p);
  }

  lemma QuotientUnique(n: int, d: int, p: int)
    requires p > 0 && 0 <= n - d * p < p
    ensures n / p == d
  {
    var e := n / p - d;
    assert n == n / p * p + n % p;
    assert e * p == n - d * p - n % p;
    assert -p < e * p < p;
    assert e == 0;
  }
}
