/** The integer division of C++ and of LLVM's sdiv, which rounds toward zero. */
module TruncatedDivision {
  function Abs(n: int): (m: nat) {
    if n < 0 then -n else n
  }

  function Quotient(a: int, b: int): (q: int)
    requires b != 0
  {
    if (a < 0) == (b < 0) then Abs(a) / Abs(b) else -(Abs(a) / Abs(b))
  }

  /** Multiplying by a greater number does not make a natural number smaller. */
  lemma Grows(q: nat, m: int, y: int)
    requires m <= y
    ensures q * m <= q * y
  {
    assert q * y == q * m + q * (y - m);
  }

  lemma Parts(x: nat, y: nat)
    requires y > 0
    ensures x == x / y * y + x % y && 0 <= x % y < y
    ensures 0 <= x / y <= x && (y > 1 ==> 2 * (x / y) <= x)
  {
    Grows(x / y, 1, y);
    if y > 1 {
      Grows(x / y, 2, y);
    }
  }

  /** What is left over is smaller than the divisor and has the sign of the dividend, which only one quotient does. */
  lemma QuotientIs(a: int, b: int)
    requires b != 0
    ensures var rest := a - Quotient(a, b) * b;
            Abs(rest) < Abs(b) && (rest == 0 || (rest < 0 <==> a < 0))
  {
    var x: int, y: int := Abs(a), Abs(b);
    Parts(x, y);
    var q := x / y;
    assert (-q) * (-y) == q * y && (-q) * y == -(q * y) && q * (-y) == -(q * y);
    assert Quotient(a, b) * b == if a < 0 then -(q * y) else q * y;
  }

  lemma QuotientSize(a: int, b: int)
    requires b != 0
    ensures Abs(Quotient(a, b)) <= Abs(a)
    ensures Abs(b) > 1 ==> 2 * Abs(Quotient(a, b)) <= Abs(a)
  {
    Parts(Abs(a), Abs(b));
  }
}
