/** overflowCheck and checked_multiply of CLI/Validators.hpp, for every integer type. */
module CheckedMultiply {
  import opened TruncatedDivision

  /** An integer type: its greatest value, and whether it is signed. */
  datatype IntType = IntType(max: int, signed: bool) {
    function Min(): (m: int) {
      if signed then -1 - max else 0
    }

    predicate Has(n: int) {
      Min() <= n <= max
    }
  }

  /** Both overflowCheck templates. */
  predicate OverflowCheck(t: IntType, a: int, b: int)
    requires a != 0 && (!t.signed ==> a > 0)
  {
    if !t.signed || (a > 0) == (b > 0) then Quotient(t.max, Abs(a)) < Abs(b)
    else Quotient(t.Min(), Abs(a)) > 0 - Abs(b)
  }

  lemma DivisionTest(m: nat, x: nat, y: nat)
    requires x > 0
    ensures m / x < y <==> x * y > m
  {
    if m / x < y {
      assert x * y >= x * (m / x + 1);
    } else {
      assert x * y <= x * (m / x);
    }
  }

  lemma ProductOf(a: int, b: int)
    ensures a * b == if (a < 0) == (b < 0) then Abs(a) * Abs(b) else 0 - Abs(a) * Abs(b)
  {
  }

  /** On factors that are neither 0 nor the least value of a signed type, the test is exact. */
  lemma OverflowCheckIsExact(t: IntType, a: int, b: int)
    requires t.Has(a) && t.Has(b) && a != 0 && b != 0
    ensures OverflowCheck(t, a, b) <==> !t.Has(a * b)
  {
    ProductOf(a, b);
    DivisionTest(t.max, Abs(a), Abs(b));
    DivisionTest(t.max + 1, Abs(a), Abs(b));
  }

  /** The least value times anything but 0 and 1 does not fit. */
  lemma LeastOverflows(t: IntType, a: int, b: int)
    requires t.Has(a) && t.Has(b) && t.signed && (a == t.Min() || b == t.Min())
    requires a != 0 && b != 0 && a != 1 && b != 1
    ensures !t.Has(a * b)
  {
    var other := if a == t.Min() then b else a;
    assert a * b == t.Min() * other;
    if other >= 2 {
      assert t.Min() * other <= t.Min() * 2;
    } else {
      assert t.Min() * other >= t.Min() * -1;
    }
  }

  /**
   * checked_multiply: true exactly when the product fits, which it then stores; otherwise the argument stays as it was.
   * The argument passed by reference is both a and a'.
   */
  method CheckedMultiply(t: IntType, a: int, b: int) returns (ok: bool, a': int)
    requires t.Has(a) && t.Has(b)
    ensures ok <==> t.Has(a * b)
    ensures a' == if ok then a * b else a
  {
    if a == 0 || b == 0 || a == 1 || b == 1 {
      return true, a * b;
    }
    if a == t.Min() || b == t.Min() {
      LeastOverflows(t, a, b);
      return false, a;
    }
    OverflowCheckIsExact(t, a, b);
    if OverflowCheck(t, a, b) {
      return false, a;
    }
    return true, a * b;
  }
}
