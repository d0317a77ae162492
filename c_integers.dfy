/** C's integer division and remainder. C truncates the quotient toward zero (section 6.5.5 of
    ISO/IEC 9899:1999) and gives the remainder the sign of the dividend; Dafny's own `/` and `%`
    are Euclidean. The integers are unbounded here: `int` overflow is not modelled. */
module CIntegers {

  function Abs(x: int): nat {
    if x < 0 then -x else x
  }

  /** `a / b` in C. */
  function CQuot(a: int, b: int): int
    requires b != 0
  {
    var q := Abs(a) / Abs(b);
    if (a < 0) == (b < 0) then q else -q
  }

  /** `a % b` in C: what the truncated quotient leaves over. */
  function CRem(a: int, b: int): int
    requires b != 0
  {
    a - b * CQuot(a, b)
  }

  /** The remainder is smaller than the divisor in size and has the sign of the dividend. */
  lemma CRemBounds(a: int, b: int)
    requires b != 0
    ensures Abs(CRem(a, b)) < Abs(b)
    ensures a >= 0 ==> CRem(a, b) >= 0
    ensures a <= 0 ==> CRem(a, b) <= 0
  {
    var q, r := Abs(a) / Abs(b), Abs(a) % Abs(b);
    assert Abs(a) == Abs(b) * q + r;
    if b > 0 {
      if a >= 0 {
        assert CRem(a, b) == r;
      } else {
        assert CRem(a, b) == a + b * q;
        assert CRem(a, b) == -r;
      }
    } else {
      if a >= 0 {
        assert CRem(a, b) == a + b * q;
        assert CRem(a, b) == r;
      } else {
        assert CRem(a, b) == -r;
      }
    }
  }

  /** On a non-negative dividend and a positive divisor C and Dafny agree. */
  lemma CAgreesOnNatural(a: int, b: int)
    requires a >= 0 && b > 0
    ensures CQuot(a, b) == a / b && CRem(a, b) == a % b
  {
  }

  /** Dividing a multiple of `b` by `b` is exact. */
  lemma CQuotExact(b: int, k: int)
    requires b != 0
    ensures CQuot(b * k, b) == k
    ensures CRem(b * k, b) == 0
  {
    ProductSign(b, k);
    MulDiv(Abs(b), Abs(k));
  }

  lemma ProductSign(b: int, k: int)
    ensures Abs(b * k) == Abs(b) * Abs(k)
    ensures b * k < 0 <==> (b < 0 && k > 0) || (b > 0 && k < 0)
  {
    if b < 0 && k < 0 {
      assert b * k == (-b) * (-k);
    } else if b < 0 {
      assert b * k == -((-b) * k);
    } else if k < 0 {
      assert b * k == -(b * (-k));
    }
  }

  /** A product is zero exactly when a factor is. */
  lemma NonZeroProduct(a: int, b: int)
    ensures a * b != 0 <==> a != 0 && b != 0
  {
    if a != 0 && b != 0 {
      ProductSign(a, b);
      MulSign(Abs(a), Abs(b));
    }
  }

  /** (c * k) / c == k for a positive c. */
  lemma MulDiv(c: int, k: int)
    requires c > 0
    ensures (c * k) / c == k && (c * k) % c == 0
  {
    var q, r := (c * k) / c, (c * k) % c;
    assert c * k == c * q + r;
    assert c * (k - q) == r;
    MulSign(c, k - q);
  }

  /** Multiplying by a positive number keeps a non-zero factor at least that far from zero. */
  lemma MulSign(c: int, x: int)
    requires c > 0
    ensures x >= 1 ==> c * x >= c
    ensures x <= -1 ==> c * x <= -c
  {
    if x >= 1 {
      assert c * x == c + c * (x - 1);
    } else if x <= -1 {
      assert c * x == -c + c * (x + 1);
    }
  }

  /** `c`, a positive number, divides `a`. */
  predicate Divides(c: int, a: int) {
    c > 0 && a % c == 0
  }

  lemma DividesQuotient(c: int, a: int)
    requires Divides(c, a)
    ensures a == c * (a / c)
  {
  }

  lemma DividesMultiple(c: int, k: int)
    requires c > 0
    ensures Divides(c, c * k)
  {
    MulDiv(c, k);
  }

  /** A number dividing `a` and `b` divides `a + b * q`. */
  lemma DividesCombination(c: int, a: int, b: int, q: int)
    requires Divides(c, a) && Divides(c, b)
    ensures Divides(c, a + b * q)
  {
    var x, y := a / c, b / c;
    assert a == c * x && b == c * y;
    assert a + b * q == c * (x + y * q);
    DividesMultiple(c, x + y * q);
  }

  /** A divisor of a non-zero number is at most its size. */
  lemma DividesAtMost(c: int, m: int)
    requires Divides(c, m) && m != 0
    ensures c <= Abs(m)
  {
    var k := m / c;
    assert m == c * k;
    MulSign(c, k);
  }
}
