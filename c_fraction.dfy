/** fraction.c: fractions as an int numerator, an int denominator and a validity flag. Every
    operation builds its result through `createFraction`, which sets the flag (a positive
    denominator and a value of at most one) and then divides both parts by their greatest common
    divisor, found by Euclid's algorithm on C's truncating remainder. */
module CFractions {
  import opened CIntegers

  datatype Fraction = Fraction(numerator: int, denominator: int, isValid: bool)

  /** The `(Fraction){0, 1}` and `{1, 1}` literals of the C code: their `isValid` field is
      zero-initialised, that is false. */
  const ZeroLiteral := Fraction(0, 1, false)
  const OneLiteral := Fraction(1, 1, false)

  /** The rational number a fraction stands for. */
  function Val(f: Fraction): real
    requires f.denominator != 0
  {
    f.numerator as real / f.denominator as real
  }

  // ---- greatestCommonDivisor ----

  /** Euclid's algorithm with C's remainder: the result of `greatestCommonDivisor`. */
  function Gcd(a: int, b: int): int
    decreases Abs(b)
  {
    if b == 0 then a else CRemBounds(a, b); Gcd(b, CRem(a, b))
  }

  /** `greatestCommonDivisor`: the loop replaces the pair by the second number and the
      remainder until the second is zero. */
  method GreatestCommonDivisor(num1: int, num2: int) returns (g: int)
    ensures g == Gcd(num1, num2)
    ensures num1 != 0 || num2 != 0 ==> g != 0 && Divides(Abs(g), num1) && Divides(Abs(g), num2)
  {
    var a, b := num1, num2;
    while b != 0
      invariant Gcd(a, b) == Gcd(num1, num2)
      decreases Abs(b)
    {
      var temp := b;
      CRemBounds(a, b);
      b := CRem(a, b);
      a := temp;
    }
    g := a;
    if num1 != 0 || num2 != 0 {
      GcdDividesBoth(num1, num2);
    }
  }

  /** The numbers dividing both arguments are exactly the numbers dividing the result. */
  lemma {:induction false} GcdDivisors(a: int, b: int, c: int)
    ensures Divides(c, a) && Divides(c, b) <==> Divides(c, Gcd(a, b))
    decreases Abs(b)
  {
    if b != 0 {
      CRemBounds(a, b);
      var q, r := CQuot(a, b), CRem(a, b);
      assert r == a + b * (-q);
      assert a == r + b * q;
      if Divides(c, a) && Divides(c, b) {
        DividesCombination(c, a, b, -q);
      }
      if Divides(c, b) && Divides(c, r) {
        DividesCombination(c, r, b, q);
      }
      GcdDivisors(b, r, c);
    }
  }

  lemma {:induction false} GcdNonZero(a: int, b: int)
    requires a != 0 || b != 0
    ensures Gcd(a, b) != 0
    decreases Abs(b)
  {
    if b != 0 {
      CRemBounds(a, b);
      GcdNonZero(b, CRem(a, b));
    }
  }

  lemma {:induction false} GcdOfNaturals(a: int, b: int)
    requires a >= 0 && b >= 0
    ensures Gcd(a, b) >= 0
    decreases Abs(b)
  {
    if b != 0 {
      CRemBounds(a, b);
      GcdOfNaturals(b, CRem(a, b));
    }
  }

  /** The result divides both arguments exactly, whatever its sign. */
  lemma GcdDividesBoth(a: int, b: int)
    requires a != 0 || b != 0
    ensures Gcd(a, b) != 0
    ensures Divides(Abs(Gcd(a, b)), a) && Divides(Abs(Gcd(a, b)), b)
    ensures a == Gcd(a, b) * CQuot(a, Gcd(a, b)) && b == Gcd(a, b) * CQuot(b, Gcd(a, b))
  {
    var g := Gcd(a, b);
    GcdNonZero(a, b);
    var c: int := Abs(g);
    MulDiv(c, if g > 0 then 1 else -1);
    assert g == c * (if g > 0 then 1 else -1);
    GcdDivisors(a, b, c);
    ExactQuotient(a, g);
    ExactQuotient(b, g);
  }

  /** A multiple of |g| is g times its C quotient by g. */
  lemma ExactQuotient(a: int, g: int)
    requires g != 0 && Divides(Abs(g), a)
    ensures a == g * CQuot(a, g)
  {
    var c := Abs(g);
    var k := a / c;
    DividesQuotient(c, a);
    if g > 0 {
      CQuotExact(g, k);
    } else {
      assert a == g * (-k);
      CQuotExact(g, -k);
    }
  }

  /** For natural numbers, not both zero, the result is their greatest common divisor: it is
      positive, divides both, and every common divisor is at most it. */
  lemma GcdIsGreatest(a: int, b: int)
    requires a >= 0 && b >= 0 && (a != 0 || b != 0)
    ensures Gcd(a, b) > 0 && Divides(Gcd(a, b), a) && Divides(Gcd(a, b), b)
    ensures forall c :: Divides(c, a) && Divides(c, b) ==> c <= Gcd(a, b)
  {
    GcdNonZero(a, b);
    GcdOfNaturals(a, b);
    GcdDividesBoth(a, b);
    forall c | Divides(c, a) && Divides(c, b)
      ensures c <= Gcd(a, b)
    {
      GcdDivisors(a, b, c);
      DividesAtMost(c, Gcd(a, b));
    }
  }

  /** gcd(0, d) is d itself. */
  lemma GcdOfZero(d: int)
    ensures Gcd(0, d) == d
  {
    if d != 0 {
      assert CQuot(0, d) == 0;
      assert CRem(0, d) == 0;
    }
  }

  /** With a negative argument the result may be negative: gcd(-1, 8) is -1. */
  lemma GcdCanBeNegative()
    ensures Gcd(-1, 8) == -1
  {
    assert CQuot(-1, 8) == 0 && CRem(-1, 8) == -1;
    assert CQuot(8, -1) == -8 && CRem(8, -1) == 0;
  }

  // ---- lowestCommonMultiple ----

  /** `lowestCommonMultiple`: a common multiple of two non-zero numbers, positive when both are. */
  function LowestCommonMultiple(num1: int, num2: int): (r: int)
    requires num1 != 0 || num2 != 0
    ensures num1 != 0 && num2 != 0 ==> r != 0 && r == num1 * CQuot(r, num1) && r == num2 * CQuot(r, num2)
    ensures num1 > 0 && num2 > 0 ==> r > 0
  {
    LcmFacts(num1, num2);
    CQuot(num1, Gcd(num1, num2)) * num2
  }

  lemma LcmFacts(num1: int, num2: int)
    requires num1 != 0 || num2 != 0
    ensures Gcd(num1, num2) != 0
    ensures var r := CQuot(num1, Gcd(num1, num2)) * num2;
      (num1 != 0 && num2 != 0 ==> r != 0 && r == num1 * CQuot(r, num1) && r == num2 * CQuot(r, num2)) &&
      (num1 > 0 && num2 > 0 ==> r > 0)
  {
    var g := Gcd(num1, num2);
    GcdDividesBoth(num1, num2);
    if num1 > 0 && num2 > 0 {
      GcdOfNaturals(num1, num2);
    }
    var q1, q2 := CQuot(num1, g), CQuot(num2, g);
    LcmProduct(num1, num2, g, q1, q2);
    if num1 != 0 && num2 != 0 {
      CQuotExact(num1, q2);
      CQuotExact(num2, q1);
    }
  }

  lemma LcmProduct(num1: int, num2: int, g: int, q1: int, q2: int)
    requires g != 0 && num1 == g * q1 && num2 == g * q2
    ensures q1 * num2 == num1 * q2 && q1 * num2 == num2 * q1
    ensures num1 != 0 && num2 != 0 ==> q1 * num2 != 0
    ensures num1 > 0 && num2 > 0 && g > 0 ==> q1 * num2 > 0
  {
    assert q1 * num2 == q1 * (g * q2);
    assert q1 * (g * q2) == (g * q1) * q2;
    ProductSign(q1, num2);
    ProductSign(g, q1);
  }

  // ---- simplify and createFraction ----

  /** Cancelling a common non-zero factor leaves the value unchanged. */
  lemma CancelFactor(g: int, x: int, y: int)
    requires g != 0 && y != 0
    ensures g * y != 0
    ensures (g * x) as real / (g * y) as real == x as real / y as real
  {
    ProductSign(g, y);
    assert (g * x) as real == g as real * x as real;
    assert (g * y) as real == g as real * y as real;
  }

  /** `simplify`: divides both parts by their gcd and keeps the flag. */
  function Simplify(fraction: Fraction): (r: Fraction)
    requires fraction.numerator != 0 || fraction.denominator != 0
    ensures r.isValid == fraction.isValid
    ensures fraction.denominator != 0 ==> r.denominator != 0 && Val(r) == Val(fraction)
    ensures fraction.numerator >= 0 && fraction.denominator > 0 ==> r.numerator >= 0 && r.denominator > 0
  {
    SimplifyFacts(fraction.numerator, fraction.denominator);
    var g := Gcd(fraction.numerator, fraction.denominator);
    Fraction(CQuot(fraction.numerator, g), CQuot(fraction.denominator, g), fraction.isValid)
  }

  lemma SimplifyFacts(n: int, d: int)
    requires n != 0 || d != 0
    ensures Gcd(n, d) != 0
    ensures d != 0 ==> (CQuot(d, Gcd(n, d)) != 0 &&
      CQuot(n, Gcd(n, d)) as real / CQuot(d, Gcd(n, d)) as real == n as real / d as real)
    ensures n >= 0 && d > 0 ==> CQuot(n, Gcd(n, d)) >= 0 && CQuot(d, Gcd(n, d)) > 0
  {
    var g := Gcd(n, d);
    GcdDividesBoth(n, d);
    var p, q := CQuot(n, g), CQuot(d, g);
    assert n == g * p && d == g * q;
    if d != 0 {
      assert q != 0;
      CancelFactor(g, p, q);
    }
    if n >= 0 && d > 0 {
      GcdOfNaturals(n, d);
      ProductSign(g, p);
      ProductSign(g, q);
    }
  }

  /** In lowest terms: for a natural numerator and a positive denominator, the simplified parts
      have no common divisor but 1. */
  lemma SimplifyLowestTerms(fraction: Fraction)
    requires fraction.numerator >= 0 && fraction.denominator > 0
    ensures var r := Simplify(fraction);
      forall c :: Divides(c, r.numerator) && Divides(c, r.denominator) ==> c == 1
  {
    var n, d := fraction.numerator, fraction.denominator;
    GcdIsGreatest(n, d);
    GcdDividesBoth(n, d);
    var g := Gcd(n, d);
    CoprimeAfterDivision(n, d, g, CQuot(n, g), CQuot(d, g));
  }

  /** Dividing two numbers by their greatest common divisor leaves no common divisor but 1. */
  lemma CoprimeAfterDivision(n: int, d: int, g: int, p: int, q: int)
    requires g > 0 && n == g * p && d == g * q
    requires forall c :: Divides(c, n) && Divides(c, d) ==> c <= g
    ensures forall c :: Divides(c, p) && Divides(c, q) ==> c == 1
  {
    forall c | Divides(c, p) && Divides(c, q)
      ensures c == 1
    {
      ScaledDivisor(c, p, g);
      ScaledDivisor(c, q, g);
      assert c * g <= g;
      MulSign(g, c - 1);
    }
  }

  /** If c divides x then c * g divides x * g. */
  lemma ScaledDivisor(c: int, x: int, g: int)
    requires Divides(c, x) && g > 0
    ensures Divides(c * g, g * x)
  {
    var k := x / c;
    DividesQuotient(c, x);
    assert g * x == (c * g) * k;
    ProductSign(c, g);
    DividesMultiple(c * g, k);
  }

  /** `createFraction`: flags the fraction valid when the denominator is positive and the
      value is at most one, then simplifies it. Nothing bounds it from below, so a negative
      value is flagged valid. */
  function CreateFraction(numerator: int, denominator: int): (r: Fraction)
    requires numerator != 0 || denominator != 0
    ensures denominator != 0 ==> r.denominator != 0 && Val(r) == numerator as real / denominator as real
    ensures denominator > 0 ==> (r.isValid <==> Val(r) <= 1.0)
    ensures denominator <= 0 ==> !r.isValid
    ensures denominator == 0 ==> r == Fraction(1, 0, false)
    ensures numerator >= 0 && denominator > 0 ==> r.numerator >= 0 && r.denominator > 0
  {
    AtMostOne(numerator, denominator);
    OverZero(numerator, denominator);
    Simplify(Fraction(numerator, denominator, denominator > 0 && numerator <= denominator))
  }

  lemma AtMostOne(n: int, d: int)
    ensures d > 0 ==> (n <= d <==> n as real / d as real <= 1.0)
  {
    if d > 0 {
      var x := n as real / d as real;
      assert n as real == x * d as real;
    }
  }

  /** Simplifying n/0 divides both parts by n itself. */
  lemma OverZero(n: int, d: int)
    requires n != 0 || d != 0
    ensures d == 0 ==> Gcd(n, d) == n && CQuot(n, Gcd(n, d)) == 1 && CQuot(d, Gcd(n, d)) == 0
  {
    if d == 0 {
      CQuotExact(n, 1);
      CQuotExact(n, 0);
    }
  }

  /** A negative value is flagged valid: -1/2 is. */
  lemma NegativeIsValid()
    ensures CreateFraction(-1, 2).isValid && Val(CreateFraction(-1, 2)) < 0.0
  {
  }

  /** A negative numerator can move the sign into the denominator: -1/8 becomes 1/-8. */
  lemma SignMovesToDenominator()
    ensures CreateFraction(-1, 8) == Fraction(1, -8, true)
  {
    GcdCanBeNegative();
  }

  // ---- adjustForOperation ----

  datatype FractionAdjustments = FractionAdjustments(numerator1: int, numerator2: int, lcd: int)

  /** `adjustForOperation`: both fractions over a common denominator, with the same values. */
  function AdjustForOperation(fraction1: Fraction, fraction2: Fraction): (r: FractionAdjustments)
    requires fraction1.denominator != 0 && fraction2.denominator != 0
    ensures r.lcd != 0
    ensures r.numerator1 as real / r.lcd as real == Val(fraction1)
    ensures r.numerator2 as real / r.lcd as real == Val(fraction2)
    ensures fraction1.denominator > 0 && fraction2.denominator > 0 ==> r.lcd > 0
  {
    var lcd := LowestCommonMultiple(fraction1.denominator, fraction2.denominator);
    var k1, k2 := CQuot(lcd, fraction1.denominator), CQuot(lcd, fraction2.denominator);
    CancelFactor(k1, fraction1.numerator, fraction1.denominator);
    CancelFactor(k2, fraction2.numerator, fraction2.denominator);
    assert lcd == k1 * fraction1.denominator && lcd == k2 * fraction2.denominator;
    assert fraction1.numerator * k1 == k1 * fraction1.numerator;
    assert fraction2.numerator * k2 == k2 * fraction2.numerator;
    FractionAdjustments(fraction1.numerator * k1, fraction2.numerator * k2, lcd)
  }

  // ---- arithmetic ----

  /** Dividing a sum or a difference by a common denominator. */
  lemma OverCommonDenominator(a: int, b: int, l: int)
    requires l != 0
    ensures (a + b) as real / l as real == a as real / l as real + b as real / l as real
    ensures (a - b) as real / l as real == a as real / l as real - b as real / l as real
  {
  }

  /** A quotient by a positive number has the sign of the dividend. */
  lemma SignOfQuotient(a: int, l: int)
    requires l > 0
    ensures a as real / l as real >= 0.0 <==> a >= 0
    ensures a as real / l as real > 0.0 <==> a > 0
  {
  }

  /** `add`: the exact sum. With positive denominators the result is flagged valid exactly
      when the sum is at most one, and a non-negative sum keeps a positive denominator. */
  function Add(fraction1: Fraction, fraction2: Fraction): (r: Fraction)
    requires fraction1.denominator != 0 && fraction2.denominator != 0
    ensures r.denominator != 0 && Val(r) == Val(fraction1) + Val(fraction2)
    ensures fraction1.denominator > 0 && fraction2.denominator > 0 ==>
      (r.isValid <==> Val(r) <= 1.0) && (Val(r) >= 0.0 ==> r.numerator >= 0 && r.denominator > 0)
  {
    var adj := AdjustForOperation(fraction1, fraction2);
    OverCommonDenominator(adj.numerator1, adj.numerator2, adj.lcd);
    if adj.lcd > 0 then SignOfQuotient(adj.numerator1 + adj.numerator2, adj.lcd);
      CreateFraction(adj.numerator1 + adj.numerator2, adj.lcd)
    else CreateFraction(adj.numerator1 + adj.numerator2, adj.lcd)
  }

  /** `subtract`: the exact difference, with the same flag and sign behaviour as `add`. */
  function Subtract(fraction1: Fraction, fraction2: Fraction): (r: Fraction)
    requires fraction1.denominator != 0 && fraction2.denominator != 0
    ensures r.denominator != 0 && Val(r) == Val(fraction1) - Val(fraction2)
    ensures fraction1.denominator > 0 && fraction2.denominator > 0 ==>
      (r.isValid <==> Val(r) <= 1.0) && (Val(r) >= 0.0 ==> r.numerator >= 0 && r.denominator > 0)
  {
    var adj := AdjustForOperation(fraction1, fraction2);
    OverCommonDenominator(adj.numerator1, adj.numerator2, adj.lcd);
    if adj.lcd > 0 then SignOfQuotient(adj.numerator1 - adj.numerator2, adj.lcd);
      CreateFraction(adj.numerator1 - adj.numerator2, adj.lcd)
    else CreateFraction(adj.numerator1 - adj.numerator2, adj.lcd)
  }

  lemma ProductOfQuotients(a: int, b: int, c: int, d: int)
    requires b != 0 && d != 0
    ensures b * d != 0
    ensures (a * c) as real / (b * d) as real == (a as real / b as real) * (c as real / d as real)
  {
    ProductSign(b, d);
    assert (a * c) as real == a as real * c as real;
    assert (b * d) as real == b as real * d as real;
  }

  /** `multiply`: the exact product. */
  function Multiply(fraction1: Fraction, fraction2: Fraction): (r: Fraction)
    requires (fraction1.numerator != 0 && fraction2.numerator != 0) ||
      (fraction1.denominator != 0 && fraction2.denominator != 0)
    ensures fraction1.denominator != 0 && fraction2.denominator != 0 ==>
      r.denominator != 0 && Val(r) == Val(fraction1) * Val(fraction2)
  {
    NonZeroProduct(fraction1.numerator, fraction2.numerator);
    NonZeroProduct(fraction1.denominator, fraction2.denominator);
    if fraction1.denominator != 0 && fraction2.denominator != 0 then
      ProductOfQuotients(fraction1.numerator, fraction1.denominator, fraction2.numerator, fraction2.denominator);
      CreateFraction(fraction1.numerator * fraction2.numerator, fraction1.denominator * fraction2.denominator)
    else
      CreateFraction(fraction1.numerator * fraction2.numerator, fraction1.denominator * fraction2.denominator)
  }

  /** `multiplyByInt`: the exact multiple; a natural factor keeps a natural numerator and a
      positive denominator. */
  function MultiplyByInt(fraction1: Fraction, factor: int): (r: Fraction)
    requires (fraction1.numerator != 0 && factor != 0) || fraction1.denominator != 0
    ensures fraction1.denominator != 0 ==> r.denominator != 0 && Val(r) == Val(fraction1) * factor as real
    ensures fraction1.numerator >= 0 && fraction1.denominator > 0 && factor >= 0 ==>
      r.numerator >= 0 && r.denominator > 0
  {
    ScaleByInt(fraction1, factor);
    CreateFraction(fraction1.numerator * factor, fraction1.denominator)
  }

  lemma ScaleByInt(f: Fraction, k: int)
    requires (f.numerator != 0 && k != 0) || f.denominator != 0
    ensures f.numerator * k != 0 || f.denominator != 0
    ensures var r := CreateFraction(f.numerator * k, f.denominator);
      (f.denominator != 0 ==> r.denominator != 0 && Val(r) == Val(f) * k as real) &&
      (f.numerator >= 0 && f.denominator > 0 && k >= 0 ==> r.numerator >= 0 && r.denominator > 0)
  {
    NonZeroProduct(f.numerator, k);
    if f.denominator != 0 {
      ProductOfQuotients(f.numerator, f.denominator, k, 1);
    }
    ProductSign(f.numerator, k);
  }

  /** `divide`: the exact quotient by a non-zero fraction; dividing by zero gives an invalid
      fraction with denominator 0. */
  function Divide(fraction1: Fraction, fraction2: Fraction): (r: Fraction)
    requires (fraction1.numerator != 0 && fraction2.denominator != 0) ||
      (fraction1.denominator != 0 && fraction2.numerator != 0)
    ensures fraction1.denominator != 0 && fraction2.denominator != 0 && fraction2.numerator != 0 ==>
      r.denominator != 0 && Val(r) == Val(fraction1) / Val(fraction2)
    ensures fraction2.numerator == 0 ==> r.denominator == 0 && !r.isValid
  {
    NonZeroProduct(fraction1.numerator, fraction2.denominator);
    NonZeroProduct(fraction1.denominator, fraction2.numerator);
    QuotientOfQuotients(fraction1.numerator, fraction1.denominator, fraction2.numerator, fraction2.denominator);
    CreateFraction(fraction1.numerator * fraction2.denominator, fraction1.denominator * fraction2.numerator)
  }

  lemma QuotientOfQuotients(a: int, b: int, c: int, d: int)
    ensures c == 0 ==> b * c == 0
    ensures b != 0 && c != 0 && d != 0 ==> (b * c != 0 &&
      (a * d) as real / (b * c) as real == (a as real / b as real) / (c as real / d as real))
  {
    if b != 0 && c != 0 && d != 0 {
      ProductOfQuotients(a, b, d, c);
      assert (c as real / d as real) * (d as real / c as real) == 1.0;
    }
  }

  /** `divideByInt`: the exact quotient by a non-zero integer; dividing by zero gives an
      invalid fraction with denominator 0. A positive divisor keeps a natural numerator and a
      positive denominator. */
  function DivideByInt(fraction1: Fraction, divisor: int): (r: Fraction)
    requires fraction1.numerator != 0 || (fraction1.denominator != 0 && divisor != 0)
    ensures fraction1.denominator != 0 && divisor != 0 ==>
      r.denominator != 0 && Val(r) == Val(fraction1) / divisor as real
    ensures divisor == 0 ==> r.denominator == 0 && !r.isValid
    ensures fraction1.numerator >= 0 && fraction1.denominator > 0 && divisor > 0 ==>
      r.numerator >= 0 && r.denominator > 0
  {
    NonZeroProduct(fraction1.denominator, divisor);
    ShrinkByInt(fraction1.numerator, fraction1.denominator, divisor);
    CreateFraction(fraction1.numerator, fraction1.denominator * divisor)
  }

  lemma ShrinkByInt(n: int, d: int, k: int)
    ensures k == 0 ==> d * k == 0
    ensures d != 0 && k != 0 ==> (d * k != 0 &&
      n as real / (d * k) as real == (n as real / d as real) / k as real)
    ensures d > 0 && k > 0 ==> d * k > 0
  {
    ProductSign(d, k);
    if d != 0 && k != 0 {
      ProductOfQuotients(n, d, 1, k);
    }
  }

  // ---- comparisons ----

  /** `areEqual`: cross-multiplication decides equality of values for any non-zero
      denominators. */
  function AreEqual(fraction1: Fraction, fraction2: Fraction): (r: bool)
    ensures fraction1.denominator != 0 && fraction2.denominator != 0 ==> (r <==> Val(fraction1) == Val(fraction2))
  {
    if fraction1.denominator != 0 && fraction2.denominator != 0 then
      CrossMultiplication(fraction1.numerator, fraction1.denominator, fraction2.numerator, fraction2.denominator);
      fraction1.numerator * fraction2.denominator == fraction2.numerator * fraction1.denominator
    else
      fraction1.numerator * fraction2.denominator == fraction2.numerator * fraction1.denominator
  }

  /** `isGreaterThan`: cross-multiplication decides the order of values when both
      denominators are positive. */
  function IsGreaterThan(fraction1: Fraction, fraction2: Fraction): (r: bool)
    ensures fraction1.denominator > 0 && fraction2.denominator > 0 ==> (r <==> Val(fraction1) > Val(fraction2))
  {
    if fraction1.denominator > 0 && fraction2.denominator > 0 then
      CrossMultiplication(fraction1.numerator, fraction1.denominator, fraction2.numerator, fraction2.denominator);
      fraction1.numerator * fraction2.denominator > fraction2.numerator * fraction1.denominator
    else
      fraction1.numerator * fraction2.denominator > fraction2.numerator * fraction1.denominator
  }

  lemma CrossMultiplication(a: int, b: int, c: int, d: int)
    requires b != 0 && d != 0
    ensures a * d == c * b <==> a as real / b as real == c as real / d as real
    ensures b > 0 && d > 0 ==> (a * d > c * b <==> a as real / b as real > c as real / d as real)
  {
    var x, y := a as real / b as real, c as real / d as real;
    assert a as real == x * b as real;
    assert c as real == y * d as real;
    assert (a * d) as real == x * (b as real * d as real);
    assert (c * b) as real == y * (b as real * d as real);
    ProductSign(b, d);
  }

  /** Against the `{0, 1}` literal only the numerator's sign counts: a fraction whose sign sits
      in its denominator, such as 1/-8, compares as greater than zero. */
  lemma GreaterThanZeroLiteral(f: Fraction)
    ensures IsGreaterThan(f, ZeroLiteral) <==> f.numerator > 0
    ensures f.denominator < 0 && IsGreaterThan(f, ZeroLiteral) ==> Val(f) < 0.0
  {
  }
}
