/** Greatest common divisors and exact fractions. */
module Rationals {
  import opened Foundations

  predicate Divides(d: pos, n: int) {
    n % d == 0
  }

  lemma Scale(k: int, d: pos)
    requires k >= 1
    ensures d * k >= d
  {}

  lemma MultipleDivides(d: pos, k: int)
    ensures Divides(d, d * k)
  {
    var n := d * k;
    var q := n / d;
    assert n == d * q + n % d;
    if q < k { Scale(k - q, d); }
  }

  lemma DividesSum(d: pos, a: int, b: int)
    requires Divides(d, a) && Divides(d, b)
    ensures Divides(d, a + b) && Divides(d, a - b)
  {
    var p, q := a / d, b / d;
    assert a == d * p && b == d * q;
    assert a + b == d * (p + q);
    MultipleDivides(d, p + q);
    assert a - b == d * (p - q);
    MultipleDivides(d, p - q);
  }

  lemma DividesProduct(d: pos, a: int, k: int)
    requires Divides(d, a)
    ensures Divides(d, a * k)
  {
    var p := a / d;
    assert a == d * p;
    assert a * k == d * (p * k);
    MultipleDivides(d, p * k);
  }

  lemma DividesTransitive(a: pos, b: pos, n: int)
    requires Divides(a, b) && Divides(b, n)
    ensures Divides(a, n)
  {
    DividesProduct(a, b, n / b);
    assert n == b * (n / b);
  }

  lemma DivisorIsSmaller(d: pos, n: pos)
    requires Divides(d, n)
    ensures d <= n
  {
    assert n == d * (n / d);
    if n / d >= 1 { Scale(n / d, d); }
  }

  function Gcd(a: nat, b: nat): (g: pos)
    requires 0 < a || 0 < b
    decreases b
  {
    if b == 0 then a else Gcd(b, a % b)
  }

  lemma {:induction false} GcdDivides(a: nat, b: nat)
    requires 0 < a || 0 < b
    ensures Divides(Gcd(a, b), a) && Divides(Gcd(a, b), b)
    decreases b
  {
    if b == 0 {
      MultipleDivides(a, 1);
      MultipleDivides(a, 0);
    } else {
      GcdDivides(b, a % b);
      var g := Gcd(b, a % b);
      DividesProduct(g, b, a / b);
      assert a == b * (a / b) + a % b;
      DividesSum(g, b * (a / b), a % b);
    }
  }

  lemma {:induction false} GcdGreatest(a: nat, b: nat, d: pos)
    requires (0 < a || 0 < b) && Divides(d, a) && Divides(d, b)
    ensures Divides(d, Gcd(a, b))
    decreases b
  {
    if b > 0 {
      DividesProduct(d, b, a / b);
      assert a % b == a - b * (a / b);
      DividesSum(d, a, b * (a / b));
      GcdGreatest(b, a % b, d);
    }
  }

  lemma LcmPositive(a: pos, b: pos)
    ensures 0 < a / Gcd(a, b) * b
  {
    GcdDivides(a, b);
    assert a == Gcd(a, b) * (a / Gcd(a, b));
    Scale(a / Gcd(a, b), b);
  }

  function Lcm(a: pos, b: pos): (m: pos)
  {
    LcmPositive(a, b);
    a / Gcd(a, b) * b
  }

  lemma LcmMultiple(a: pos, b: pos)
    ensures Divides(a, Lcm(a, b)) && Divides(b, Lcm(a, b))
  {
    var g := Gcd(a, b);
    GcdDivides(a, b);
    var p, q := a / g, b / g;
    assert a == g * p && b == g * q;
    LcmPositive(a, b);
    MultipleDivides(b, p);
    assert Lcm(a, b) == b * p;
    assert b * p == a * q by { assert b * p == g * q * p; }
    MultipleDivides(a, q);
  }

  // ---------------------------------------------------------------- fractions

  datatype Ratio = Ratio(num: nat, den: pos)

  function Value(r: Ratio): real {
    r.num as real / r.den as real
  }

  lemma FractionDenominator(num: nat, den: pos)
    ensures 0 < den / Gcd(num, den)
  {
    GcdDivides(num, den);
    DivisorIsSmaller(Gcd(num, den), den);
    assert den == Gcd(num, den) * (den / Gcd(num, den));
  }

  /** A fraction in lowest terms, as the exact-arithmetic library keeps it. */
  function Fraction(num: nat, den: pos): Ratio {
    var g := Gcd(num, den);
    FractionDenominator(num, den);
    Ratio(num / g, den / g)
  }

  lemma CancelFactor(g: real, p: real, q: real)
    requires g > 0.0 && q > 0.0
    ensures (g * p) / (g * q) == p / q
  {
    var x := p / q;
    assert x * q == p;
    assert x * (g * q) == g * p;
  }

  lemma RealProduct(a: int, b: int)
    ensures (a * b) as real == a as real * b as real
  {}

  lemma ReducedValue(num: nat, den: pos, g: pos, p: nat, q: pos)
    requires num == g * p && den == g * q
    ensures p as real / q as real == num as real / den as real
  {
    RealProduct(g, p);
    RealProduct(g, q);
    CancelFactor(g as real, p as real, q as real);
  }

  /** Reduction does not change the value. */
  lemma FractionValue(num: nat, den: pos)
    ensures Value(Fraction(num, den)) == num as real / den as real
  {
    var g := Gcd(num, den);
    GcdDivides(num, den);
    FractionDenominator(num, den);
    ReducedValue(num, den, g, num / g, den / g);
  }

  lemma ProductValue(a: real, b: real, c: real, d: real)
    requires b > 0.0 && d > 0.0
    ensures (a * c) / (b * d) == (a / b) * (c / d)
  {
    var x, y := a / b, c / d;
    assert x * b == a && y * d == c;
    assert a * c == (x * y) * (b * d);
    assert b * d > 0.0;
  }

  function PosProduct(a: pos, b: pos): (p: pos)
    ensures p == a * b
  {
    Scale(a, b);
    a * b
  }

  function Times(a: Ratio, b: Ratio): Ratio {
    Fraction(a.num * b.num, PosProduct(a.den, b.den))
  }

  lemma TimesValue(a: Ratio, b: Ratio)
    ensures Value(Times(a, b)) == Value(a) * Value(b)
  {
    FractionValue(a.num * b.num, PosProduct(a.den, b.den));
    ProductValue(a.num as real, a.den as real, b.num as real, b.den as real);
  }

  function Over(a: Ratio, b: Ratio): Ratio
    requires 0 < b.num
  {
    Fraction(a.num * b.den, PosProduct(a.den, b.num))
  }

  lemma Inverse(x: real, y: real, n: real, d: real)
    requires n > 0.0 && d > 0.0 && x * d == n && y * n == d
    ensures x * y == 1.0 && x > 0.0
  {
    assert (x * y) * (n * d) == n * d;
    assert n * d > 0.0;
  }

  lemma DivideByInverse(x: real, y: real, z: real)
    requires y > 0.0 && y * z == 1.0
    ensures x / y == x * z
  {
    assert (x * z) * y == x;
  }

  lemma QuotientValue(a: real, b: real, c: real, d: real)
    requires b > 0.0 && c > 0.0 && d > 0.0
    ensures c / d > 0.0 && (a * d) / (b * c) == (a / b) / (c / d)
  {
    var x, y, z := a / b, c / d, d / c;
    assert x * b == a && y * d == c && z * c == d;
    Inverse(y, z, c, d);
    ProductValue(a, b, d, c);
    DivideByInverse(x, y, z);
  }

  lemma OverValue(a: Ratio, b: Ratio)
    requires 0 < b.num
    ensures Value(b) > 0.0 && Value(Over(a, b)) == Value(a) / Value(b)
  {
    FractionValue(a.num * b.den, PosProduct(a.den, b.num));
    QuotientValue(a.num as real, a.den as real, b.num as real, b.den as real);
  }

  lemma ScaledCompare(x: real, y: real, p: real, q: real)
    requires p > 0.0 && q > 0.0
    ensures (x * p) * q <= (y * q) * p <==> x <= y
  {
    var c := p * q;
    assert c > 0.0;
    assert (x * p) * q == x * c && (y * q) * p == y * c;
    if x <= y {
      assert x * c <= y * c;
    } else {
      assert x * c > y * c;
    }
  }

  /** Cross-multiplied pairs compare exactly as the values they stand for. */
  lemma CrossCompare(a: Ratio, b: Ratio)
    ensures a.num * b.den <= b.num * a.den <==> Value(a) <= Value(b)
  {
    var p, q := a.den as real, b.den as real;
    RealProduct(a.num, b.den);
    RealProduct(b.num, a.den);
    assert Value(a) * p == a.num as real && Value(b) * q == b.num as real;
    ScaledCompare(Value(a), Value(b), p, q);
  }
}
