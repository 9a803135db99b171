/** Weighted species draws and the integer weights a density setting turns them into. */
module SpeciesShares {
  import opened Foundations
  import opened Rationals

  // ---------------------------------------------------------------- exact shares of a draw

  function Prefix(weights: seq<nat>, i: nat): nat
    requires i <= |weights|
  {
    if i == 0 then 0 else Prefix(weights, i - 1) + weights[i - 1]
  }

  lemma {:induction false} PrefixGrows(weights: seq<nat>, i: nat, j: nat)
    requires i <= j <= |weights|
    ensures Prefix(weights, i) <= Prefix(weights, j)
  {
    if i < j { PrefixGrows(weights, i, j - 1); }
  }

  /** The entry whose stretch of the weights the draw falls into. */
  ghost predicate FallsInto(weights: seq<nat>, draw: nat, i: nat) {
    i < |weights| && Prefix(weights, i) <= draw < Prefix(weights, i + 1)
  }

  lemma FallsIntoOne(weights: seq<nat>, draw: nat, i: nat, j: nat)
    requires FallsInto(weights, draw, i) && FallsInto(weights, draw, j)
    ensures i == j
  {
    if i < j { PrefixGrows(weights, i + 1, j); } else if j < i { PrefixGrows(weights, j + 1, i); }
  }

  /** Subtracts weights from the draw until it falls below one. */
  method Select(weights: seq<nat>, draw: nat) returns (chosen: nat)
    requires draw < Prefix(weights, |weights|)
    ensures FallsInto(weights, draw, chosen) && 0 < weights[chosen]
  {
    var left, i := draw, 0;
    while i < |weights|
      invariant 0 <= i <= |weights| && 0 <= left && left + Prefix(weights, i) == draw
    {
      if left < weights[i] {
        return i;
      }
      left := left - weights[i];
      i := i + 1;
    }
    assert false;
  }

  /** The draws that select entry `i`, out of all `Prefix(weights, |weights|)` of them. */
  ghost function DrawsFor(weights: seq<nat>, i: nat): set<nat> {
    set d | 0 <= d < Prefix(weights, |weights|) && FallsInto(weights, d, i)
  }

  function Interval(from: nat, length: nat): set<nat> {
    if length == 0 then {} else Interval(from, length - 1) + {from + length - 1}
  }

  lemma {:induction false} IntervalSize(from: nat, length: nat)
    ensures |Interval(from, length)| == length
    ensures forall d: nat :: d in Interval(from, length) <==> from <= d < from + length
  {
    if length > 0 { IntervalSize(from, length - 1); }
  }

  /** Over all draws, each entry is selected exactly as often as its weight says. */
  lemma ExactShare(weights: seq<nat>, i: nat)
    requires i < |weights|
    ensures |DrawsFor(weights, i)| == weights[i]
  {
    PrefixGrows(weights, i + 1, |weights|);
    IntervalSize(Prefix(weights, i), weights[i]);
    assert DrawsFor(weights, i) == Interval(Prefix(weights, i), weights[i]);
  }

  datatype Weighted = Weighted(species: string, weight: nat)

  function Positive(entries: seq<Weighted>): seq<Weighted> {
    if entries == [] then [] else (if 0 < entries[0].weight then [entries[0]] else []) + Positive(entries[1..])
  }

  lemma {:induction false} PositiveMembers(entries: seq<Weighted>)
    ensures forall e :: e in Positive(entries) <==> e in entries && 0 < e.weight
  {
    if entries != [] { PositiveMembers(entries[1..]); }
  }

  /** The entries of positive weight stand in their order. */
  lemma {:induction false} PositiveOrder(entries: seq<Weighted>, i: nat, j: nat) returns (a: nat, b: nat)
    requires i < j < |entries| && 0 < entries[i].weight && 0 < entries[j].weight
    ensures a < b < |Positive(entries)| && Positive(entries)[a] == entries[i] && Positive(entries)[b] == entries[j]
  {
    var rest := Positive(entries[1..]);
    if i == 0 {
      PositiveMembers(entries[1..]);
      assert entries[1..][j - 1] == entries[j] && entries[j] in rest;
      b :| 0 <= b < |rest| && rest[b] == entries[j];
      a, b := 0, b + 1;
    } else {
      a, b := PositiveOrder(entries[1..], i - 1, j - 1);
      if 0 < entries[0].weight { a, b := a + 1, b + 1; }
    }
  }

  function WeightsOf(entries: seq<Weighted>): seq<nat> {
    seq(|entries|, i requires 0 <= i < |entries| => entries[i].weight)
  }

  /** Draws among the sorted eligible species of positive weight; `roll` is the random number below a bound. */
  method SampleSpecies(entries: seq<Weighted>, roll: pos -> nat) returns (r: Option<string>)
    requires forall n: pos :: roll(n) < n
    ensures r.None? <==> forall e | e in entries :: e.weight == 0
    ensures r.Some? ==> exists e | e in entries :: e.species == r.value && 0 < e.weight
    ensures r.Some? ==>
              var pool := Positive(entries);
              var total := Prefix(WeightsOf(pool), |pool|);
              0 < total && exists i | 0 <= i < |pool| :: pool[i].species == r.value && FallsInto(WeightsOf(pool), roll(total), i)
  {
    var pool := Positive(entries);
    PositiveMembers(entries);
    if pool == [] {
      return None;
    }
    var weights := WeightsOf(pool);
    assert pool[0] in pool;
    PrefixGrows(weights, 1, |weights|);
    assert Prefix(weights, 1) == Prefix(weights, 0) + weights[0];
    var draw := roll(Prefix(weights, |weights|));
    var i := Select(weights, draw);
    assert pool[i] in pool;
    r := Some(pool[i].species);
  }

  // ---------------------------------------------------------------- density weights

  /** The greatest common divisor of several numbers; zero if they all are. */
  function GcdAll(s: seq<nat>): nat {
    if s == [] then 0
    else
      var rest := GcdAll(s[1..]);
      if s[0] == 0 && rest == 0 then 0 else Gcd(s[0], rest)
  }

  ghost predicate AllZero(s: seq<nat>) {
    forall i | 0 <= i < |s| :: s[i] == 0
  }

  lemma {:induction false} GcdAllZero(s: seq<nat>)
    ensures GcdAll(s) == 0 <==> AllZero(s)
  {
    if s != [] {
      GcdAllZero(s[1..]);
      assert s == [s[0]] + s[1..];
      if AllZero(s[1..]) && s[0] == 0 {
        assert AllZero(s);
      } else {
        assert GcdAll(s) == Gcd(s[0], GcdAll(s[1..]));
      }
    }
  }

  predicate CommonDivisor(d: pos, s: seq<nat>) {
    forall i | 0 <= i < |s| :: Divides(d, s[i])
  }

  lemma ZeroDivided(d: pos)
    ensures Divides(d, 0)
  {
    MultipleDivides(d, 0);
  }

  lemma {:induction false} GcdAllDivides(s: seq<nat>)
    requires 0 < GcdAll(s)
    ensures CommonDivisor(GcdAll(s), s)
  {
    var rest := GcdAll(s[1..]);
    GcdDivides(s[0], rest);
    forall i | 0 <= i < |s| ensures Divides(GcdAll(s), s[i]) {
      if i > 0 {
        assert s[i] == s[1..][i - 1];
        if rest == 0 {
          GcdAllZero(s[1..]);
          ZeroDivided(GcdAll(s));
        } else {
          GcdAllDivides(s[1..]);
          DividesTransitive(GcdAll(s), rest, s[i]);
        }
      }
    }
  }

  lemma {:induction false} GcdAllGreatest(s: seq<nat>, d: pos)
    requires CommonDivisor(d, s)
    ensures Divides(d, GcdAll(s))
  {
    ZeroDivided(d);
    if s != [] {
      GcdAllGreatest(s[1..], d);
      if 0 < s[0] || 0 < GcdAll(s[1..]) { GcdGreatest(s[0], GcdAll(s[1..]), d); }
    }
  }

  function LcmAll(s: seq<pos>): pos {
    if s == [] then 1 else Lcm(s[0], LcmAll(s[1..]))
  }

  lemma {:induction false} LcmAllMultiple(s: seq<pos>)
    ensures forall i | 0 <= i < |s| :: Divides(s[i], LcmAll(s))
  {
    if s != [] {
      LcmAllMultiple(s[1..]);
      LcmMultiple(s[0], LcmAll(s[1..]));
      forall i | 0 <= i < |s| ensures Divides(s[i], LcmAll(s)) {
        if i > 0 {
          assert s[i] == s[1..][i - 1];
          DividesTransitive(s[i], LcmAll(s[1..]), LcmAll(s));
        }
      }
    }
  }

  /** Integers without a common divisor, in exactly the proportions of the given fractions. */
  ghost predicate CoprimeShares(shares: seq<nat>, fractions: seq<Ratio>) {
    && |shares| == |fractions| && !AllZero(shares)
    && (forall i, j | 0 <= i < |shares| && 0 <= j < |shares| ::
          shares[i] as real * Value(fractions[j]) == shares[j] as real * Value(fractions[i]))
    && (forall d: pos | CommonDivisor(d, shares) :: d == 1)
  }

  lemma WholeMultiple(r: Ratio, common: pos)
    requires Divides(r.den, common)
    ensures var n := r.num * (common / r.den); (0 < r.num ==> 0 < n) && n as real == Value(r) * common as real
  {
    var q := common / r.den;
    assert common == r.den * q;
    var x := Value(r);
    assert x * r.den as real == r.num as real;
    assert common as real == r.den as real * q as real;
    assert q > 0;
    if 0 < r.num { Scale(r.num, q); }
    assert (r.num * q) as real == r.num as real * q as real;
  }

  lemma SharesProportional(n: nat, m: nat, g: pos, common: pos, a: real, b: real)
    requires Divides(g, n) && Divides(g, m) && n as real == a * common as real && m as real == b * common as real
    ensures (n / g) as real * b == (m / g) as real * a
  {
    var p, q := n / g, m / g;
    assert n == g * p && m == g * q;
    var c, h := common as real, g as real;
    assert h * p as real == a * c && h * q as real == b * c;
    assert h * (p as real * b) == a * c * b;
    assert h * (q as real * a) == b * c * a;
  }

  lemma DividesThrough(g: pos, d: pos, n: nat)
    requires Divides(g, n) && Divides(d, n / g)
    ensures Divides(PosProduct(g, d), n)
  {
    var p := n / g;
    var q := p / d;
    assert n == g * p && p == d * q;
    assert n == g * d * q;
    MultipleDivides(PosProduct(g, d), q);
  }

  lemma NoLargerDivisor(g: pos, d: pos)
    requires Divides(PosProduct(g, d), g)
    ensures d == 1
  {
    DivisorIsSmaller(PosProduct(g, d), g);
    if d > 1 { Scale(d - 1, g); }
  }

  lemma QuotientsCoprime(s: seq<nat>, shares: seq<nat>, g: pos, d: pos)
    requires g == GcdAll(s) && |shares| == |s| && forall i | 0 <= i < |s| :: shares[i] == s[i] / g
    requires CommonDivisor(d, shares)
    ensures d == 1
  {
    GcdAllDivides(s);
    forall i | 0 <= i < |s| ensures Divides(PosProduct(g, d), s[i]) {
      assert Divides(g, s[i]) && Divides(d, shares[i]);
      DividesThrough(g, d, s[i]);
    }
    GcdAllGreatest(s, PosProduct(g, d));
    NoLargerDivisor(g, d);
  }

  function Denominators(fractions: seq<Ratio>): seq<pos> {
    seq(|fractions|, i requires 0 <= i < |fractions| => fractions[i].den)
  }

  method ScaleAll(fractions: seq<Ratio>, common: pos) returns (scaled: seq<nat>)
    requires forall i | 0 <= i < |fractions| :: Divides(fractions[i].den, common)
    ensures |scaled| == |fractions|
    ensures forall j | 0 <= j < |scaled| :: scaled[j] as real == Value(fractions[j]) * common as real
    ensures forall j | 0 <= j < |scaled| && 0 < fractions[j].num :: 0 < scaled[j]
  {
    scaled := [];
    for i := 0 to |fractions|
      invariant |scaled| == i
      invariant forall j | 0 <= j < i :: scaled[j] as real == Value(fractions[j]) * common as real
      invariant forall j | 0 <= j < i && 0 < fractions[j].num :: 0 < scaled[j]
    {
      WholeMultiple(fractions[i], common);
      var n: nat := fractions[i].num * (common / fractions[i].den);
      scaled := scaled + [n];
    }
  }

  method DivideAll(scaled: seq<nat>, divisor: pos) returns (shares: seq<nat>)
    ensures |shares| == |scaled| && forall j | 0 <= j < |scaled| :: shares[j] == scaled[j] / divisor
  {
    shares := [];
    for i := 0 to |scaled|
      invariant |shares| == i && forall j | 0 <= j < i :: shares[j] == scaled[j] / divisor
    {
      shares := shares + [scaled[i] / divisor];
    }
  }

  lemma NoCommonDivisor(scaled: seq<nat>, shares: seq<nat>)
    requires |scaled| == |shares| && 0 < GcdAll(scaled)
    requires forall j | 0 <= j < |scaled| :: shares[j] == scaled[j] / GcdAll(scaled)
    ensures forall d: pos | CommonDivisor(d, shares) :: d == 1
  {
    forall d: pos | CommonDivisor(d, shares) ensures d == 1 {
      QuotientsCoprime(scaled, shares, GcdAll(scaled), d);
    }
  }

  lemma PositiveQuotient(n: pos, d: pos)
    requires Divides(d, n)
    ensures 0 < n / d
  {
    assert n == d * (n / d);
  }

  lemma SomeShare(scaled: seq<nat>, shares: seq<nat>, g: pos)
    requires |scaled| == |shares| && g == GcdAll(scaled)
    requires forall j | 0 <= j < |scaled| :: shares[j] == scaled[j] / g
    ensures !AllZero(shares)
  {
    GcdAllZero(scaled);
    GcdAllDivides(scaled);
    var i :| 0 <= i < |scaled| && scaled[i] != 0;
    assert Divides(g, scaled[i]);
    PositiveQuotient(scaled[i], g);
  }

  lemma DividedProportional(fractions: seq<Ratio>, scaled: seq<nat>, shares: seq<nat>, common: pos, g: pos, i: nat, j: nat)
    requires |fractions| == |scaled| == |shares| && i < |scaled| && j < |scaled|
    requires scaled[i] as real == Value(fractions[i]) * common as real && scaled[j] as real == Value(fractions[j]) * common as real
    requires Divides(g, scaled[i]) && Divides(g, scaled[j])
    requires shares[i] == scaled[i] / g && shares[j] == scaled[j] / g
    ensures shares[i] as real * Value(fractions[j]) == shares[j] as real * Value(fractions[i])
  {
    var n, m := scaled[i], scaled[j];
    var a, b := Value(fractions[i]), Value(fractions[j]);
    SharesProportional(n, m, g, common, a, b);
  }

  lemma DividedIsCoprime(fractions: seq<Ratio>, scaled: seq<nat>, shares: seq<nat>, common: pos)
    requires |fractions| == |scaled| == |shares| && 0 < GcdAll(scaled)
    requires forall j | 0 <= j < |scaled| :: scaled[j] as real == Value(fractions[j]) * common as real
    requires forall j | 0 <= j < |scaled| :: shares[j] == scaled[j] / GcdAll(scaled)
    ensures CoprimeShares(shares, fractions)
  {
    NoCommonDivisor(scaled, shares);
    GcdAllDivides(scaled);
    SomeShare(scaled, shares, GcdAll(scaled));
    forall i: nat, j: nat | i < |shares| && j < |shares|
      ensures shares[i] as real * Value(fractions[j]) == shares[j] as real * Value(fractions[i])
    {
      DividedProportional(fractions, scaled, shares, common, GcdAll(scaled), i, j);
    }
  }

  /** Scales fractions to integers by their common denominator and divides out the common divisor. */
  method Integers(fractions: seq<Ratio>) returns (shares: seq<nat>)
    requires exists i :: 0 <= i < |fractions| && 0 < fractions[i].num
    ensures CoprimeShares(shares, fractions)
  {
    var common := LcmAll(Denominators(fractions));
    LcmAllMultiple(Denominators(fractions));
    forall i | 0 <= i < |fractions| ensures Divides(fractions[i].den, common) {
      assert Divides(Denominators(fractions)[i], common);
    }
    var scaled := ScaleAll(fractions, common);
    GcdAllZero(scaled);
    shares := DivideAll(scaled, GcdAll(scaled));
    DividedIsCoprime(fractions, scaled, shares, common);
  }

  // ---------------------------------------------------------------- the density tilt

  function Fourth(x: real): real {
    x * x * (x * x)
  }

  function Plus(a: Ratio, b: Ratio): Ratio {
    Fraction(a.num * b.den + b.num * a.den, PosProduct(a.den, b.den))
  }

  function FourthOf(r: Ratio): Ratio {
    Times(Times(r, r), Times(r, r))
  }

  /** `1 + tilt * cost / reference`. */
  function Bias(tilt: Ratio, cost: Ratio, reference: Ratio): Ratio
    requires 0 < reference.num
  {
    Plus(Ratio(1, 1), Over(Times(tilt, cost), reference))
  }

  lemma SumValue(a: real, b: real, c: real, d: real)
    requires b > 0.0 && d > 0.0
    ensures (a * d + c * b) / (b * d) == a / b + c / d
  {
    var x, y := a / b, c / d;
    assert x * b == a && y * d == c;
    assert (x + y) * (b * d) == a * d + c * b;
    assert b * d > 0.0;
  }

  lemma PlusValue(a: Ratio, b: Ratio)
    ensures Value(Plus(a, b)) == Value(a) + Value(b)
  {
    FractionValue(a.num * b.den + b.num * a.den, PosProduct(a.den, b.den));
    SumValue(a.num as real, a.den as real, b.num as real, b.den as real);
  }

  lemma NumeratorPositive(r: Ratio)
    requires 0.0 < Value(r)
    ensures 0 < r.num
  {
    var x := Value(r);
    assert x * r.den as real == r.num as real;
  }

  /** The bias as a real number. */
  function BiasOf(t: real, c: real, r: real): real
    requires r > 0.0
  {
    1.0 + t * c / r
  }

  lemma BiasValue(tilt: Ratio, cost: Ratio, reference: Ratio)
    requires 0 < reference.num
    ensures Value(reference) > 0.0
    ensures Value(Bias(tilt, cost, reference)) == BiasOf(Value(tilt), Value(cost), Value(reference))
    ensures 1.0 <= Value(Bias(tilt, cost, reference)) && 0 < Bias(tilt, cost, reference).num
  {
    TimesValue(tilt, cost);
    OverValue(Times(tilt, cost), reference);
    PlusValue(Ratio(1, 1), Over(Times(tilt, cost), reference));
    assert 0.0 <= Value(Over(Times(tilt, cost), reference)) by {
      var o := Over(Times(tilt, cost), reference);
      assert 0.0 <= o.num as real;
    }
    NumeratorPositive(Bias(tilt, cost, reference));
  }

  /** A weight tilted towards costly species below full density and towards cheap ones above it. */
  function Tilted(weight: nat, density: nat, tilt: Ratio, cost: Ratio, reference: Ratio): Ratio
    requires 0 < reference.num && 0 < FourthOf(Bias(tilt, cost, reference)).num
  {
    var fourth := FourthOf(Bias(tilt, cost, reference));
    if density < 100 then Times(Ratio(weight, 1), fourth) else Over(Ratio(weight, 1), fourth)
  }

  lemma FourthValue(r: Ratio)
    requires 1.0 <= Value(r)
    ensures Value(FourthOf(r)) == Fourth(Value(r)) && 0 < FourthOf(r).num && 1.0 <= Fourth(Value(r))
  {
    TimesValue(r, r);
    TimesValue(Times(r, r), Times(r, r));
    var x := Value(r);
    assert 1.0 <= x * x;
    assert 1.0 <= Fourth(x);
    NumeratorPositive(FourthOf(r));
  }

  /** The value a tilted weight has, by the fourth power of its bias. */
  function TiltedBy(weight: real, density: nat, fourth: real): real
    requires 0.0 < fourth
  {
    if density < 100 then weight * fourth else weight / fourth
  }

  lemma QuotientPositive(a: real, b: real)
    requires a > 0.0 && b > 0.0
    ensures a / b > 0.0
  {
    var q := a / b;
    assert q * b == a;
  }

  lemma PositiveTogether(weight: nat, tilted: Ratio, x: real, density: nat)
    requires 0.0 < x && Value(tilted) == TiltedBy(weight as real, density, x)
    ensures 0 < weight <==> 0 < tilted.num
  {
    var w, v := weight as real, Value(tilted);
    assert v * tilted.den as real == tilted.num as real;
    assert density >= 100 ==> v * x == w;
    if 0 < weight {
      assert density < 100 ==> w * x > 0.0;
      QuotientPositive(w, x);
      NumeratorPositive(tilted);
    }
  }

  lemma TiltedPositive(weight: nat, density: nat, tilt: Ratio, cost: Ratio, reference: Ratio)
    requires 0 < reference.num
    ensures 0 < FourthOf(Bias(tilt, cost, reference)).num
    ensures 0 < weight <==> 0 < Tilted(weight, density, tilt, cost, reference).num
    ensures 1.0 <= Fourth(Value(Bias(tilt, cost, reference)))
    ensures Value(Tilted(weight, density, tilt, cost, reference)) == TiltedBy(weight as real, density, Fourth(Value(Bias(tilt, cost, reference))))
  {
    var bias := Bias(tilt, cost, reference);
    BiasValue(tilt, cost, reference);
    FourthValue(bias);
    var w, f := Ratio(weight, 1), FourthOf(bias);
    assert Value(w) == weight as real;
    TimesValue(w, f);
    OverValue(w, f);
    PositiveTogether(weight, Tilted(weight, density, tilt, cost, reference), Value(f), density);
  }

  lemma FourthMonotone(x: real, y: real)
    requires 1.0 <= x <= y
    ensures Fourth(x) <= Fourth(y)
  {
    assert x * x <= x * y <= y * y;
    var p, q := x * x, y * y;
    assert 0.0 <= p <= q;
    assert p * p <= p * q <= q * q;
  }

  lemma ValueNotNegative(r: Ratio)
    ensures 0.0 <= Value(r)
  {
    var x := Value(r);
    assert x * r.den as real == r.num as real;
  }

  lemma DivideMonotone(a: real, b: real, r: real)
    requires a <= b && r > 0.0
    ensures a / r <= b / r
  {
    var x, y := a / r, b / r;
    assert x * r == a && y * r == b;
  }

  lemma BiasesOrdered(x: real, y: real, t: real, a: real, b: real, r: real)
    requires 0.0 <= t && a <= b && r > 0.0 && x == BiasOf(t, a, r) && y == BiasOf(t, b, r)
    ensures x <= y
  {
    assert t * a <= t * b;
    DivideMonotone(t * a, t * b, r);
  }

  lemma BiasMonotone(tilt: Ratio, cheap: Ratio, costly: Ratio, reference: Ratio)
    requires 0 < reference.num && Value(cheap) <= Value(costly)
    ensures Value(Bias(tilt, cheap, reference)) <= Value(Bias(tilt, costly, reference))
  {
    BiasValue(tilt, cheap, reference);
    BiasValue(tilt, costly, reference);
    ValueNotNegative(tilt);
    BiasesOrdered(Value(Bias(tilt, cheap, reference)), Value(Bias(tilt, costly, reference)),
                  Value(tilt), Value(cheap), Value(costly), Value(reference));
  }

  /** `a` has no larger share against weight `w` than `b` has against weight `v`. */
  predicate NoLargerShare(a: real, w: real, b: real, v: real) {
    a * v <= b * w
  }

  lemma TiltedShares(w: real, v: real, x: real, y: real)
    requires w >= 0.0 && v >= 0.0 && 1.0 <= x <= y
    ensures w * x * v <= v * y * w
    ensures (w / x) * v >= (v / y) * w
  {
    assert w * v >= 0.0;
    assert (w * v) * x <= (w * v) * y;
    var p, q := w / x, v / y;
    assert p * x == w && q * y == v;
    assert p * v * x == w * v && q * w * y == w * v;
    if p * v < q * w {
      assert p >= 0.0;
      assert p * v >= 0.0;
      assert p * v * x < q * w * x <= q * w * y;
    }
  }

  lemma SharesOrdered(w: real, v: real, density: nat, x: real, y: real)
    requires w >= 0.0 && v >= 0.0 && 1.0 <= x <= y
    ensures var a, b := TiltedBy(w, density, x), TiltedBy(v, density, y);
            if density < 100 then NoLargerShare(a, w, b, v) else NoLargerShare(b, v, a, w)
  {
    TiltedShares(w, v, x, y);
  }

  lemma FourthsOrdered(tilt: Ratio, cheap: Ratio, costly: Ratio, reference: Ratio)
    requires 0 < reference.num && Value(cheap) <= Value(costly)
    ensures 1.0 <= Fourth(Value(Bias(tilt, cheap, reference))) <= Fourth(Value(Bias(tilt, costly, reference)))
  {
    BiasValue(tilt, cheap, reference);
    BiasMonotone(tilt, cheap, costly, reference);
    FourthMonotone(1.0, Value(Bias(tilt, cheap, reference)));
    FourthMonotone(Value(Bias(tilt, cheap, reference)), Value(Bias(tilt, costly, reference)));
  }

  /** Below full density a costlier species gains share against a cheaper one; above it, it loses share. */
  lemma DensityTiltsByCost(weight: nat, other: nat, density: nat, tilt: Ratio, cheap: Ratio, costly: Ratio, reference: Ratio)
    requires 0 < reference.num && Value(cheap) <= Value(costly)
    ensures 0 < FourthOf(Bias(tilt, cheap, reference)).num && 0 < FourthOf(Bias(tilt, costly, reference)).num
    ensures var a, b := Value(Tilted(weight, density, tilt, cheap, reference)), Value(Tilted(other, density, tilt, costly, reference));
            if density < 100 then NoLargerShare(a, weight as real, b, other as real) else NoLargerShare(b, other as real, a, weight as real)
  {
    TiltedPositive(weight, density, tilt, cheap, reference);
    TiltedPositive(other, density, tilt, costly, reference);
    FourthsOrdered(tilt, cheap, costly, reference);
    SharesOrdered(weight as real, other as real, density,
                  Fourth(Value(Bias(tilt, cheap, reference))), Fourth(Value(Bias(tilt, costly, reference))));
  }

  function WeightedCost(weights: seq<nat>, costs: seq<Ratio>): Ratio
    requires |weights| == |costs|
  {
    if weights == [] then Ratio(0, 1)
    else Plus(Times(costs[0], Ratio(weights[0], 1)), WeightedCost(weights[1..], costs[1..]))
  }

  function TotalWeight(weights: seq<nat>): nat {
    if weights == [] then 0 else weights[0] + TotalWeight(weights[1..])
  }

  lemma {:induction false} TotalWeightZero(weights: seq<nat>)
    ensures TotalWeight(weights) == 0 <==> AllZero(weights)
  {
    if weights != [] {
      TotalWeightZero(weights[1..]);
      assert weights == [weights[0]] + weights[1..];
    }
  }

  lemma CostTimesWeight(cost: Ratio, weight: nat)
    requires 0 < cost.num
    ensures 0.0 <= Value(Times(cost, Ratio(weight, 1))) && (0 < weight ==> 0.0 < Value(Times(cost, Ratio(weight, 1))))
  {
    TimesValue(cost, Ratio(weight, 1));
    QuotientPositive(cost.num as real, cost.den as real);
    ValueNotNegative(Times(cost, Ratio(weight, 1)));
    assert 0 < weight ==> Value(cost) * weight as real > 0.0;
  }

  lemma {:induction false} WeightedCostPositive(weights: seq<nat>, costs: seq<Ratio>)
    requires |weights| == |costs| && forall c | c in costs :: 0 < c.num
    ensures 0 < TotalWeight(weights) ==> 0.0 < Value(WeightedCost(weights, costs))
  {
    if weights != [] {
      var rest := WeightedCost(weights[1..], costs[1..]);
      WeightedCostPositive(weights[1..], costs[1..]);
      assert costs[0] in costs;
      CostTimesWeight(costs[0], weights[0]);
      ValueNotNegative(rest);
      PlusValue(Times(costs[0], Ratio(weights[0], 1)), rest);
    }
  }

  lemma ReferencePositive(weights: seq<nat>, costs: seq<Ratio>)
    requires |weights| == |costs| && 0 < TotalWeight(weights) && forall c | c in costs :: 0 < c.num
    ensures 0 < Over(WeightedCost(weights, costs), Ratio(TotalWeight(weights), 1)).num
  {
    WeightedCostPositive(weights, costs);
    OverValue(WeightedCost(weights, costs), Ratio(TotalWeight(weights), 1));
    QuotientPositive(Value(WeightedCost(weights, costs)), TotalWeight(weights) as real);
    NumeratorPositive(Over(WeightedCost(weights, costs), Ratio(TotalWeight(weights), 1)));
  }

  /** The fractions the density setting asks for, one per candidate. */
  ghost predicate TiltedFractions(fractions: seq<Ratio>, weights: seq<nat>, costs: seq<Ratio>, density: nat, tilt: Ratio, reference: Ratio)
    requires 0 < reference.num
  {
    && |fractions| == |weights| == |costs|
    && forall i | 0 <= i < |weights| ::
         && 0 < FourthOf(Bias(tilt, costs[i], reference)).num
         && fractions[i] == Tilted(weights[i], density, tilt, costs[i], reference)
         && (0 < weights[i] <==> 0 < fractions[i].num)
  }

  ghost function AddedReals(xs: seq<real>): real {
    if xs == [] then 0.0 else xs[0] + AddedReals(xs[1..])
  }

  ghost function Weighed(cost: Ratio, weight: nat): real {
    Value(cost) * weight as real
  }

  /** What each candidate costs, times its weight. */
  ghost function WeighedCosts(weights: seq<nat>, costs: seq<Ratio>): seq<real>
    requires |weights| == |costs|
  {
    seq(|weights|, i requires 0 <= i < |weights| => Weighed(costs[i], weights[i]))
  }

  lemma WeighedValue(cost: Ratio, weight: nat)
    ensures Value(Times(cost, Ratio(weight, 1))) == Weighed(cost, weight)
  {
    TimesValue(cost, Ratio(weight, 1));
    assert Value(Ratio(weight, 1)) == weight as real;
  }

  lemma {:induction false} WeightedCostAdded(weights: seq<nat>, costs: seq<Ratio>)
    requires |weights| == |costs|
    ensures Value(WeightedCost(weights, costs)) == AddedReals(WeighedCosts(weights, costs))
  {
    if weights != [] {
      WeightedCostAdded(weights[1..], costs[1..]);
      WeighedValue(costs[0], weights[0]);
      PlusValue(Times(costs[0], Ratio(weights[0], 1)), WeightedCost(weights[1..], costs[1..]));
      assert WeighedCosts(weights, costs)[1..] == WeighedCosts(weights[1..], costs[1..]);
    }
  }

  lemma {:induction false} TotalIsSum(weights: seq<nat>, f: nat -> int)
    requires forall n: nat :: f(n) == n
    ensures TotalWeight(weights) == Sum(weights, f)
  {
    if weights != [] { TotalIsSum(weights[1..], f); }
  }

  lemma TotalAdded(weights: seq<nat>)
    ensures TotalWeight(weights) == Added(weights)
  {
    var f := (n: nat) => n as int;
    TotalIsSum(weights, f);
    SumIsAdded(weights, f, weights);
  }

  ghost function Multiplied(x: real, n: int): real {
    x * n as real
  }

  /** The mean cost, every cost counted as often as its weight says. */
  ghost predicate MeanOf(weights: seq<nat>, costs: seq<Ratio>, mean: real)
    requires |weights| == |costs|
  {
    0.0 < mean && Multiplied(mean, Added(weights)) == AddedReals(WeighedCosts(weights, costs))
  }

  /** The distance from full density. */
  ghost predicate TiltOf(density: nat, tilt: real) {
    tilt * 100.0 == if density < 100 then 100.0 - density as real else density as real - 100.0
  }

  ghost predicate PoweredBy(fraction: real, weight: nat, density: nat, b: real) {
    if density < 100 then fraction == weight as real * (b * b * b * b) else fraction * (b * b * b * b) == weight as real
  }

  /** One weight times, or above full density over, the fourth power of one plus the tilt by its share of the mean cost. */
  ghost predicate TiltedOnce(fraction: real, weight: nat, cost: real, density: nat, tilt: real, mean: real)
    requires mean > 0.0
  {
    PoweredBy(fraction, weight, density, 1.0 + tilt * cost / mean)
  }

  ghost predicate TiltedExactly(fractions: seq<Ratio>, weights: seq<nat>, costs: seq<Ratio>, density: nat, tilt: real, mean: real) {
    && |fractions| == |weights| == |costs| && mean > 0.0
    && forall i | 0 <= i < |weights| :: TiltedOnce(Value(fractions[i]), weights[i], Value(costs[i]), density, tilt, mean)
  }

  lemma Restored(x: real, n: real)
    requires n > 0.0
    ensures x / n * n == x
  {}

  lemma FourthPower(b: real, weight: nat, fraction: real, density: nat)
    requires 1.0 <= Fourth(b) && fraction == TiltedBy(weight as real, density, Fourth(b))
    ensures PoweredBy(fraction, weight, density, b)
  {
    assert b * b * b * b == Fourth(b);
    Restored(weight as real, Fourth(b));
  }

  lemma FractionTilted(weight: nat, density: nat, tilt: Ratio, cost: Ratio, reference: Ratio)
    requires 0 < reference.num
    ensures 0 < FourthOf(Bias(tilt, cost, reference)).num && Value(reference) > 0.0
    ensures TiltedOnce(Value(Tilted(weight, density, tilt, cost, reference)), weight, Value(cost), density, Value(tilt), Value(reference))
  {
    TiltedPositive(weight, density, tilt, cost, reference);
    BiasValue(tilt, cost, reference);
    FourthPower(Value(Bias(tilt, cost, reference)), weight, Value(Tilted(weight, density, tilt, cost, reference)), density);
  }

  lemma FractionsTilted(fractions: seq<Ratio>, weights: seq<nat>, costs: seq<Ratio>, density: nat, tilt: Ratio, reference: Ratio)
    requires 0 < reference.num && TiltedFractions(fractions, weights, costs, density, tilt, reference)
    ensures Value(reference) > 0.0 && TiltedExactly(fractions, weights, costs, density, Value(tilt), Value(reference))
  {
    QuotientPositive(reference.num as real, reference.den as real);
    forall i | 0 <= i < |weights|
      ensures TiltedOnce(Value(fractions[i]), weights[i], Value(costs[i]), density, Value(tilt), Value(reference))
    {
      FractionTilted(weights[i], density, tilt, costs[i], reference);
    }
  }

  lemma MeanRestores(cost: Ratio, total: pos)
    ensures Multiplied(Value(Over(cost, Ratio(total, 1))), total) == Value(cost)
  {
    OverValue(cost, Ratio(total, 1));
    assert Value(Ratio(total, 1)) == total as real;
    Restored(Value(cost), total as real);
  }

  lemma RatioPositive(r: Ratio)
    requires 0 < r.num
    ensures 0.0 < Value(r)
  {
    QuotientPositive(r.num as real, r.den as real);
  }

  lemma MeanPositive(weights: seq<nat>, costs: seq<Ratio>)
    requires |weights| == |costs| && 0 < TotalWeight(weights) && forall c | c in costs :: 0 < c.num
    ensures 0.0 < Value(Over(WeightedCost(weights, costs), Ratio(TotalWeight(weights), 1)))
  {
    ReferencePositive(weights, costs);
    RatioPositive(Over(WeightedCost(weights, costs), Ratio(TotalWeight(weights), 1)));
  }

  lemma MeanTimesTotal(weights: seq<nat>, costs: seq<Ratio>, total: pos, mean: Ratio)
    requires |weights| == |costs| && total == TotalWeight(weights) && mean == Over(WeightedCost(weights, costs), Ratio(total, 1))
    ensures Multiplied(Value(mean), Added(weights)) == AddedReals(WeighedCosts(weights, costs))
  {
    MeanRestores(WeightedCost(weights, costs), total);
    WeightedCostAdded(weights, costs);
    TotalAdded(weights);
  }

  lemma MeanIsMean(weights: seq<nat>, costs: seq<Ratio>)
    requires |weights| == |costs| && 0 < TotalWeight(weights) && forall c | c in costs :: 0 < c.num
    ensures MeanOf(weights, costs, Value(Over(WeightedCost(weights, costs), Ratio(TotalWeight(weights), 1))))
  {
    MeanPositive(weights, costs);
    MeanTimesTotal(weights, costs, TotalWeight(weights), Over(WeightedCost(weights, costs), Ratio(TotalWeight(weights), 1)));
  }

  lemma TiltIsDistance(density: nat)
    ensures TiltOf(density, Value(Fraction(if density < 100 then 100 - density else density - 100, 100)))
  {
    var distance := if density < 100 then 100 - density else density - 100;
    FractionValue(distance, 100);
    Restored(distance as real, 100.0);
  }

  method TiltAll(weights: seq<nat>, costs: seq<Ratio>, density: nat, lean: Ratio, mean: Ratio) returns (adjusted: seq<Ratio>)
    requires |weights| == |costs| && 0 < mean.num
    ensures TiltedFractions(adjusted, weights, costs, density, lean, mean)
  {
    adjusted := [];
    for i := 0 to |weights|
      invariant TiltedFractions(adjusted, weights[..i], costs[..i], density, lean, mean)
    {
      TiltedPositive(weights[i], density, lean, costs[i], mean);
      adjusted := adjusted + [Tilted(weights[i], density, lean, costs[i], mean)];
    }
    assert weights[..|weights|] == weights && costs[..|costs|] == costs;
  }

  /** Full density keeps the weights; any other turns them into coprime integers in the tilted proportions. The
    * mean cost divides by the sum of the weights, so a density other than full needs a weight that is not zero. */
  method DensityWeights(weights: seq<nat>, costs: seq<Ratio>, density: nat)
    returns (shares: Option<seq<nat>>, ghost tilt: Ratio, ghost reference: Ratio, ghost fractions: seq<Ratio>)
    requires |weights| == |costs| && forall c | c in costs :: 0 < c.num
    ensures shares.None? <==> density != 100 && AllZero(weights)
    ensures density == 100 ==> shares == Some(weights)
    ensures density != 100 && shares.Some? ==>
              && 0 < TotalWeight(weights) && reference == Over(WeightedCost(weights, costs), Ratio(TotalWeight(weights), 1))
              && tilt == Fraction(if density < 100 then 100 - density else density - 100, 100)
              && 0 < reference.num && TiltedFractions(fractions, weights, costs, density, tilt, reference)
              && CoprimeShares(shares.value, fractions)
    ensures density != 100 && shares.Some? ==>
              && MeanOf(weights, costs, Value(reference)) && TiltOf(density, Value(tilt))
              && TiltedExactly(fractions, weights, costs, density, Value(tilt), Value(reference))
  {
    tilt, reference, fractions := Ratio(0, 1), Ratio(1, 1), [];
    if density == 100 {
      return Some(weights), tilt, reference, fractions;
    }
    TotalWeightZero(weights);
    if TotalWeight(weights) == 0 {
      return None, tilt, reference, fractions;
    }
    ReferencePositive(weights, costs);
    var mean := Over(WeightedCost(weights, costs), Ratio(TotalWeight(weights), 1));
    var lean := Fraction(if density < 100 then 100 - density else density - 100, 100);
    var adjusted := TiltAll(weights, costs, density, lean, mean);
    tilt, reference, fractions := lean, mean, adjusted;
    MeanIsMean(weights, costs);
    TiltIsDistance(density);
    FractionsTilted(adjusted, weights, costs, density, lean, mean);
    var integers := Integers(adjusted);
    shares := Some(integers);
  }
}
