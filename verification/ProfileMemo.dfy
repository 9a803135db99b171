/** Sampling one representative per attribute profile instead of every species. */
module ProfileMemo {
  import opened Foundations
  import opened Rationals

  type Species = string

  datatype Field = Health | Damage | Speed | Size | SizeVariation

  /** The range of an attribute at the first and at the last stage. */
  datatype Bounds = Bounds(earlyLow: nat, earlyHigh: nat, lateLow: nat, lateHigh: nat)
  datatype Ranges = Ranges(species: map<Species, Bounds>, common: Bounds)
  datatype Settings = Settings(health: Ranges, damage: Ranges, speed: Ranges, size: Ranges,
                               exclusions: set<Species>, chance: nat, qualified: set<Species>)

  datatype Attributes = Attributes(health: int, damage: int, speed: int, size: int)

  /** The deterministic draw for one seed and one spawn, by field and range. */
  type Draw = (Field, int, int) -> int

  function BoundsOf(ranges: Ranges, species: Species): Bounds {
    if species in ranges.species then ranges.species[species] else ranges.common
  }

  /** The stage's share between an early and a late bound, rounded. */
  function Edge(early: nat, late: nat, stage: nat, last: pos): int
    requires stage <= last
  {
    (early * (last - stage) + late * stage + last / 2) / last
  }

  function Last(stageCount: pos): pos {
    if stageCount == 1 then 1 else stageCount - 1
  }

  function SampleOne(b: Bounds, field: Field, stage: nat, last: pos, draw: Draw): int
    requires stage <= last
  {
    var lower, upper := Edge(b.earlyLow, b.lateLow, stage, last), Edge(b.earlyHigh, b.lateHigh, stage, last);
    if lower == upper then lower else draw(field, lower, upper)
  }

  function VariedSize(variation: int, chance: nat): int {
    if variation < chance then 50 else if variation < 2 * chance then 200 else 100
  }

  /** Direct sampling of one species. */
  function Sample(s: Settings, species: Species, stage: nat, stageCount: pos, draw: Draw): Attributes
    requires stage < stageCount
  {
    var last := Last(stageCount);
    var size := SampleOne(BoundsOf(s.size, species), Size, stage, last, draw);
    Attributes(
      SampleOne(BoundsOf(s.health, species), Health, stage, last, draw),
      SampleOne(BoundsOf(s.damage, species), Damage, stage, last, draw),
      if species in s.qualified then SampleOne(BoundsOf(s.speed, species), Speed, stage, last, draw) else 100,
      if species in s.exclusions then size
      else VariedSize(if s.chance != 0 then draw(SizeVariation, 0, 199) else 0, s.chance))
  }

  /** The whole number nearest to the stage's share between the bounds; a half rounds up. */
  ghost predicate NearestShare(early: nat, late: nat, stage: nat, last: pos, value: int) {
    var apart := early * (last - stage) + late * stage - value * last;
    0 <= 2 * apart + last < 2 * last
  }

  lemma RoundedShare(share: int, last: pos)
    ensures var value := (share + last / 2) / last;
            0 <= 2 * (share - value * last) + last < 2 * last
  {
    var value := (share + last / 2) / last;
    assert value * last <= share + last / 2 < value * last + last;
  }

  lemma EdgeIsNearest(early: nat, late: nat, stage: nat, last: pos)
    requires stage <= last
    ensures NearestShare(early, late, stage, last, Edge(early, late, stage, last))
  {
    RoundedShare(early * (last - stage) + late * stage, last);
  }

  lemma OneApart(a: int, b: int, last: pos)
    requires a != b
    ensures a * last - b * last >= last || b * last - a * last >= last
  {
    assert a * last - b * last == last * (a - b);
    if a > b { Scale(a - b, last); } else { Scale(b - a, last); }
  }

  lemma WholeShare(bound: nat, last: pos)
    ensures (bound * last + last / 2) / last == bound
  {
    RoundedShare(bound * last, last);
    var value := (bound * last + last / 2) / last;
    if value != bound {
      OneApart(bound, value, last);
    }
  }

  /** The first and the last stage have the early and the late bound. */
  lemma EdgeEnds(early: nat, late: nat, last: pos)
    ensures Edge(early, late, 0, last) == early && Edge(early, late, last, last) == late
  {
    WholeShare(early, last);
    WholeShare(late, last);
  }

  ghost predicate DrawnBetween(b: Bounds, field: Field, stage: nat, last: pos, draw: Draw, value: int, lower: int, upper: int) {
    && NearestShare(b.earlyLow, b.lateLow, stage, last, lower) && NearestShare(b.earlyHigh, b.lateHigh, stage, last, upper)
    && value == if lower == upper then lower else draw(field, lower, upper)
  }

  /** One attribute: drawn between its two bounds at the stage, or the bound itself where they meet. */
  ghost predicate SampledIn(ranges: Ranges, species: Species, field: Field, stage: nat, last: pos, draw: Draw, value: int) {
    var b := if species in ranges.species then ranges.species[species] else ranges.common;
    exists lower, upper :: DrawnBetween(b, field, stage, last, draw, value, lower, upper)
  }

  lemma OneSampled(ranges: Ranges, species: Species, field: Field, stage: nat, last: pos, draw: Draw)
    requires stage <= last
    ensures SampledIn(ranges, species, field, stage, last, draw, SampleOne(BoundsOf(ranges, species), field, stage, last, draw))
  {
    var b := BoundsOf(ranges, species);
    var lower, upper := Edge(b.earlyLow, b.lateLow, stage, last), Edge(b.earlyHigh, b.lateHigh, stage, last);
    EdgeIsNearest(b.earlyLow, b.lateLow, stage, last);
    EdgeIsNearest(b.earlyHigh, b.lateHigh, stage, last);
    assert DrawnBetween(b, field, stage, last, draw, SampleOne(b, field, stage, last, draw), lower, upper);
  }

  /** The size of a species that may vary: half or double by chance. */
  ghost predicate SizeVaries(chance: nat, draw: Draw, size: int) {
    var roll := draw(SizeVariation, 0, 199);
    if chance == 0 then size == 100
    else if roll < chance then size == 50
    else if roll < chance + chance then size == 200 else size == 100
  }

  /** Every attribute of a sample, from the settings and the draw alone. */
  lemma SampleMeans(s: Settings, species: Species, stage: nat, stageCount: pos, draw: Draw)
    requires stage < stageCount
    ensures var a, last := Sample(s, species, stage, stageCount, draw), if stageCount == 1 then 1 else stageCount - 1;
            && SampledIn(s.health, species, Health, stage, last, draw, a.health)
            && SampledIn(s.damage, species, Damage, stage, last, draw, a.damage)
            && (if species in s.qualified then SampledIn(s.speed, species, Speed, stage, last, draw, a.speed) else a.speed == 100)
            && (if species in s.exclusions then SampledIn(s.size, species, Size, stage, last, draw, a.size)
                else SizeVaries(s.chance, draw, a.size))
  {
    var last := Last(stageCount);
    OneSampled(s.health, species, Health, stage, last, draw);
    OneSampled(s.damage, species, Damage, stage, last, draw);
    OneSampled(s.speed, species, Speed, stage, last, draw);
    OneSampled(s.size, species, Size, stage, last, draw);
  }

  /** How many of the first `n` rolls give the size. */
  ghost function Rolls(chance: nat, size: int, n: nat): nat {
    if n == 0 then 0 else Rolls(chance, size, n - 1) + if VariedSize(n - 1, chance) == size then 1 else 0
  }

  lemma {:induction false} RollsAre(chance: nat, n: nat)
    ensures Rolls(chance, 50, n) == Min(n, chance)
    ensures Rolls(chance, 200, n) == Min(n, 2 * chance) - Min(n, chance)
    ensures Rolls(chance, 100, n) == n - Min(n, 2 * chance)
  {
    if n > 0 { RollsAre(chance, n - 1); }
  }

  /** Of the two hundred rolls, the chance in percent gives half size and as many give double size. */
  lemma VariationShares(chance: nat)
    requires chance <= 100
    ensures Rolls(chance, 50, 200) == chance && Rolls(chance, 200, 200) == chance && Rolls(chance, 100, 200) == 200 - 2 * chance
  {
    RollsAre(chance, 200);
  }

  // ---------------------------------------------------------------- the draw memo

  type Memo = map<(Field, int, int), int>

  ghost predicate Remembers(memo: Memo, draw: Draw) {
    forall k | k in memo :: memo[k] == draw(k.0, k.1, k.2)
  }

  method MemoDraw(memo: Memo, field: Field, lower: int, upper: int, draw: Draw) returns (value: int, after: Memo)
    requires Remembers(memo, draw)
    ensures value == draw(field, lower, upper) && Remembers(after, draw)
  {
    after := memo;
    if (field, lower, upper) !in after {
      after := after[(field, lower, upper) := draw(field, lower, upper)];
    }
    value := after[(field, lower, upper)];
  }

  method MemoOne(b: Bounds, field: Field, stage: nat, last: pos, memo: Memo, draw: Draw) returns (value: int, after: Memo)
    requires stage <= last && Remembers(memo, draw)
    ensures value == SampleOne(b, field, stage, last, draw) && Remembers(after, draw)
  {
    var lower, upper := Edge(b.earlyLow, b.lateLow, stage, last), Edge(b.earlyHigh, b.lateHigh, stage, last);
    if lower == upper {
      return lower, memo;
    }
    value, after := MemoDraw(memo, field, lower, upper, draw);
  }

  /** Sampling through the memo; the speed is drawn even where it is then replaced. */
  method SampleMemo(s: Settings, species: Species, stage: nat, stageCount: pos, memo: Memo, draw: Draw)
    returns (a: Attributes, after: Memo)
    requires stage < stageCount && Remembers(memo, draw)
    ensures a == Sample(s, species, stage, stageCount, draw) && Remembers(after, draw)
  {
    var last := Last(stageCount);
    var health, damage, speed, size;
    health, after := MemoOne(BoundsOf(s.health, species), Health, stage, last, memo, draw);
    damage, after := MemoOne(BoundsOf(s.damage, species), Damage, stage, last, after, draw);
    speed, after := MemoOne(BoundsOf(s.speed, species), Speed, stage, last, after, draw);
    size, after := MemoOne(BoundsOf(s.size, species), Size, stage, last, after, draw);
    if species !in s.qualified {
      speed := 100;
    }
    if species !in s.exclusions {
      var variation := 0;
      if s.chance != 0 {
        variation, after := MemoDraw(after, SizeVariation, 0, 199, draw);
      }
      size := VariedSize(variation, s.chance);
    }
    a := Attributes(health, damage, speed, size);
  }

  // ---------------------------------------------------------------- profiles

  datatype Profile = Profile(health: Bounds, damage: Bounds, speed: Bounds, size: Bounds, qualified: bool, excluded: bool)

  function ProfileOf(s: Settings, species: Species): Profile {
    Profile(BoundsOf(s.health, species), BoundsOf(s.damage, species), BoundsOf(s.speed, species), BoundsOf(s.size, species),
            species in s.qualified, species in s.exclusions)
  }

  /** Species of one profile draw the same attributes at the same spawn. */
  lemma SameProfileSamplesAlike(s: Settings, a: Species, b: Species, stage: nat, stageCount: pos, draw: Draw)
    requires stage < stageCount && ProfileOf(s, a) == ProfileOf(s, b)
    ensures Sample(s, a, stage, stageCount, draw) == Sample(s, b, stage, stageCount, draw)
  {
    var p := ProfileOf(s, a);
    assert BoundsOf(s.health, a) == p.health == BoundsOf(s.health, b);
    assert BoundsOf(s.damage, a) == p.damage == BoundsOf(s.damage, b);
    assert BoundsOf(s.speed, a) == p.speed == BoundsOf(s.speed, b);
    assert BoundsOf(s.size, a) == p.size == BoundsOf(s.size, b);
    assert (a in s.qualified) == p.qualified == (b in s.qualified);
    assert (a in s.exclusions) == p.excluded == (b in s.exclusions);
  }

  /** Each species is represented by the candidate kept for its profile. */
  ghost predicate Represents(s: Settings, candidates: seq<Species>, groups: map<Profile, Species>, representatives: map<Species, Species>) {
    && (forall c | c in candidates :: c in representatives && ProfileOf(s, c) in groups && representatives[c] == groups[ProfileOf(s, c)])
    && (forall p | p in groups :: groups[p] in candidates && ProfileOf(s, groups[p]) == p)
  }

  function ProfilesOf(s: Settings, candidates: seq<Species>): seq<Profile> {
    seq(|candidates|, i requires 0 <= i < |candidates| => ProfileOf(s, candidates[i]))
  }

  ghost predicate First(profiles: seq<Profile>, i: nat) {
    i < |profiles| && profiles[i] !in profiles[..i]
  }

  /** The candidate kept for a profile is the first one that has it. */
  ghost predicate FirstKept(profiles: seq<Profile>, candidates: seq<Species>, groups: map<Profile, Species>) {
    && |candidates| == |profiles| && groups.Keys == Members(profiles)
    && forall i: nat | First(profiles, i) :: groups[profiles[i]] == candidates[i]
  }

  lemma FirstKeptNext(profiles: seq<Profile>, candidates: seq<Species>, groups: map<Profile, Species>, i: nat)
    requires |candidates| == |profiles| && i < |profiles| && FirstKept(profiles[..i], candidates[..i], groups)
    ensures FirstKept(profiles[..i + 1], candidates[..i + 1], if profiles[i] in groups then groups else groups[profiles[i] := candidates[i]])
  {
    var seen, next := profiles[..i], profiles[..i + 1];
    var more := if profiles[i] in groups then groups else groups[profiles[i] := candidates[i]];
    assert next == seen + [profiles[i]];
    forall j: nat | First(next, j) ensures more[next[j]] == candidates[..i + 1][j] {
      assert next[..j] == seen[..j];
      if j < i {
        assert First(seen, j);
      } else {
        assert profiles[i] !in seen;
      }
    }
  }

  method Representatives(s: Settings, candidates: seq<Species>) returns (groups: map<Profile, Species>, representatives: map<Species, Species>)
    ensures Represents(s, candidates, groups, representatives)
    ensures FirstKept(ProfilesOf(s, candidates), candidates, groups)
  {
    ghost var profiles := ProfilesOf(s, candidates);
    groups, representatives := map[], map[];
    for i := 0 to |candidates|
      invariant Represents(s, candidates[..i], groups, representatives) && FirstKept(profiles[..i], candidates[..i], groups)
    {
      assert candidates[..i + 1] == candidates[..i] + [candidates[i]];
      FirstKeptNext(profiles, candidates, groups, i);
      var p := ProfileOf(s, candidates[i]);
      if p !in groups {
        groups := groups[p := candidates[i]];
      }
      representatives := representatives[candidates[i] := groups[p]];
    }
    assert candidates[..|candidates|] == candidates && profiles[..|candidates|] == profiles;
  }

  // ---------------------------------------------------------------- costs

  predicate Legal(a: Attributes) {
    1 <= a.health <= 10000 && 1 <= a.damage <= 10000 && 1 <= a.speed <= 10000 && 1 <= a.size <= 10000
  }

  /** What a species costs before its attributes count; two support species weigh twelvefold from the
    * revisions that price their effect. */
  function BaseCost(base: Species -> Ratio, revision: nat, species: Species): Ratio {
    if (revision >= 6 && species == "buff_pod") || (revision >= 7 && species == "zombie_t1_screecher")
    then Times(base(species), Ratio(12, 1)) else base(species)
  }

  lemma FactorPositive(a: Attributes)
    requires Legal(a)
    ensures 0 < Max(a.health, 25) * (100 + a.damage) * (300 + a.speed)
    ensures 0 <= Max(a.health, 25) * (100 + a.damage) * (300 + a.speed) * (if a.size >= 100 then 300 + a.size else 3 * a.size + 100)
  {}

  /** The factor the attributes contribute, before reduction. */
  function Factor(a: Attributes): Ratio
    requires Legal(a)
  {
    var size := if a.size >= 100 then (300 + a.size, 400) else (3 * a.size + 100, 4 * a.size);
    FactorPositive(a);
    Ratio(Max(a.health, 25) * (100 + a.damage) * (300 + a.speed) * size.0, 100 * 200 * 400 * size.1)
  }

  /** The exact combat cost of a species with these attributes. */
  function CombatCost(base: Species -> Ratio, revision: nat, species: Species, a: Attributes): Ratio
    requires Legal(a)
  {
    Times(BaseCost(base, revision, species), Factor(a))
  }

  /** What the attributes contribute: the health, never counted below a quarter; half of one and half of the damage; three
    * quarters and a quarter of the speed; the same of the size, or of its inverse for a small one. */
  ghost function AttributeFactor(a: Attributes): real
    requires Legal(a)
  {
    var health := (if a.health < 25 then 25 else a.health) as real / 100.0;
    var damage := 0.5 + 0.5 * (a.damage as real / 100.0);
    var speed := 0.75 + 0.25 * (a.speed as real / 100.0);
    var size := if a.size < 100 then 0.75 + 0.25 * (100.0 / a.size as real) else 0.75 + 0.25 * (a.size as real / 100.0);
    health * damage * speed * size
  }

  /** The cost in full: the base cost, twelvefold for the two support species from the revisions that price them. */
  ghost function ExactCost(base: real, revision: nat, species: Species, a: Attributes): real
    requires Legal(a)
  {
    var times := if (species == "buff_pod" && 6 <= revision) || (species == "zombie_t1_screecher" && 7 <= revision) then 12.0 else 1.0;
    base * times * AttributeFactor(a)
  }

  ghost function Quotient(n: int, d: pos): real {
    n as real / d as real
  }

  lemma QuotientTimes(a: int, b: int, p: pos, q: pos)
    ensures Quotient(a * b, PosProduct(p, q)) == Quotient(a, p) * Quotient(b, q)
  {
    RealProduct(a, b);
    RealProduct(p, q);
    ProductValue(a as real, p as real, b as real, q as real);
  }

  lemma HalfOfOne(damage: int)
    ensures Quotient(100 + damage, 200) == 0.5 + 0.5 * (damage as real / 100.0)
  {}

  lemma QuarterOf(speed: int)
    ensures Quotient(300 + speed, 400) == 0.75 + 0.25 * (speed as real / 100.0)
  {}

  lemma SmallSize(size: pos)
    ensures Quotient(3 * size + 100, 4 * size) == 0.75 + 0.25 * (100.0 / size as real)
  {
    var x, n := 100.0 / size as real, size as real;
    assert x * n == 100.0;
    assert (3 * size + 100) as real == 3.0 * n + 100.0 && (4 * size) as real == 4.0 * n;
    assert (0.75 + 0.25 * x) * (4.0 * n) == 3.0 * n + x * n;
  }

  lemma FourQuotients(health: nat, damage: nat, speed: nat, size: nat, over: pos)
    ensures Quotient(health * damage * speed * size, PosProduct(8000000, over))
            == Quotient(health, 100) * Quotient(damage, 200) * Quotient(speed, 400) * Quotient(size, over)
  {
    QuotientTimes(health, damage, 100, 200);
    QuotientTimes(health * damage, speed, 20000, 400);
    QuotientTimes(health * damage * speed, size, 8000000, over);
  }

  lemma FactorMeans(a: Attributes)
    requires Legal(a)
    ensures Value(Factor(a)) == AttributeFactor(a)
  {
    var health := Max(a.health, 25);
    if a.size >= 100 {
      FourQuotients(health, 100 + a.damage, 300 + a.speed, 300 + a.size, 400);
      QuarterOf(a.size);
    } else {
      FourQuotients(health, 100 + a.damage, 300 + a.speed, 3 * a.size + 100, 4 * a.size);
      SmallSize(a.size);
    }
    HalfOfOne(a.damage);
    QuarterOf(a.speed);
  }

  lemma BaseMeans(base: Species -> Ratio, revision: nat, species: Species)
    ensures Value(BaseCost(base, revision, species)) ==
              Value(base(species)) *
              if (species == "buff_pod" && 6 <= revision) || (species == "zombie_t1_screecher" && 7 <= revision) then 12.0 else 1.0
  {
    TimesValue(base(species), Ratio(12, 1));
  }

  /** The combat cost has exactly this value. */
  lemma CombatCostMeans(base: Species -> Ratio, revision: nat, species: Species, a: Attributes)
    requires Legal(a)
    ensures Value(CombatCost(base, revision, species, a)) == ExactCost(Value(base(species)), revision, species, a)
  {
    FactorMeans(a);
    TimesValue(BaseCost(base, revision, species), Factor(a));
    BaseMeans(base, revision, species);
  }

  /** The unreduced pair by which the balancer compares a species' cost. */
  function ScaledPair(profileCost: Ratio, scale: Ratio): Ratio {
    Ratio(profileCost.num * scale.num, PosProduct(profileCost.den, scale.den))
  }

  lemma PositiveValue(r: Ratio)
    requires 0 < r.num
    ensures 0.0 < Value(r)
  {
    var x := Value(r);
    assert x * r.den as real == r.num as real;
  }

  lemma PositiveBase(base: Species -> Ratio, revision: nat, species: Species)
    requires 0 < base(species).num
    ensures 0 < BaseCost(base, revision, species).num
  {
    var b := base(species);
    if BaseCost(base, revision, species) != b {
      TimesValue(b, Ratio(12, 1));
      var t := Times(b, Ratio(12, 1));
      assert Value(t) == Value(b) * 12.0;
      PositiveValue(b);
    }
  }

  lemma PairValue(cost: Ratio, scale: Ratio)
    ensures Value(ScaledPair(cost, scale)) == Value(cost) * Value(scale)
  {
    ProductValue(cost.num as real, cost.den as real, scale.num as real, scale.den as real);
  }

  lemma Regroup(rep: real, f: real, own: real)
    requires rep > 0.0
    ensures (rep * f) * (own / rep) == own * f
  {
    var x := own / rep;
    assert x * rep == own;
    assert (rep * f) * x == (x * rep) * f;
  }

  lemma PairRegroups(rep: Ratio, f: Ratio, own: Ratio)
    requires 0 < rep.num
    ensures Value(ScaledPair(Times(rep, f), Over(own, rep))) == Value(Times(own, f))
  {
    PairValue(Times(rep, f), Over(own, rep));
    TimesValue(rep, f);
    TimesValue(own, f);
    OverValue(own, rep);
    Regroup(Value(rep), Value(f), Value(own));
  }

  /** The pair computed from the representative has exactly the value of the species' own cost. */
  lemma ScaledPairIsCost(base: Species -> Ratio, revision: nat, species: Species, representative: Species, a: Attributes)
    requires Legal(a) && 0 < BaseCost(base, revision, representative).num
    ensures Value(ScaledPair(CombatCost(base, revision, representative, a),
                             Over(BaseCost(base, revision, species), BaseCost(base, revision, representative))))
            == Value(CombatCost(base, revision, species, a))
  {
    PairRegroups(BaseCost(base, revision, representative), Factor(a), BaseCost(base, revision, species));
  }

  // ---------------------------------------------------------------- one position

  datatype Entry = Entry(attributes: Attributes, cost: Ratio)

  /** What the balancer must know of a species at a position: its own attributes, and its own cost. */
  ghost predicate EntryOk(e: Entry, s: Settings, base: Species -> Ratio, revision: nat, species: Species, stage: nat, stageCount: pos, draw: Draw)
    requires stage < stageCount
  {
    && e.attributes == Sample(s, species, stage, stageCount, draw)
    && Legal(e.attributes)
    && Value(e.cost) == Value(CombatCost(base, revision, species, e.attributes))
  }

  /** All attributes are from 1 to 10000, and the cost is exactly what they make it. */
  ghost predicate PricedExactly(e: Entry, base: Species -> Ratio, revision: nat, species: Species) {
    && 1 <= e.attributes.health <= 10000 && 1 <= e.attributes.damage <= 10000
    && 1 <= e.attributes.speed <= 10000 && 1 <= e.attributes.size <= 10000
    && Value(e.cost) == ExactCost(Value(base(species)), revision, species, e.attributes)
  }

  lemma RepresentativeOf(s: Settings, candidates: seq<Species>, groups: map<Profile, Species>, representatives: map<Species, Species>, c: Species)
    requires Represents(s, candidates, groups, representatives) && c in candidates
    ensures c in representatives && representatives[c] in groups.Values && representatives[c] in candidates
    ensures ProfileOf(s, representatives[c]) == ProfileOf(s, c)
  {
    assert representatives[c] == groups[ProfileOf(s, c)];
  }

  method SampleGroups(s: Settings, candidates: seq<Species>, representatives: map<Species, Species>, groups: map<Profile, Species>,
                      stage: nat, stageCount: pos, draw: Draw) returns (samples: map<Species, Attributes>)
    requires stage < stageCount && Represents(s, candidates, groups, representatives)
    ensures samples.Keys == groups.Values
    ensures forall r | r in samples :: samples[r] == Sample(s, r, stage, stageCount, draw)
  {
    samples := map[];
    var memo: Memo := map[];
    var todo := groups.Values;
    while todo != {}
      invariant todo <= groups.Values && samples.Keys == groups.Values - todo
      invariant Remembers(memo, draw)
      invariant forall r | r in samples :: samples[r] == Sample(s, r, stage, stageCount, draw)
      decreases |todo|
    {
      var r :| r in todo;
      var a;
      a, memo := SampleMemo(s, r, stage, stageCount, memo, draw);
      samples := samples[r := a];
      todo := todo - {r};
    }
  }

  lemma IllegalCandidate(s: Settings, candidates: seq<Species>, groups: map<Profile, Species>, representatives: map<Species, Species>,
                         samples: map<Species, Attributes>, stage: nat, stageCount: pos, draw: Draw)
    requires stage < stageCount && Represents(s, candidates, groups, representatives) && samples.Keys == groups.Values
    requires forall r | r in samples :: samples[r] == Sample(s, r, stage, stageCount, draw)
    requires exists x | x in samples :: !Legal(samples[x])
    ensures exists c | c in candidates :: !Legal(Sample(s, c, stage, stageCount, draw))
  {
    var x :| x in samples && !Legal(samples[x]);
    assert x in groups.Values;
    var p :| p in groups && groups[p] == x;
  }

  ghost predicate EntriesOk(entries: map<Species, Entry>, done: seq<Species>, s: Settings, base: Species -> Ratio, revision: nat,
                            stage: nat, stageCount: pos, draw: Draw)
    requires stage < stageCount
  {
    forall c | c in done :: c in entries && EntryOk(entries[c], s, base, revision, c, stage, stageCount, draw)
  }

  /** A species' entry from the sample of its profile's representative. */
  function SharedEntry(base: Species -> Ratio, revision: nat, c: Species, rep: Species, a: Attributes): Entry
    requires Legal(a) && 0 < BaseCost(base, revision, rep).num
  {
    Entry(a, ScaledPair(CombatCost(base, revision, rep, a), Over(BaseCost(base, revision, c), BaseCost(base, revision, rep))))
  }

  lemma SharedEntryOk(s: Settings, base: Species -> Ratio, revision: nat, c: Species, rep: Species, a: Attributes,
                      stage: nat, stageCount: pos, draw: Draw)
    requires stage < stageCount && ProfileOf(s, c) == ProfileOf(s, rep) && a == Sample(s, rep, stage, stageCount, draw)
    requires Legal(a) && 0 < BaseCost(base, revision, rep).num
    ensures EntryOk(SharedEntry(base, revision, c, rep, a), s, base, revision, c, stage, stageCount, draw)
  {
    SameProfileSamplesAlike(s, c, rep, stage, stageCount, draw);
    ScaledPairIsCost(base, revision, c, rep, a);
  }

  /** One species' entry, from its representative's sample. */
  method AddEntry(entries: map<Species, Entry>, ghost done: seq<Species>, c: Species, rep: Species, a: Attributes, s: Settings,
                  base: Species -> Ratio, revision: nat, stage: nat, stageCount: pos, ghost draw: Draw)
    returns (after: map<Species, Entry>)
    requires stage < stageCount && EntriesOk(entries, done, s, base, revision, stage, stageCount, draw)
    requires ProfileOf(s, c) == ProfileOf(s, rep) && a == Sample(s, rep, stage, stageCount, draw)
    requires Legal(a) && 0 < base(rep).num
    ensures EntriesOk(after, done + [c], s, base, revision, stage, stageCount, draw)
  {
    PositiveBase(base, revision, rep);
    SharedEntryOk(s, base, revision, c, rep, a, stage, stageCount, draw);
    after := entries[c := SharedEntry(base, revision, c, rep, a)];
  }

  method AddEntries(s: Settings, candidates: seq<Species>, representatives: map<Species, Species>, samples: map<Species, Attributes>,
                    base: Species -> Ratio, revision: nat, stage: nat, stageCount: pos, ghost draw: Draw)
    returns (entries: map<Species, Entry>)
    requires stage < stageCount
    requires forall c | c in candidates ::
               && c in representatives && representatives[c] in samples && ProfileOf(s, representatives[c]) == ProfileOf(s, c)
               && 0 < base(representatives[c]).num
    requires forall x | x in samples :: samples[x] == Sample(s, x, stage, stageCount, draw) && Legal(samples[x])
    ensures EntriesOk(entries, candidates, s, base, revision, stage, stageCount, draw)
  {
    entries := map[];
    for i := 0 to |candidates|
      invariant EntriesOk(entries, candidates[..i], s, base, revision, stage, stageCount, draw)
    {
      var c := candidates[i];
      assert candidates[..i + 1] == candidates[..i] + [c];
      entries := AddEntry(entries, candidates[..i], c, representatives[c], samples[representatives[c]], s, base, revision, stage, stageCount, draw);
    }
    assert candidates[..|candidates|] == candidates;
  }

  /** Samples each profile once; every candidate then has the attributes and the cost it would have had on
    * its own. Attributes outside their legal range raise, as they would on their own. */
  method PositionCosts(s: Settings, candidates: seq<Species>, base: Species -> Ratio, revision: nat, stage: nat, stageCount: pos, draw: Draw)
    returns (r: Option<map<Species, Entry>>)
    requires stage < stageCount && forall c | c in candidates :: 0 < base(c).num
    ensures r.None? <==> exists c | c in candidates :: !Legal(Sample(s, c, stage, stageCount, draw))
    ensures r.Some? ==> forall c | c in candidates ::
              c in r.value && PricedExactly(r.value[c], base, revision, c)
    ensures r.Some? ==> forall c | c in candidates ::
              c in r.value && EntryOk(r.value[c], s, base, revision, c, stage, stageCount, draw)
  {
    var groups, representatives := Representatives(s, candidates);
    var samples := SampleGroups(s, candidates, representatives, groups, stage, stageCount, draw);
    if exists x | x in samples :: !Legal(samples[x]) {
      IllegalCandidate(s, candidates, groups, representatives, samples, stage, stageCount, draw);
      return None;
    }
    forall c | c in candidates
      ensures c in representatives && representatives[c] in samples && ProfileOf(s, representatives[c]) == ProfileOf(s, c)
      ensures representatives[c] in candidates
    {
      RepresentativeOf(s, candidates, groups, representatives, c);
    }
    var entries := AddEntries(s, candidates, representatives, samples, base, revision, stage, stageCount, draw);
    forall c | c in candidates ensures c in entries && PricedExactly(entries[c], base, revision, c) {
      assert EntryOk(entries[c], s, base, revision, c, stage, stageCount, draw);
      CombatCostMeans(base, revision, c, entries[c].attributes);
    }
    r := Some(entries);
  }
}
