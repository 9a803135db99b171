/** Freezing a source's bodies into a recipe whose credits balance exactly. */
module NativeRecipes {
  import opened Foundations
  import opened EmissionAllocation
  import opened BodyDraw

  const INT_MAX := 0x7fff_ffff

  datatype Recipe = Recipe(logicalCount: pos, physicalCount: nat, maximumEmissions: nat, finalCredit: nat, tails: set<nat>)

  /** The quantity checks a recipe must pass before it is written into the library. */
  predicate MetadataAccepts(r: Recipe) {
    && r.logicalCount <= INT_MAX && r.physicalCount <= INT_MAX && r.maximumEmissions <= INT_MAX && r.finalCredit <= INT_MAX
    && r.finalCredit <= r.logicalCount
    && (r.finalCredit != 0 <==> r.maximumEmissions != 0)
    && (r.physicalCount == 0 ==> r.maximumEmissions == 0)
    && (r.maximumEmissions != 0 ==> ((r.maximumEmissions - 1) * r.logicalCount + r.finalCredit) % r.physicalCount == 0)
  }

  /** The units divide evenly among the bodies. */
  ghost predicate EvenShares(units: int, bodies: nat) {
    exists each: int :: units == each * bodies
  }

  lemma EachIsQuotient(units: int, bodies: pos, each: int)
    requires units == each * bodies
    ensures units % bodies == 0
  {
    var q := units / bodies;
    assert units == bodies * q + units % bodies;
    if each < q { MulMono(each + 1, q, bodies); } else if each > q { MulMono(q + 1, each, bodies); }
  }

  lemma MultipleOf(units: int, bodies: pos)
    ensures units % bodies == 0 <==> EvenShares(units, bodies)
  {
    assert units == (units / bodies) * bodies + units % bodies;
    if EvenShares(units, bodies) {
      var each: int :| units == each * bodies;
      EachIsQuotient(units, bodies, each);
    }
  }

  /** What passes the quantity checks: numbers of 31 bits whose credits, the last one whole or partial but not empty, add up
    * to what each body emits in some original source. */
  lemma MetadataMeans(r: Recipe)
    ensures MetadataAccepts(r) <==>
              && r.logicalCount <= 2147483647 && r.physicalCount <= 2147483647
              && r.maximumEmissions <= 2147483647 && r.finalCredit <= 2147483647
              && (if r.maximumEmissions == 0 then r.finalCredit == 0
                  else 0 < r.finalCredit <= r.logicalCount && 0 < r.physicalCount
                       && EvenShares((r.maximumEmissions - 1) * r.logicalCount + r.finalCredit, r.physicalCount))
  {
    var units: int := (r.maximumEmissions - 1) * r.logicalCount + r.finalCredit;
    if r.physicalCount != 0 {
      MultipleOf(units, r.physicalCount);
    }
  }

  /** The body that round-robin emission reaches at step `k`. */
  function RoundRobin(bodies: pos, k: nat): nat {
    if k == 0 then 0
    else var before := RoundRobin(bodies, k - 1); if before + 1 < bodies then before + 1 else 0
  }

  lemma RemainderIs(n: nat, d: pos, q: nat, r: nat)
    requires n == d * q + r && r < d
    ensures n % d == r
  {
    var p := n / d;
    assert n == d * p + n % d;
    if p < q { MulMono(p + 1, q, d); } else if p > q { MulMono(q + 1, p, d); }
  }

  lemma {:induction false} RoundRobinIsRemainder(bodies: pos, k: nat)
    ensures RoundRobin(bodies, k) == k % bodies
  {
    if k > 0 {
      RoundRobinIsRemainder(bodies, k - 1);
      var q, r := (k - 1) / bodies, (k - 1) % bodies;
      assert k - 1 == bodies * q + r;
      if r + 1 < bodies {
        RemainderIs(k, bodies, q, r + 1);
      } else {
        assert k == bodies * (q + 1) + 0;
        RemainderIs(k, bodies, q + 1, 0);
      }
    }
  }

  /** The credit units the engine books over `emissions` emissions: a whole logical count each, and the
    * final credit for the last. */
  function Booked(emissions: nat, logical: nat, final: nat): nat {
    if emissions == 0 then 0 else if emissions == 1 then final else logical + Booked(emissions - 1, logical, final)
  }

  lemma {:induction false} BookedIs(emissions: nat, logical: nat, final: nat)
    requires 0 < emissions
    ensures Booked(emissions, logical, final) == (emissions - 1) * logical + final
  {
    if emissions > 1 {
      BookedIs(emissions - 1, logical, final);
      assert (emissions - 1) * logical == (emissions - 2) * logical + logical;
    }
  }

  /** Credits balance: what is booked is what the original source would have emitted, body for body. */
  ghost predicate Balanced(r: Recipe, maximum: nat) {
    && Booked(r.maximumEmissions, r.logicalCount, r.finalCredit) == maximum * r.physicalCount
    && (0 < r.maximumEmissions ==> 0 < r.finalCredit <= r.logicalCount)
    && (r.maximumEmissions == 0 ==> r.finalCredit == 0)
  }

  /** The partial credit sits on the body that is emitted last, and only a partial credit needs one. */
  ghost predicate TailPlaced(r: Recipe) {
    && (forall o: nat :: o in r.tails <==>
          && o < r.physicalCount && 0 < r.finalCredit < r.logicalCount
          && 0 < r.maximumEmissions && o == RoundRobin(r.physicalCount, r.maximumEmissions - 1))
  }

  lemma QuotaBalances(logical: pos, maximum: nat, bodies: nat, emissions: nat, final: int)
    requires emissions == (maximum * bodies + logical - 1) / logical
    requires final == if emissions == 0 then 0 else maximum * bodies - (emissions - 1) * logical
    ensures 0 <= final <= logical && (0 < emissions ==> 0 < final)
    ensures (emissions == 0 <==> maximum * bodies == 0)
    ensures Booked(emissions, logical, final) == maximum * bodies
  {
    var n := maximum * bodies;
    CeilDivision(n, logical, emissions);
    CeilDivision(n, logical, 0);
    if 0 < emissions {
      CeilDivision(n, logical, emissions - 1);
      assert n <= emissions * logical && (emissions - 1) * logical < n;
      assert emissions * logical == (emissions - 1) * logical + logical;
      BookedIs(emissions, logical, final);
    }
  }

  datatype Fault = PhysicalRange | EmissionRange

  lemma EmptyQuota(logical: pos, maximum: nat, bodies: nat)
    ensures maximum == 0 ==> Emissions(Source("", logical, maximum), bodies) == 0
  {
    if maximum == 0 { CeilDivision(0, logical, 0); }
  }

  lemma WholeUnits(maximum: nat, bodies: pos, emissions: pos, logical: pos, final: nat)
    requires Booked(emissions, logical, final) == maximum * bodies
    ensures ((emissions - 1) * logical + final) % bodies == 0
  {
    BookedIs(emissions, logical, final);
    RemainderIs(maximum * bodies, bodies, maximum, 0);
  }

  /** A recipe in numbers alone: the credits of all emissions but the last are whole, the last one is what is left of the
    * quota, and it is marked on the body it falls on if it is partial. */
  ghost predicate FrozenExactly(r: Recipe, logical: nat, maximum: nat, bodies: nat) {
    if maximum * bodies == 0 then r.maximumEmissions == 0 && r.finalCredit == 0 && r.tails == {}
    else
      && 0 < r.maximumEmissions && 0 < bodies && 0 < r.finalCredit <= logical
      && (r.maximumEmissions - 1) * logical + r.finalCredit == maximum * bodies
      && r.tails == if r.finalCredit < logical then {(r.maximumEmissions - 1) % bodies} else {}
  }

  lemma PositiveQuota(full: nat, logical: nat, final: nat, quota: nat)
    requires full * logical + final == quota && 0 < final
    ensures 0 < quota
  {}

  lemma BalancedExactly(r: Recipe, logical: pos, maximum: nat, bodies: nat)
    requires r.logicalCount == logical && r.physicalCount == bodies && Balanced(r, maximum) && TailPlaced(r)
    ensures FrozenExactly(r, logical, maximum, bodies)
  {
    if r.maximumEmissions == 0 {
      assert r.tails == {};
    } else {
      BookedIs(r.maximumEmissions, logical, r.finalCredit);
      PositiveQuota(r.maximumEmissions - 1, logical, r.finalCredit, maximum * bodies);
      assert bodies > 0;
      RoundRobinIsRemainder(bodies, r.maximumEmissions - 1);
      assert r.tails == if r.finalCredit < logical then {(r.maximumEmissions - 1) % bodies} else {};
    }
  }

  method Freeze(logical: pos, maximum: nat, bodies: nat) returns (r: Result<Recipe, Fault>)
    requires logical <= INT_MAX
    ensures r.Ok? <==> bodies <= 2147483647 && Emissions(Source("", logical, maximum), bodies) <= 2147483647
    ensures r.Ok? ==> FrozenExactly(r.value, logical, maximum, bodies)
    ensures r.Ok? ==>
              && r.value.logicalCount == logical && r.value.physicalCount == bodies
              && r.value.maximumEmissions == Emissions(Source("", logical, maximum), bodies)
              && Balanced(r.value, maximum) && TailPlaced(r.value) && MetadataAccepts(r.value)
  {
    if bodies > INT_MAX {
      return Err(PhysicalRange);
    }
    var emissions := if maximum != 0 then (maximum * bodies + logical - 1) / logical else 0;
    EmptyQuota(logical, maximum, bodies);
    if emissions > INT_MAX {
      return Err(EmissionRange);
    }
    var final := if emissions != 0 then maximum * bodies - (emissions - 1) * logical else 0;
    QuotaBalances(logical, maximum, bodies, emissions, final);
    var tails: set<nat> := {};
    for o := 0 to bodies
      invariant forall k :: k in tails <==> k < o && 0 < final < logical && k == (emissions - 1) % bodies
    {
      if 0 < final < logical && o == (emissions - 1) % bodies {
        tails := tails + {o};
      }
    }
    var recipe := Recipe(logical, bodies, emissions, final, tails);
    if 0 < emissions {
      assert bodies > 0;
      RoundRobinIsRemainder(bodies, emissions - 1);
      WholeUnits(maximum, bodies, emissions, logical, final);
    }
    BalancedExactly(recipe, logical, maximum, bodies);
    r := Ok(recipe);
  }

  // ---------------------------------------------------------------- a whole encounter

  function MaximumEmissions(recipes: seq<Recipe>): nat {
    if recipes == [] then 0 else MaximumEmissions(recipes[..|recipes| - 1]) + recipes[|recipes| - 1].maximumEmissions
  }

  /** One recipe per source, frozen from the bodies drawn for it. */
  ghost predicate FrozenFrom(recipes: seq<Recipe>, sources: seq<Source>, rosters: seq<seq<Species>>) {
    && |recipes| == |sources| == |rosters|
    && forall i | 0 <= i < |sources| ::
         && recipes[i].logicalCount == sources[i].logicalCount && recipes[i].physicalCount == |rosters[i]|
         && recipes[i].maximumEmissions == Emissions(sources[i], |rosters[i]|)
         && Balanced(recipes[i], sources[i].maximumEmissions) && TailPlaced(recipes[i]) && MetadataAccepts(recipes[i])
         && FrozenExactly(recipes[i], sources[i].logicalCount, sources[i].maximumEmissions, |rosters[i]|)
  }

  lemma {:induction false} TotalsAreEmitted(sources: seq<Source>, counts: Counts)
    ensures SumNat(Totals(sources, counts, false)) == Sum(sources, Emitted(counts))
  {
    if sources != [] {
      var n := |sources| - 1;
      TotalsAreEmitted(sources[..n], counts);
      assert Totals(sources, counts, false)[..n] == Totals(sources[..n], counts, false);
      assert sources[..n + 1] == sources;
      SumTake(sources, n, Emitted(counts));
    }
  }

  lemma {:induction false} RecipesEmitTotals(recipes: seq<Recipe>, totals: seq<nat>)
    requires |recipes| == |totals| && forall i | 0 <= i < |recipes| :: recipes[i].maximumEmissions == totals[i]
    ensures MaximumEmissions(recipes) == SumNat(totals)
  {
    if recipes != [] { RecipesEmitTotals(recipes[..|recipes| - 1], totals[..|totals| - 1]); }
  }

  /** The drawn bodies stand for exactly the emissions that were allocated. */
  lemma DrawConserves(d: Drawn, sources: seq<Source>, counts: Counts, eligible: seq<seq<Species>>, rules: Rules)
    requires DrawOk(d, sources, counts, eligible, false, rules)
    ensures TallyTotal(d.actual) == Sum(sources, Emitted(counts))
    ensures RosterTotals(sources, d.rosters, false) == Totals(sources, counts, false)
    ensures RosterSizes(d.rosters) == Sizes(sources, counts)
  {
    var totals, sizes := Totals(sources, counts, false), Sizes(sources, counts);
    forall i | 0 <= i < |sources| && sizes[i] == 0 ensures totals[i] == 0 {
      EmissionsZero(sources[i]);
    }
    FullRosters(d.rosters, totals, sizes);
    TotalsAreEmitted(sources, counts);
    assert RosterTotals(sources, d.rosters, false) == totals;
    assert RosterSizes(d.rosters) == sizes;
  }

  datatype EncounterFault = DrawFailed(fault: BodyDraw.Fault) | FreezeFailed(recipe: Fault)
  datatype Encounter = Encounter(counts: Counts, reported: nat, drawn: Drawn, costs: Tally, recipes: seq<Recipe>)

  predicate Fits(s: Source, bodies: nat) {
    bodies <= INT_MAX && Emissions(s, bodies) <= INT_MAX
  }

  /** Every count and every emission total fits the integer a recipe stores. */
  predicate Storable(sources: seq<Source>, sizes: seq<nat>)
    requires |sizes| == |sources|
  {
    forall i | 0 <= i < |sources| :: Fits(sources[i], sizes[i])
  }

  lemma FitsOf(s: Source, bodies: nat)
    ensures Emissions(Source("", s.logicalCount, s.maximumEmissions), bodies) == Emissions(s, bodies)
  {}

  method FreezeAll(sources: seq<Source>, rosters: seq<seq<Species>>) returns (r: Result<seq<Recipe>, Fault>)
    requires |rosters| == |sources| && forall s | s in sources :: s.logicalCount <= INT_MAX
    ensures r.Ok? ==> FrozenFrom(r.value, sources, rosters)
    ensures r.Ok? <==> Storable(sources, RosterSizes(rosters))
  {
    var recipes: seq<Recipe> := [];
    for i := 0 to |sources|
      invariant FrozenFrom(recipes, sources[..i], rosters[..i])
      invariant forall j | 0 <= j < i :: Fits(sources[j], |rosters[j]|)
    {
      assert sources[i] in sources;
      FitsOf(sources[i], |rosters[i]|);
      var recipe := Freeze(sources[i].logicalCount, sources[i].maximumEmissions, |rosters[i]|);
      if recipe.Err? {
        return Err(recipe.error);
      }
      assert sources[..i + 1] == sources[..i] + [sources[i]] && rosters[..i + 1] == rosters[..i] + [rosters[i]];
      recipes := recipes + [recipe.value];
    }
    assert sources[..|sources|] == sources && rosters[..|rosters|] == rosters;
    r := Ok(recipes);
  }

  /** The draw, the recount and the recipes all account for the emissions that were allocated. */
  ghost predicate Accounts(e: Encounter, sources: seq<Source>, eligible: seq<seq<Species>>, rules: Rules) {
    && |eligible| == |sources| && |e.drawn.rosters| == |sources|
    && DrawOk(e.drawn, sources, e.counts, eligible, false, rules)
    && TallyTotal(e.drawn.actual) == Sum(sources, Emitted(e.counts)) == MaximumEmissions(e.recipes)
    && (forall c :: At(e.costs, c) == At(e.drawn.spent, c))
    && FrozenFrom(e.recipes, sources, e.drawn.rosters)
  }

  /** Recounts a draw and freezes it. It fails exactly when a number outgrows what a recipe can hold. */
  method Account(sources: seq<Source>, counts: Counts, reported: nat, d: Drawn, ghost eligible: seq<seq<Species>>, rules: Rules)
    returns (r: Result<Encounter, EncounterFault>)
    requires |eligible| == |sources| && DrawOk(d, sources, counts, eligible, false, rules)
    requires forall s | s in sources :: s.logicalCount <= INT_MAX
    ensures r.Ok? ==> Accounts(r.value, sources, eligible, rules) && r.value.counts == counts && r.value.reported == reported && r.value.drawn == d
    ensures r.Ok? <==> Storable(sources, Sizes(sources, counts))
    ensures r.Err? ==> r.error.FreezeFailed?
  {
    DrawConserves(d, sources, counts, eligible, rules);
    var costs := BodyCosts(sources, d.rosters, false, rules);
    var recipes := FreezeAll(sources, d.rosters);
    if recipes.Err? {
      return Err(FreezeFailed(recipes.error));
    }
    RecipesEmitTotals(recipes.value, Totals(sources, counts, false));
    TotalsAreEmitted(sources, counts);
    r := Ok(Encounter(counts, reported, d, costs, recipes.value));
  }

  /** Draws the bodies of an allocation. */
  method DrawFinite(sources: seq<Source>, counts: Counts, budget: Tally, names: seq<Category>, eligible: seq<seq<Species>>,
                    shuffle: nat -> seq<nat>, supplies: set<nat>, ammoRequired: nat, rules: Rules)
    returns (r: Result<Drawn, BodyDraw.Fault>, ghost made: seq<Item>)
    requires |eligible| == |sources| && rules.Valid() && forall n: nat :: Shuffled(shuffle(n), n)
    requires BodyDraw.Names(names, budget)
    ensures r.Ok? ==> DrawOk(r.value, sources, counts, eligible, false, rules) && ammoRequired <= At(r.value.actual, FODDER)
    ensures r.Err? && r.error.NoCompatibleSpecies? <==> Unplaceable(sources, counts, eligible)
    ensures !Unplaceable(sources, counts, eligible) ==>
              && Made(made, eligible, Totals(sources, counts, false), Sizes(sources, counts))
              && (r.Ok? <==> ammoRequired == 0 || BodyDraw.Reachable(made, ammoRequired, rules))
  {
    ghost var stages;
    r, made, stages := DrawBodies(sources, counts, budget, names, eligible, shuffle, supplies, ammoRequired, false, rules);
  }

  /** When an encounter can be planned: every source with bodies has a species, the ammunition can be set aside from the
    * items made of the allocation, and every number fits a recipe. */
  ghost predicate Plannable(sources: seq<Source>, counts: Counts, eligible: seq<seq<Species>>, made: seq<Item>, ammoRequired: nat, rules: Rules)
    requires |eligible| == |sources|
  {
    && !Unplaceable(sources, counts, eligible)
    && (ammoRequired == 0 || BodyDraw.Reachable(made, ammoRequired, rules))
    && Storable(sources, Sizes(sources, counts))
  }

  /** From an emission target to frozen recipes. The allocation is the optimal one; with a single-emission source among
    * the finite ones, or whenever the target is attainable at all, the allocation, the draw and the recipes all account
    * for exactly the target. */
  method PlanEncounter(sources: seq<Source>, target: nat, budget: Tally, names: seq<Category>, eligible: seq<seq<Species>>,
                       shuffle: nat -> seq<nat>, supplies: set<nat>, ammoRequired: nat, rules: Rules)
    returns (r: Result<Encounter, EncounterFault>, ghost counts: Counts, ghost reported: nat, ghost made: seq<Item>)
    requires DistinctIds(sources) && forall s | s in sources :: s.logicalCount <= INT_MAX
    requires !HasSingle(sources) ==> forall s | s in sources :: 0 < s.maximumEmissions
    requires |eligible| == |sources| && rules.Valid() && forall n: nat :: Shuffled(shuffle(n), n)
    requires BodyDraw.Names(names, budget)
    ensures Allocated(sources, counts, reported, target)
    ensures !Unplaceable(sources, counts, eligible) ==> Made(made, eligible, Totals(sources, counts, false), Sizes(sources, counts))
    ensures r.Ok? <==> Plannable(sources, counts, eligible, made, ammoRequired, rules)
    ensures r.Ok? ==> Accounts(r.value, sources, eligible, rules) && r.value.counts == counts && r.value.reported == reported
    ensures r.Ok? ==> ammoRequired <= At(r.value.drawn.actual, FODDER)
    ensures r.Ok? && sources != [] ==> TallyTotal(r.value.drawn.actual) == reported
  {
    var allocation, emitted := AllocateCounts(sources, target);
    counts, reported := allocation, emitted;
    var drawn;
    drawn, made := DrawFinite(sources, allocation, budget, names, eligible, shuffle, supplies, ammoRequired, rules);
    if drawn.Err? {
      return Err(DrawFailed(drawn.error)), counts, reported, made;
    }
    r := Account(sources, allocation, emitted, drawn.value, eligible, rules);
  }

  ghost function EmissionsOf(recipes: seq<Recipe>): seq<int> {
    seq(|recipes|, i requires 0 <= i < |recipes| => recipes[i].maximumEmissions)
  }

  lemma {:induction false} RecipesAdded(recipes: seq<Recipe>)
    ensures MaximumEmissions(recipes) == Added(EmissionsOf(recipes))
  {
    if recipes != [] {
      var n := |recipes| - 1;
      RecipesAdded(recipes[..n]);
      assert EmissionsOf(recipes)[..n] == EmissionsOf(recipes[..n]);
    }
  }

  /** A planned encounter emits the target exactly when some allocation can, and always with a source that emits at most
    * once per body. */
  lemma PlannedEncounterEmits(e: Encounter, sources: seq<Source>, target: nat, eligible: seq<seq<Species>>, rules: Rules)
    requires sources != [] && Accounts(e, sources, eligible, rules) && Allocated(sources, e.counts, e.reported, target)
    ensures Added(EmissionsOf(e.recipes)) == TallyTotal(e.drawn.actual) == e.reported <= target
    ensures (forall s | s in sources :: s.logicalCount != s.maximumEmissions) ==>
              Added(Maxima(sources)) >= 0 && NearestShares(sources, VectorOf(sources, e.counts), Added(Maxima(sources)), target)
    ensures e.reported == target <==> Attainable(sources, target)
    ensures (exists s | s in sources :: Gradual(s)) ==> e.reported == target
  {
    RecipesAdded(e.recipes);
    AllocationIsNearest(sources, e.counts, e.reported, target);
    EveryTargetAttainable(sources);
    AllocationHitsAttainable(sources, e.counts, e.reported, target);
  }
}
