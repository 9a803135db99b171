/** The renewable pool of an encounter: room for ammunition is made in its budget and in its counts before it is drawn. */
module RenewablePool {
  import opened Foundations
  import opened EmissionAllocation
  import opened SubsetSum
  import opened BodyDraw
  import opened BudgetMoves

  // ---------------------------------------------------------------- bodies that can be ammunition

  predicate CanFeed(eligible: seq<Species>, rules: Rules) {
    exists s | s in eligible :: s in rules.ammo
  }

  /** The sources that may spawn ammunition fodder. */
  function Feeders(sources: seq<Source>, eligible: seq<seq<Species>>, rules: Rules): set<string>
    requires |eligible| == |sources|
  {
    set i | 0 <= i < |sources| && CanFeed(eligible[i], rules) :: sources[i].id
  }

  lemma FeederIs(sources: seq<Source>, eligible: seq<seq<Species>>, rules: Rules, i: nat)
    requires DistinctIds(sources) && |eligible| == |sources| && i < |sources|
    ensures sources[i].id in Feeders(sources, eligible, rules) <==> CanFeed(eligible[i], rules)
  {
    if sources[i].id in Feeders(sources, eligible, rules) {
      var j :| 0 <= j < |sources| && CanFeed(eligible[j], rules) && sources[j].id == sources[i].id;
      assert i == j;
    }
  }

  lemma FeedHasAmmo(eligible: seq<Species>, rules: Rules)
    ensures CanFeed(eligible, rules) <==> HasAmmo(eligible, rules.ammo)
  {
    if s :| s in eligible && s in rules.ammo {
      var i :| 0 <= i < |eligible| && eligible[i] == s;
    }
    if i :| 0 <= i < |eligible| && eligible[i] in rules.ammo {
      assert eligible[i] in eligible;
    }
  }

  /** Nobody can feed exactly when no source may spawn a species that is ammunition. */
  lemma NobodyFeeds(sources: seq<Source>, eligible: seq<seq<Species>>, rules: Rules)
    requires DistinctIds(sources) && |eligible| == |sources|
    ensures Fit(sources, Feeders(sources, eligible, rules), true) == [] <==>
              forall i | 0 <= i < |sources| :: !HasAmmo(eligible[i], rules.ammo)
  {
    var fit := Fit(sources, Feeders(sources, eligible, rules), true);
    FitMembers(sources, Feeders(sources, eligible, rules), true);
    if fit != [] {
      assert fit[0] in fit && fit[0] in sources;
      var i :| 0 <= i < |sources| && sources[i] == fit[0];
      FeederIs(sources, eligible, rules, i);
      FeedHasAmmo(eligible[i], rules);
    }
    forall i | 0 <= i < |sources| && HasAmmo(eligible[i], rules.ammo) ensures fit != [] {
      FeedHasAmmo(eligible[i], rules);
      FeederIs(sources, eligible, rules, i);
      assert sources[i] in fit;
    }
  }

  /** The bodies among the first `k` items that stand at one of the first `n` sources that can feed. */
  function FeedersBefore(made: seq<Item>, k: nat, eligible: seq<seq<Species>>, n: nat, rules: Rules): nat
    requires k <= |made| && n <= |eligible|
  {
    if n == 0 then 0
    else FeedersBefore(made, k, eligible, n - 1, rules) + (if CanFeed(eligible[n - 1], rules) then CountBefore(made, k, n - 1) else 0)
  }

  lemma {:induction false} FeedersNext(made: seq<Item>, k: nat, eligible: seq<seq<Species>>, n: nat, rules: Rules)
    requires k < |made| && n <= |eligible|
    ensures FeedersBefore(made, k + 1, eligible, n, rules)
         == FeedersBefore(made, k, eligible, n, rules)
            + (if made[k].source < n && CanFeed(eligible[made[k].source], rules) then 1 else 0)
  {
    if n > 0 { FeedersNext(made, k, eligible, n - 1, rules); }
  }

  lemma {:induction false} NoFeeders(made: seq<Item>, eligible: seq<seq<Species>>, n: nat, rules: Rules)
    requires n <= |eligible|
    ensures FeedersBefore(made, 0, eligible, n, rules) == 0
  {
    if n > 0 { NoFeeders(made, eligible, n - 1, rules); }
  }

  function Feeding(made: seq<Item>, k: nat, rules: Rules): set<nat>
    requires k <= |made|
  {
    set j | 0 <= j < k && CanSupply(made[j], rules)
  }

  /** Counting the feeding items one by one or source by source comes to the same. */
  lemma {:induction false} FeedingCount(made: seq<Item>, k: nat, eligible: seq<seq<Species>>, rules: Rules)
    requires k <= |made| && forall j | 0 <= j < |made| :: made[j].source < |eligible| && made[j].eligible == eligible[made[j].source]
    ensures |Feeding(made, k, rules)| == FeedersBefore(made, k, eligible, |eligible|, rules)
  {
    if k == 0 {
      assert Feeding(made, 0, rules) == {};
      NoFeeders(made, eligible, |eligible|, rules);
    } else {
      var j := k - 1;
      FeedingCount(made, j, eligible, rules);
      FeedersNext(made, j, eligible, |eligible|, rules);
      assert CanSupply(made[j], rules) <==> CanFeed(eligible[made[j].source], rules);
      assert Feeding(made, k, rules) == Feeding(made, j, rules) + (if CanSupply(made[j], rules) then {j} else {});
    }
  }

  lemma {:induction false} FitSnoc(sources: seq<Source>, s: Source, compatible: set<string>)
    ensures Fit(sources + [s], compatible, true) == Fit(sources, compatible, true) + (if s.id in compatible then [s] else [])
  {
    if sources == [] {
      assert [] + [s] == [s] && [s][1..] == [];
      assert Fit([], compatible, true) == [];
    } else {
      FitSnoc(sources[1..], s, compatible);
      assert (sources + [s])[0] == sources[0] && (sources + [s])[1..] == sources[1..] + [s];
    }
  }

  lemma {:induction false} FeedersAreFit(sources: seq<Source>, counts: Counts, eligible: seq<seq<Species>>, made: seq<Item>, n: nat, rules: Rules)
    requires DistinctIds(sources) && |eligible| == |sources| && n <= |sources|
    requires forall i | 0 <= i < |sources| :: CountBefore(made, |made|, i) == Get(counts, sources[i].id)
    ensures FeedersBefore(made, |made|, eligible, n, rules) == Sum(Fit(sources[..n], Feeders(sources, eligible, rules), true), Bodies(counts))
  {
    if n > 0 {
      var s, compatible := sources[n - 1], Feeders(sources, eligible, rules);
      FeedersAreFit(sources, counts, eligible, made, n - 1, rules);
      FeederIs(sources, eligible, rules, n - 1);
      assert sources[..n] == sources[..n - 1] + [s];
      var fit := Fit(sources[..n - 1], compatible, true);
      FitSnoc(sources[..n - 1], s, compatible);
      if s.id in compatible {
        SumSnoc(fit, s, Bodies(counts));
      } else {
        assert fit + [] == fit;
      }
    }
  }

  // ---------------------------------------------------------------- bodies of weight one

  /** A renewable body stands for itself. */
  lemma UnitWeights(made: seq<Item>, sizes: seq<nat>, k: nat)
    requires ItemsOk(made, sizes, sizes) && k < |made|
    ensures made[k].weight == 1
  {
    var i := made[k].source;
    assert ItemOk(made, k, sizes, sizes);
    CountBeforeGrows(made, k + 1, |made|, i);
    var n := sizes[i];
    assert n / n == 1 && n % n == 0;
  }

  lemma {:induction false} UnitWeight(weights: seq<nat>, chosen: set<nat>)
    requires forall i | i in chosen :: i < |weights| && weights[i] == 1
    ensures Weight(weights, chosen) == |chosen|
  {
    if chosen != {} {
      var x :| x in chosen;
      WeightSplit(weights, chosen, x);
      UnitWeight(weights, chosen - {x});
    }
  }

  lemma {:induction false} SomeOf(s: set<nat>, n: nat) returns (t: set<nat>)
    requires n <= |s|
    ensures t <= s && |t| == n
  {
    if n == |s| {
      t := s;
    } else {
      var x :| x in s;
      t := SomeOf(s - {x}, n);
    }
  }

  lemma SubsetIsSmaller(t: set<nat>, s: set<nat>)
    requires t <= s
    ensures |t| <= |s|
  {
    assert s == t + (s - t);
  }

  lemma SameTotals(sources: seq<Source>, counts: Counts)
    ensures Totals(sources, counts, true) == Sizes(sources, counts)
  {}

  lemma FeedingWeight(made: seq<Item>, sizes: seq<nat>, chosen: set<nat>)
    requires ItemsOk(made, sizes, sizes) && forall k | k in chosen :: k < |made|
    ensures Weight(Weights(made), chosen) == |chosen|
  {
    forall k | k in chosen ensures k < |made| && Weights(made)[k] == 1 {
      UnitWeights(made, sizes, k);
    }
    UnitWeight(Weights(made), chosen);
  }

  /** In a renewable draw the ammunition can be set aside if and only if the sources that can feed have enough bodies. */
  lemma ReachableWhenFed(sources: seq<Source>, counts: Counts, eligible: seq<seq<Species>>, made: seq<Item>, required: nat, rules: Rules)
    requires DistinctIds(sources) && |eligible| == |sources|
    requires Made(made, eligible, Totals(sources, counts, true), Sizes(sources, counts))
    ensures Reachable(made, required, rules) <==> required <= Sum(Fit(sources, Feeders(sources, eligible, rules), true), Bodies(counts))
  {
    var sizes, all := Sizes(sources, counts), Feeding(made, |made|, rules);
    SameTotals(sources, counts);
    assert forall i | 0 <= i < |sources| :: CountBefore(made, |made|, i) == sizes[i] == Get(counts, sources[i].id);
    FeedingCount(made, |made|, eligible, rules);
    FeedersAreFit(sources, counts, eligible, made, |sources|, rules);
    assert sources[..|sources|] == sources;
    if required <= |all| {
      var some := SomeOf(all, required);
      FeedingWeight(made, sizes, some);
      assert Positions(made, some, rules);
    }
    if Reachable(made, required, rules) {
      var exact: set<nat> :| Positions(made, exact, rules) && Weight(Weights(made), exact) == required;
      FeedingWeight(made, sizes, exact);
      SubsetIsSmaller(exact, all);
    }
  }

  // ---------------------------------------------------------------- the pool

  datatype PoolFault = BudgetTooSmall | NoFeeder | DrawFailed(fault: Fault)

  lemma {:induction false} SizesAreBodies(sources: seq<Source>, counts: Counts)
    ensures SumNat(Sizes(sources, counts)) == Sum(sources, Bodies(counts))
  {
    if sources != [] {
      var n := |sources| - 1;
      SizesAreBodies(sources[..n], counts);
      assert Sizes(sources, counts)[..n] == Sizes(sources[..n], counts);
      assert sources[..n + 1] == sources;
      SumTake(sources, n, Bodies(counts));
    }
  }

  /** The drawn bodies are as many as the counts say. */
  lemma PoolConserves(d: Drawn, sources: seq<Source>, counts: Counts, eligible: seq<seq<Species>>, rules: Rules)
    requires DrawOk(d, sources, counts, eligible, true, rules)
    ensures TallyTotal(d.actual) == Sum(sources, Bodies(counts))
  {
    SameTotals(sources, counts);
    FullRosters(d.rosters, Totals(sources, counts, true), Sizes(sources, counts));
    SizesAreBodies(sources, counts);
  }

  /** The pool is apportioned, and then bodies are moved to sources that can feed. */
  ghost predicate PoolCounts(sources: seq<Source>, counts: Counts, target: nat, required: nat, compatible: set<string>, supplies: set<string>) {
    exists shares: Counts ::
      && (sources != [] ==> 0 < Sum(sources, Logical) && Apportioned(sources, shares, target, Sum(sources, Logical)))
      && Reserved(sources, shares, counts, required, compatible, supplies)
  }

  method ReservePool(sources: seq<Source>, target: nat, required: nat, compatible: set<string>, supplies: set<string>)
    returns (counts: Option<Counts>)
    requires DistinctIds(sources)
    ensures counts.None? <==> required > 0 && (Fit(sources, compatible, true) == [] || sources == [] || required > target)
    ensures counts.Some? ==> PoolCounts(sources, counts.value, target, required, compatible, supplies)
    ensures counts.Some? ==> Sum(sources, Bodies(counts.value)) == (if sources == [] then 0 else target)
    ensures counts.Some? ==> required <= Sum(Fit(sources, compatible, true), Bodies(counts.value))
  {
    var shares := AllocatePoolCounts(sources, target);
    counts := ReserveAmmoCounts(sources, shares, required, compatible, supplies);
  }

  /** With enough bodies at sources that can feed, the draw fails exactly when a source with bodies has no species. */
  method DrawPool(sources: seq<Source>, counts: Counts, budget: Tally, names: seq<Category>, eligible: seq<seq<Species>>,
                  shuffle: nat -> seq<nat>, supplies: set<string>, ammoRequired: nat, rules: Rules)
    returns (r: Result<Drawn, Fault>, ghost made: seq<Item>, ghost stages: seq<seq<Item>>)
    requires DistinctIds(sources) && |eligible| == |sources| && rules.Valid() && forall n: nat :: Shuffled(shuffle(n), n)
    requires Names(names, budget)
    requires ammoRequired <= Sum(Fit(sources, Feeders(sources, eligible, rules), true), Bodies(counts))
    ensures r.Err? <==> Unplaceable(sources, counts, eligible)
    ensures r.Err? ==> r.error.NoCompatibleSpecies?
    ensures r.Ok? ==> DrawOk(r.value, sources, counts, eligible, true, rules) && Selected(made, stages, budget, ammoRequired, rules)
    ensures r.Ok? ==> TallyTotal(r.value.actual) == Sum(sources, Bodies(counts)) && ammoRequired <= At(r.value.actual, FODDER)
  {
    var places := set i | 0 <= i < |sources| && sources[i].id in supplies;
    r, made, stages := DrawBodies(sources, counts, budget, names, eligible, shuffle, places, ammoRequired, true, rules);
    if !Unplaceable(sources, counts, eligible) {
      ReachableWhenFed(sources, counts, eligible, made, ammoRequired, rules);
    }
    if r.Ok? {
      PoolConserves(r.value, sources, counts, eligible, rules);
    }
  }

  /** Bodies of threats have become fodder, surplus first, as far as the requirement asks. */
  ghost predicate Roomy(desired: Tally, native: Tally, threats: seq<string>, budget: Tally, required: nat) {
    && Moved(desired, budget, threats) && At(budget, FODDER) == Max(At(desired, FODDER), required)
    && SurplusFirst(desired, native, budget, threats)
  }

  /** The budget with room for the ammunition among its fodder, and a listing of its categories. */
  method PoolBudget(desired: Tally, native: Tally, threats: seq<string>, names: seq<Category>, required: nat)
    returns (r: Option<Tally>, listed: seq<Category>)
    requires ThreatNames(desired, threats) && (forall k :: 0 <= At(desired, k)) && forall k :: 0 <= At(native, k)
    requires Names(names, desired)
    ensures r.None? <==> At(desired, FODDER) + Sum(threats, Entry(desired)) < required
    ensures r.Some? ==> Roomy(desired, native, threats, r.value, required) && Names(listed, r.value)
  {
    var room, _ := RequireFodder(desired, native, threats, required);
    r := room;
    listed := if FODDER in names then names else names + [FODDER];
  }

  /** Allocates, makes room for the ammunition in budget and counts, and draws. Once the budget and the counts have room,
    * the draw never fails for want of ammunition: it fails exactly when a source with bodies has no species. */
  method PlanPool(sources: seq<Source>, target: nat, desired: Tally, native: Tally, threats: seq<string>, names: seq<Category>,
                  eligible: seq<seq<Species>>, shuffle: nat -> seq<nat>, supplies: set<string>, ammoRequired: nat, rules: Rules)
    returns (r: Result<Drawn, PoolFault>, ghost counts: Counts, ghost budget: Tally, ghost made: seq<Item>, ghost stages: seq<seq<Item>>)
    requires DistinctIds(sources) && |eligible| == |sources| && rules.Valid() && forall n: nat :: Shuffled(shuffle(n), n)
    requires ThreatNames(desired, threats) && (forall k :: 0 <= At(desired, k)) && forall k :: 0 <= At(native, k)
    requires Names(names, desired)
    ensures r == Err(BudgetTooSmall) <==> At(desired, FODDER) + Sum(threats, Entry(desired)) < ammoRequired
    ensures r == Err(NoFeeder) <==>
              && 0 < ammoRequired <= At(desired, FODDER) + Sum(threats, Entry(desired))
              && (Fit(sources, Feeders(sources, eligible, rules), true) == [] || target < ammoRequired)
    ensures r.Ok? || r.error.DrawFailed? ==>
              PoolCounts(sources, counts, target, ammoRequired, Feeders(sources, eligible, rules), supplies)
    ensures r.Err? && r.error.DrawFailed? ==> r.error.fault.NoCompatibleSpecies? && Unplaceable(sources, counts, eligible)
    ensures r.Ok? ==> !Unplaceable(sources, counts, eligible) && DrawOk(r.value, sources, counts, eligible, true, rules)
    ensures r.Ok? ==> Roomy(desired, native, threats, budget, ammoRequired) && Selected(made, stages, budget, ammoRequired, rules)
    ensures r.Ok? ==> TallyTotal(r.value.actual) == (if sources == [] then 0 else target)
    ensures r.Ok? ==> ammoRequired <= At(r.value.actual, FODDER)
  {
    counts, budget, made, stages := map[], map[], [], [];
    var room, listed := PoolBudget(desired, native, threats, names, ammoRequired);
    if room.None? {
      return Err(BudgetTooSmall), counts, budget, made, stages;
    }
    var reserved := ReservePool(sources, target, ammoRequired, Feeders(sources, eligible, rules), supplies);
    if reserved.None? {
      return Err(NoFeeder), counts, budget, made, stages;
    }
    counts, budget := reserved.value, room.value;
    var drawn;
    drawn, made, stages := DrawPool(sources, reserved.value, room.value, listed, eligible, shuffle, supplies, ammoRequired, rules);
    r := if drawn.Ok? then Ok(drawn.value) else Err(DrawFailed(drawn.error));
  }
}
