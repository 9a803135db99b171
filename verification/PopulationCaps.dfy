/** Drawing a balanced phase under its population caps. */
module PopulationCaps {
  import opened Foundations

  type Species = string

  /** 0 fodder, 1 heavy, 2 superheavy, 3 support. */
  type Role = r: int | 0 <= r < 4

  /** What one phase fixes before the first body is drawn. */
  datatype Phase = Phase(
    roles: Species -> Role, ammo: set<Species>,
    groups: seq<real>,            // the share of each role
    superheavyCap: nat, large: bool, mixed: bool, revision: nat)
  {
    ghost predicate Valid() {
      && |groups| == 4 && (forall g | 0 <= g < 4 :: 0.0 <= groups[g])
      && (forall s | s in ammo :: roles(s) == 0)
    }
  }

  /** One position of the roster: what its source may spawn, and whether it must supply ammunition. */
  datatype Position = Position(eligible: seq<Species>, supply: bool)

  datatype Fault = NoAmmunition(position: nat) | NoCompatible(position: nat) | NoRole(position: nat)

  function CountRole(drawn: seq<Species>, roles: Species -> Role, r: Role): nat {
    if drawn == [] then 0
    else CountRole(drawn[..|drawn| - 1], roles, r) + (if roles(drawn[|drawn| - 1]) == r then 1 else 0)
  }

  // ---------------------------------------------------------------- slots

  ghost predicate Shuffled(order: seq<nat>, wanted: set<nat>) {
    Distinct(order) && forall k :: k in order <==> k in wanted
  }

  function Supplies(roster: seq<Position>): set<nat> {
    set k | 0 <= k < |roster| && roster[k].supply
  }

  ghost predicate SetAsideBy(roster: seq<Position>, slots: seq<nat>, quota: nat, ammo: set<nat>, taken: nat) {
    && taken <= |slots| && ammo == Supplies(roster) + Members(slots[..taken])
    && (taken == |slots| || quota <= |ammo|)
  }

  /** Every supply position, then the shuffled ones in turn, stopping as soon as `quota` positions are set aside. */
  ghost predicate SetAside(roster: seq<Position>, slots: seq<nat>, quota: nat, ammo: set<nat>) {
    && |ammo| <= Max(quota, |Supplies(roster)|)
    && exists taken :: SetAsideBy(roster, slots, quota, ammo, taken)
  }

  lemma OneMoreSlot(supplies: set<nat>, slots: seq<nat>, i: nat)
    requires i < |slots|
    ensures var ammo := supplies + Members(slots[..i]);
            ammo + {slots[i]} == supplies + Members(slots[..i + 1]) && |ammo + {slots[i]}| <= |ammo| + 1
  {
    assert slots[..i + 1] == slots[..i] + [slots[i]];
  }

  lemma SlotsSetAside(roster: seq<Position>, slots: seq<nat>, quota: nat, ammo: set<nat>, taken: nat)
    requires taken <= |slots| && ammo == Supplies(roster) + Members(slots[..taken])
    requires (taken == |slots| || quota <= |ammo|) && |ammo| <= Max(quota, |Supplies(roster)|)
    ensures SetAside(roster, slots, quota, ammo)
    ensures forall k | 0 <= k < |roster| && roster[k].supply :: k in ammo
    ensures forall k | k in ammo :: (k < |roster| && roster[k].supply) || k in slots
  {
    assert SetAsideBy(roster, slots, quota, ammo, taken);
  }

  method AmmoSlots(roster: seq<Position>, slots: seq<nat>, quota: nat) returns (ammo: set<nat>)
    ensures SetAside(roster, slots, quota, ammo)
    ensures forall k | 0 <= k < |roster| && roster[k].supply :: k in ammo
    ensures forall k | k in ammo :: (k < |roster| && roster[k].supply) || k in slots
  {
    var supplies := Supplies(roster);
    ammo := supplies;
    var i := 0;
    assert Members(slots[..0]) == {};
    while i < |slots| && |ammo| < quota
      invariant 0 <= i <= |slots| && |ammo| <= Max(quota, |supplies|)
      invariant ammo == supplies + Members(slots[..i])
    {
      OneMoreSlot(supplies, slots, i);
      ammo := ammo + {slots[i]};
      i := i + 1;
    }
    SlotsSetAside(roster, slots, quota, ammo, i);
  }

  /** Positions outside the ammunition slots whose source may spawn a heavy. */
  function HeavyCandidates(roster: seq<Position>, ammo: set<nat>, roles: Species -> Role): set<nat> {
    set k | 0 <= k < |roster| && k !in ammo && exists s | s in roster[k].eligible :: roles(s) == 1
  }

  /** The first `budget` of the shuffled candidates. */
  method HeavySlots(order: seq<nat>, ghost candidates: set<nat>, budget: nat) returns (heavy: set<nat>)
    requires Shuffled(order, candidates)
    ensures heavy <= candidates && |heavy| == Min(budget, |candidates|)
  {
    MembersCount(order);
    assert Members(order) == candidates;
    var taken := order[..Min(budget, |order|)];
    MembersCount(taken);
    heavy := Members(taken);
    assert forall k | k in taken :: k in order;
  }

  // ---------------------------------------------------------------- the draw of one body

  predicate WithinCaps(s: Species, phase: Phase, size: nat, superheavies: nat, supports: nat)
    requires |phase.groups| == 4
  {
    && phase.groups[phase.roles(s)] > 0.0
    && (phase.roles(s) == 2 ==> size >= 4 && superheavies < phase.superheavyCap && (supports == 0 || phase.mixed))
    && (phase.roles(s) == 3 ==> phase.large && supports < 1 && (superheavies == 0 || phase.mixed))
  }

  function Filter(eligible: seq<Species>, keep: Species -> bool): seq<Species> {
    if eligible == [] then []
    else (if keep(eligible[0]) then [eligible[0]] else []) + Filter(eligible[1..], keep)
  }

  lemma {:induction false} FilterMembers(eligible: seq<Species>, keep: Species -> bool)
    ensures forall s :: s in Filter(eligible, keep) <==> s in eligible && keep(s)
  {
    if eligible != [] { FilterMembers(eligible[1..], keep); }
  }

  /** What a body at position `k` must be, given what was drawn before it. */
  ghost predicate PickOk(s: Species, k: nat, roster: seq<Position>, ammo: set<nat>, heavy: set<nat>, phase: Phase,
                         superheavies: nat, supports: nat)
    requires k < |roster| && |phase.groups| == 4
  {
    && s in roster[k].eligible
    && (k in ammo ==> s in phase.ammo)
    && (k !in ammo ==> WithinCaps(s, phase, |roster|, superheavies, supports))
    && (phase.revision >= 11 ==> (phase.roles(s) == 1 <==> k in heavy))
  }

  function Thousandths(share: real): int {
    var x := share * 1000.0;
    var rest := x - x.Floor as real;
    if rest < 0.5 || (rest == 0.5 && x.Floor % 2 == 0) then x.Floor else x.Floor + 1
  }

  /** The whole number of thousandths nearest to a share, a half going to the even one; none at half a thousandth or less. */
  lemma ThousandthsMeans(share: real)
    requires 0.0 <= share
    ensures -0.5 <= Thousandths(share) as real - share * 1000.0 <= 0.5
    ensures Thousandths(share) as real - share * 1000.0 == 0.5 || share * 1000.0 - Thousandths(share) as real == 0.5 ==>
              Thousandths(share) % 2 == 0
    ensures Thousandths(share) > 0 <==> share * 1000.0 > 0.5
  {}

  function RoleWeight(phase: Phase, eligible: seq<Species>, g: Role): nat
    requires |phase.groups| == 4
  {
    if exists s | s in eligible :: phase.roles(s) == g then Max(0, Thousandths(phase.groups[g])) else 0
  }

  /** Walks the role weights until the roll falls into one. */
  method RollRole(weights: seq<nat>, roll: nat) returns (role: Role)
    requires |weights| == 4 && roll < weights[0] + weights[1] + weights[2] + weights[3]
    ensures 0 < weights[role]
    ensures var before := (if role > 0 then weights[0] else 0) + (if role > 1 then weights[1] else 0) + (if role > 2 then weights[2] else 0);
            before <= roll < before + weights[role]
  {
    var left := roll;
    var r := 0;
    while left >= weights[r]
      invariant 0 <= r < 4 && 0 <= left
      invariant left + (if r > 0 then weights[0] else 0) + (if r > 1 then weights[1] else 0) + (if r > 2 then weights[2] else 0) == roll
      decreases 4 - r
    {
      left := left - weights[r];
      r := r + 1;
    }
    role := r;
  }

  /** Why a position gets no body: no species may stand there, or the role weights of all that may round to nothing. */
  ghost predicate Refused(fault: Fault, k: nat, roster: seq<Position>, ammo: set<nat>, heavy: set<nat>, phase: Phase,
                          superheavies: nat, supports: nat)
    requires k < |roster| && |phase.groups| == 4
  {
    && fault.position == k && (fault.NoAmmunition? ==> roster[k].supply) && (fault.NoCompatible? ==> !roster[k].supply)
    && (fault.NoRole? <==> exists s :: PickOk(s, k, roster, ammo, heavy, phase, superheavies, supports))
    && (fault.NoRole? ==>
          && phase.revision >= 11
          && forall s | PickOk(s, k, roster, ammo, heavy, phase, superheavies, supports) :: Thousandths(phase.groups[phase.roles(s)]) <= 0)
  }

  /** What the weighted draws may return: from revision 11 on, also a species whose role has a weight. */
  ghost predicate Drawable(s: Species, k: nat, roster: seq<Position>, ammo: set<nat>, heavy: set<nat>, phase: Phase,
                           superheavies: nat, supports: nat)
    requires k < |roster| && |phase.groups| == 4
  {
    && PickOk(s, k, roster, ammo, heavy, phase, superheavies, supports)
    && (phase.revision >= 11 ==> Thousandths(phase.groups[phase.roles(s)]) > 0)
  }

  /** Rolls a role by the rounded group shares of the roles present, then any species of it. */
  method DrawByRole(fitting: seq<Species>, phase: Phase) returns (r: Option<Species>)
    requires phase.Valid()
    ensures r.Some? ==> r.value in fitting && Thousandths(phase.groups[phase.roles(r.value)]) > 0
    ensures r.None? ==> forall s | s in fitting :: Thousandths(phase.groups[phase.roles(s)]) <= 0
  {
    var weights := [RoleWeight(phase, fitting, 0), RoleWeight(phase, fitting, 1), RoleWeight(phase, fitting, 2), RoleWeight(phase, fitting, 3)];
    var total := weights[0] + weights[1] + weights[2] + weights[3];
    if total == 0 {
      assert forall s | s in fitting :: RoleWeight(phase, fitting, phase.roles(s)) == 0;
      return None;
    }
    var roll: nat :| roll < total;
    var role := RollRole(weights, roll);
    assert RoleWeight(phase, fitting, role) > 0;
    var s :| s in fitting && phase.roles(s) == role;
    r := Some(s);
  }

  /** The candidates a position keeps after every filter. */
  method Fitting(k: nat, roster: seq<Position>, ammo: set<nat>, heavy: set<nat>, phase: Phase, superheavies: nat, supports: nat)
    returns (fitting: seq<Species>)
    requires k < |roster| && phase.Valid()
    ensures forall s :: s in fitting <==> PickOk(s, k, roster, ammo, heavy, phase, superheavies, supports)
  {
    var eligible := roster[k].eligible;
    var allowed := if k in ammo then (s: Species) => s in phase.ammo
                   else (s: Species) => WithinCaps(s, phase, |roster|, superheavies, supports);
    fitting := Filter(eligible, allowed);
    FilterMembers(eligible, allowed);
    if phase.revision >= 11 {
      var roles := phase.roles;
      var wanted := (s: Species) => roles(s) == 1 <==> k in heavy;
      FilterMembers(fitting, wanted);
      fitting := Filter(fitting, wanted);
    }
  }

  /** Any species the weighted draws may return; a position is refused exactly when there is none. */
  method DrawOne(k: nat, roster: seq<Position>, ammo: set<nat>, heavy: set<nat>, phase: Phase, superheavies: nat, supports: nat)
    returns (r: Result<Species, Fault>)
    requires k < |roster| && phase.Valid()
    ensures r.Ok? ==> Drawable(r.value, k, roster, ammo, heavy, phase, superheavies, supports)
    ensures r.Err? ==> Refused(r.error, k, roster, ammo, heavy, phase, superheavies, supports)
    ensures r.Ok? <==> exists s :: Drawable(s, k, roster, ammo, heavy, phase, superheavies, supports)
  {
    var fitting := Fitting(k, roster, ammo, heavy, phase, superheavies, supports);
    if fitting == [] {
      return Err(if roster[k].supply then NoAmmunition(k) else NoCompatible(k));
    }
    assert fitting[0] in fitting;
    if phase.revision >= 11 {
      var drawn := DrawByRole(fitting, phase);
      if drawn.None? {
        return Err(NoRole(k));
      }
      assert Drawable(drawn.value, k, roster, ammo, heavy, phase, superheavies, supports);
      return Ok(drawn.value);
    }
    var s :| s in fitting;
    assert Drawable(s, k, roster, ammo, heavy, phase, superheavies, supports);
    r := Ok(s);
  }

  // ---------------------------------------------------------------- the whole phase

  /** The caps every draw keeps, after any number of bodies. */
  ghost predicate CapsKept(drawn: seq<Species>, roster: seq<Position>, ammo: set<nat>, heavy: set<nat>, phase: Phase) {
    && |drawn| <= |roster|
    && (forall k | 0 <= k < |drawn| :: drawn[k] in roster[k].eligible)
    && (forall k | 0 <= k < |drawn| && k in ammo :: drawn[k] in phase.ammo)
    && CountRole(drawn, phase.roles, 2) <= phase.superheavyCap
    && CountRole(drawn, phase.roles, 3) <= 1
    && (!phase.mixed ==> CountRole(drawn, phase.roles, 2) == 0 || CountRole(drawn, phase.roles, 3) == 0)
    && (|roster| < 4 ==> CountRole(drawn, phase.roles, 2) == 0)
    && (!phase.large ==> CountRole(drawn, phase.roles, 3) == 0)
    && (phase.revision >= 11 ==> forall k | 0 <= k < |drawn| :: phase.roles(drawn[k]) == 1 <==> k in heavy)
  }

  function Slots(heavy: set<nat>, count: nat): set<nat> {
    set k | k in heavy && k < count
  }

  /** With heavies exactly at the reserved slots, their number is the number of slots. */
  lemma {:induction false} HeaviesAreSlots(drawn: seq<Species>, roles: Species -> Role, heavy: set<nat>)
    requires forall k | 0 <= k < |drawn| :: roles(drawn[k]) == 1 <==> k in heavy
    ensures CountRole(drawn, roles, 1) == |Slots(heavy, |drawn|)|
  {
    if drawn == [] {
      assert Slots(heavy, 0) == {};
    } else {
      var n := |drawn| - 1;
      HeaviesAreSlots(drawn[..n], roles, heavy);
      assert Slots(heavy, n + 1) == Slots(heavy, n) + (if n in heavy then {n} else {});
    }
  }

  lemma CountSnoc(drawn: seq<Species>, s: Species, roles: Species -> Role, r: Role)
    ensures CountRole(drawn + [s], roles, r) == CountRole(drawn, roles, r) + if roles(s) == r then 1 else 0
  {
    assert (drawn + [s])[..|drawn|] == drawn;
  }

  lemma PositionsStep(drawn: seq<Species>, s: Species, roster: seq<Position>, ammo: set<nat>, heavy: set<nat>, phase: Phase)
    requires phase.Valid() && CapsKept(drawn, roster, ammo, heavy, phase) && |drawn| < |roster|
    requires PickOk(s, |drawn|, roster, ammo, heavy, phase, CountRole(drawn, phase.roles, 2), CountRole(drawn, phase.roles, 3))
    ensures var after := drawn + [s];
            && (forall k | 0 <= k < |after| :: after[k] in roster[k].eligible)
            && (forall k | 0 <= k < |after| && k in ammo :: after[k] in phase.ammo)
            && (phase.revision >= 11 ==> forall k | 0 <= k < |after| :: phase.roles(after[k]) == 1 <==> k in heavy)
  {}

  lemma CapsStep(drawn: seq<Species>, s: Species, roster: seq<Position>, ammo: set<nat>, heavy: set<nat>, phase: Phase)
    requires phase.Valid() && CapsKept(drawn, roster, ammo, heavy, phase) && |drawn| < |roster|
    requires PickOk(s, |drawn|, roster, ammo, heavy, phase, CountRole(drawn, phase.roles, 2), CountRole(drawn, phase.roles, 3))
    ensures CapsKept(drawn + [s], roster, ammo, heavy, phase)
    ensures CountRole(drawn + [s], phase.roles, 2) == CountRole(drawn, phase.roles, 2) + if phase.roles(s) == 2 then 1 else 0
    ensures CountRole(drawn + [s], phase.roles, 3) == CountRole(drawn, phase.roles, 3) + if phase.roles(s) == 3 then 1 else 0
  {
    CountSnoc(drawn, s, phase.roles, 2);
    CountSnoc(drawn, s, phase.roles, 3);
    PositionsStep(drawn, s, roster, ammo, heavy, phase);
  }

  /** A species may stand next exactly when every cap is still kept with it and its role has a share of the phase, which
    * ammunition needs not have. */
  lemma AdmittedExactly(drawn: seq<Species>, s: Species, roster: seq<Position>, ammo: set<nat>, heavy: set<nat>, phase: Phase)
    requires phase.Valid() && CapsKept(drawn, roster, ammo, heavy, phase) && |drawn| < |roster|
    ensures PickOk(s, |drawn|, roster, ammo, heavy, phase, CountRole(drawn, phase.roles, 2), CountRole(drawn, phase.roles, 3))
            <==> CapsKept(drawn + [s], roster, ammo, heavy, phase) && (|drawn| !in ammo ==> phase.groups[phase.roles(s)] > 0.0)
  {
    var after := drawn + [s];
    CountSnoc(drawn, s, phase.roles, 2);
    CountSnoc(drawn, s, phase.roles, 3);
    if CapsKept(after, roster, ammo, heavy, phase) {
      assert after[|drawn|] == s;
    }
    if PickOk(s, |drawn|, roster, ammo, heavy, phase, CountRole(drawn, phase.roles, 2), CountRole(drawn, phase.roles, 3)) {
      CapsStep(drawn, s, roster, ammo, heavy, phase);
    }
  }

  /** The positions that hold a role. */
  ghost function Holding(drawn: seq<Species>, roles: Species -> Role, r: Role): set<nat> {
    set k | 0 <= k < |drawn| && roles(drawn[k]) == r
  }

  lemma {:induction false} CountIsHolding(drawn: seq<Species>, roles: Species -> Role, r: Role)
    ensures CountRole(drawn, roles, r) == |Holding(drawn, roles, r)|
  {
    if drawn == [] {
      assert Holding(drawn, roles, r) == {};
    } else {
      var n := |drawn| - 1;
      CountIsHolding(drawn[..n], roles, r);
      assert Holding(drawn, roles, r) == Holding(drawn[..n], roles, r) + (if roles(drawn[n]) == r then {n} else {});
    }
  }

  /** The caps position by position: superheavies up to their cap and only in a roster of four or more; at most one support,
    * and only in a large phase; never both unless mixed; from revision 11 on heavies at the reserved positions only. */
  ghost predicate CapsByPosition(drawn: seq<Species>, roster: seq<Position>, ammo: set<nat>, heavy: set<nat>, phase: Phase) {
    && |drawn| <= |roster|
    && (forall k | 0 <= k < |drawn| :: drawn[k] in roster[k].eligible && (k in ammo ==> drawn[k] in phase.ammo))
    && |set k | 0 <= k < |drawn| && phase.roles(drawn[k]) == 2| <= phase.superheavyCap
    && (forall k | 0 <= k < |drawn| && phase.roles(drawn[k]) == 2 :: |roster| >= 4)
    && (forall k | 0 <= k < |drawn| && phase.roles(drawn[k]) == 3 :: phase.large)
    && (forall j, k | 0 <= j < k < |drawn| :: phase.roles(drawn[j]) != 3 || phase.roles(drawn[k]) != 3)
    && (forall j, k | 0 <= j < |drawn| && 0 <= k < |drawn| && phase.roles(drawn[j]) == 2 && phase.roles(drawn[k]) == 3 :: phase.mixed)
    && (phase.revision >= 11 ==> forall k | 0 <= k < |drawn| :: phase.roles(drawn[k]) == 1 <==> k in heavy)
  }

  lemma NobodyHolds(drawn: seq<Species>, roles: Species -> Role, r: Role)
    ensures CountRole(drawn, roles, r) == 0 <==> forall k | 0 <= k < |drawn| :: roles(drawn[k]) != r
  {
    CountIsHolding(drawn, roles, r);
    if CountRole(drawn, roles, r) == 0 {
      assert forall k | 0 <= k < |drawn| && roles(drawn[k]) == r :: k in Holding(drawn, roles, r);
    } else {
      var k :| k in Holding(drawn, roles, r);
    }
  }

  lemma TwoHold(drawn: seq<Species>, roles: Species -> Role, r: Role, j: nat, k: nat)
    requires j < k < |drawn| && roles(drawn[j]) == r && roles(drawn[k]) == r
    ensures CountRole(drawn, roles, r) >= 2
  {
    CountIsHolding(drawn, roles, r);
    var rest := Holding(drawn, roles, r) - {j};
    assert k in rest;
    assert |Holding(drawn, roles, r)| == |rest| + 1;
  }

  lemma CapsMean(drawn: seq<Species>, roster: seq<Position>, ammo: set<nat>, heavy: set<nat>, phase: Phase)
    requires CapsKept(drawn, roster, ammo, heavy, phase)
    ensures CapsByPosition(drawn, roster, ammo, heavy, phase)
  {
    CountIsHolding(drawn, phase.roles, 2);
    assert Holding(drawn, phase.roles, 2) == set k | 0 <= k < |drawn| && phase.roles(drawn[k]) == 2;
    NobodyHolds(drawn, phase.roles, 2);
    NobodyHolds(drawn, phase.roles, 3);
    forall j, k | 0 <= j < k < |drawn| ensures phase.roles(drawn[j]) != 3 || phase.roles(drawn[k]) != 3 {
      if phase.roles(drawn[j]) == 3 && phase.roles(drawn[k]) == 3 { TwoHold(drawn, phase.roles, 3, j, k); }
    }
  }

  ghost predicate DrawableAfter(s: Species, before: seq<Species>, roster: seq<Position>, ammo: set<nat>, heavy: set<nat>, phase: Phase)
    requires |before| < |roster| && |phase.groups| == 4
  {
    Drawable(s, |before|, roster, ammo, heavy, phase, CountRole(before, phase.roles, 2), CountRole(before, phase.roles, 3))
  }

  /** Every body of `drawn` was one the draws could return after the bodies before it. */
  ghost predicate DrawnInTurn(drawn: seq<Species>, roster: seq<Position>, ammo: set<nat>, heavy: set<nat>, phase: Phase)
    requires |phase.groups| == 4
  {
    && |drawn| <= |roster|
    && forall k | 0 <= k < |drawn| :: DrawableAfter(drawn[k], drawn[..k], roster, ammo, heavy, phase)
  }

  ghost predicate RefusedAfter(fault: Fault, before: seq<Species>, roster: seq<Position>, ammo: set<nat>, heavy: set<nat>, phase: Phase)
    requires |before| < |roster| && |phase.groups| == 4
  {
    Refused(fault, |before|, roster, ammo, heavy, phase, CountRole(before, phase.roles, 2), CountRole(before, phase.roles, 3))
  }

  lemma InTurnStep(drawn: seq<Species>, s: Species, roster: seq<Position>, ammo: set<nat>, heavy: set<nat>, phase: Phase)
    requires |phase.groups| == 4 && DrawnInTurn(drawn, roster, ammo, heavy, phase) && |drawn| < |roster|
    requires DrawableAfter(s, drawn, roster, ammo, heavy, phase)
    ensures DrawnInTurn(drawn + [s], roster, ammo, heavy, phase)
  {
    var after := drawn + [s];
    forall k | 0 <= k < |after| ensures DrawableAfter(after[k], after[..k], roster, ammo, heavy, phase) {
      assert after[..k] == drawn[..k];
      if k == |drawn| { assert drawn[..k] == drawn; }
    }
  }

  lemma DrawnStep(drawn: seq<Species>, s: Species, roster: seq<Position>, ammo: set<nat>, heavy: set<nat>, phase: Phase)
    requires phase.Valid() && |drawn| < |roster| && DrawableAfter(s, drawn, roster, ammo, heavy, phase)
    requires CapsKept(drawn, roster, ammo, heavy, phase) && DrawnInTurn(drawn, roster, ammo, heavy, phase)
    ensures CapsKept(drawn + [s], roster, ammo, heavy, phase) && DrawnInTurn(drawn + [s], roster, ammo, heavy, phase)
    ensures CountRole(drawn + [s], phase.roles, 2) == CountRole(drawn, phase.roles, 2) + if phase.roles(s) == 2 then 1 else 0
    ensures CountRole(drawn + [s], phase.roles, 3) == CountRole(drawn, phase.roles, 3) + if phase.roles(s) == 3 then 1 else 0
  {
    CapsStep(drawn, s, roster, ammo, heavy, phase);
    InTurnStep(drawn, s, roster, ammo, heavy, phase);
  }

  /** The bodies drawn at the positions in turn, until one is refused. */
  method DrawBodies(roster: seq<Position>, ammo: set<nat>, heavy: set<nat>, phase: Phase)
    returns (bodies: seq<Species>, fault: Option<Fault>)
    requires phase.Valid()
    ensures CapsKept(bodies, roster, ammo, heavy, phase) && DrawnInTurn(bodies, roster, ammo, heavy, phase)
    ensures fault.None? ==> |bodies| == |roster|
    ensures fault.Some? ==> |bodies| < |roster| && RefusedAfter(fault.value, bodies, roster, ammo, heavy, phase)
  {
    var superheavies, supports := 0, 0;
    bodies := [];
    for k := 0 to |roster|
      invariant |bodies| == k
      invariant CapsKept(bodies, roster, ammo, heavy, phase) && DrawnInTurn(bodies, roster, ammo, heavy, phase)
      invariant superheavies == CountRole(bodies, phase.roles, 2) && supports == CountRole(bodies, phase.roles, 3)
    {
      var one := DrawOne(k, roster, ammo, heavy, phase, superheavies, supports);
      if one.Err? {
        return bodies, Some(one.error);
      }
      DrawnStep(bodies, one.value, roster, ammo, heavy, phase);
      bodies := bodies + [one.value];
      superheavies := superheavies + if phase.roles(one.value) == 2 then 1 else 0;
      supports := supports + if phase.roles(one.value) == 3 then 1 else 0;
    }
    fault := None;
  }

  /** Up to the budget, positions without ammunition that may have a heavy; fewer only when those are all. */
  ghost predicate HeaviesReserved(roster: seq<Position>, ammo: set<nat>, heavy: set<nat>, budget: nat, roles: Species -> Role) {
    && |heavy| <= budget
    && (forall k | k in heavy :: k < |roster| && k !in ammo && exists s | s in roster[k].eligible :: roles(s) == 1)
    && (|heavy| < budget ==>
          forall k, s | 0 <= k < |roster| && k !in ammo && s in roster[k].eligible && roles(s) == 1 :: k in heavy)
  }

  lemma WholeSet(part: set<nat>, whole: set<nat>)
    requires part <= whole && |part| == |whole|
    ensures part == whole
  {
    assert whole == part + (whole - part);
    assert |whole - part| == 0;
  }

  lemma CandidatesReserved(roster: seq<Position>, ammo: set<nat>, heavy: set<nat>, budget: nat, roles: Species -> Role)
    requires heavy <= HeavyCandidates(roster, ammo, roles) && |heavy| == Min(budget, |HeavyCandidates(roster, ammo, roles)|)
    ensures HeaviesReserved(roster, ammo, heavy, budget, roles)
  {
    if |heavy| < budget {
      WholeSet(heavy, HeavyCandidates(roster, ammo, roles));
    }
  }

  /** A phase is refused only at a position none of whose species can follow the bodies drawn before it. */
  method DrawPhase(roster: seq<Position>, ammoOrder: seq<nat>, ammoQuota: nat, heavyShuffle: set<nat> -> seq<nat>, heavyBudget: nat, phase: Phase)
    returns (r: Result<seq<Species>, Fault>, ammo: set<nat>, heavy: set<nat>, ghost drawn: seq<Species>)
    requires phase.Valid()
    requires forall candidates: set<nat> :: Shuffled(heavyShuffle(candidates), candidates)
    ensures SetAside(roster, ammoOrder, ammoQuota, ammo)
    ensures forall k | 0 <= k < |roster| && roster[k].supply :: k in ammo
    ensures forall k | k in ammo :: (k < |roster| && roster[k].supply) || k in ammoOrder
    ensures heavy <= HeavyCandidates(roster, ammo, phase.roles)
    ensures |heavy| == Min(heavyBudget, |HeavyCandidates(roster, ammo, phase.roles)|)
    ensures HeaviesReserved(roster, ammo, heavy, heavyBudget, phase.roles)
    ensures CapsByPosition(drawn, roster, ammo, heavy, phase)
    ensures CapsKept(drawn, roster, ammo, heavy, phase) && DrawnInTurn(drawn, roster, ammo, heavy, phase)
    ensures r.Ok? ==> r.value == drawn && |drawn| == |roster|
    ensures r.Ok? && phase.revision >= 11 ==> CountRole(drawn, phase.roles, 1) == |heavy|
    ensures r.Err? ==> |drawn| < |roster| && RefusedAfter(r.error, drawn, roster, ammo, heavy, phase)
  {
    ammo := AmmoSlots(roster, ammoOrder, ammoQuota);
    var candidates := HeavyCandidates(roster, ammo, phase.roles);
    heavy := HeavySlots(heavyShuffle(candidates), candidates, heavyBudget);
    var bodies, fault := DrawBodies(roster, ammo, heavy, phase);
    drawn := bodies;
    CandidatesReserved(roster, ammo, heavy, heavyBudget, phase.roles);
    CapsMean(bodies, roster, ammo, heavy, phase);
    if fault.Some? {
      return Err(fault.value), ammo, heavy, drawn;
    }
    if phase.revision >= 11 {
      HeaviesAreSlots(bodies, phase.roles, heavy);
      assert Slots(heavy, |roster|) == heavy;
    }
    r := Ok(bodies);
  }
}
