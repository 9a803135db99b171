/** Drawing the bodies of an encounter against its category budget. */
module BodyDraw {
  import opened Foundations
  import opened SubsetSum
  import opened EmissionAllocation

  type Species = string
  type Category = string

  /** The catalogue facts a draw depends on; costs are in half units. */
  datatype Rules = Rules(category: Species -> Category, cost: Species -> nat, ammo: set<Species>, special: set<Category>) {
    /** Ammunition fodder is fodder. */
    ghost predicate Valid() {
      forall s | s in ammo :: category(s) == FODDER
    }
  }

  /** One body to draw: its source, its place there, the emissions it stands for and what it may be. */
  datatype Item = Item(source: nat, ordinal: nat, weight: nat, eligible: seq<Species>, selected: Option<Category>)

  // ---------------------------------------------------------------- weights

  /** The emissions of body `ordinal` when `count` bodies share `total` emissions round-robin. */
  function BodyWeight(total: nat, count: nat, ordinal: nat): nat {
    if count == 0 then 0 else total / count + (if ordinal < total % count then 1 else 0)
  }

  function FirstWeights(total: nat, count: nat, n: nat): nat {
    if n == 0 then 0 else FirstWeights(total, count, n - 1) + BodyWeight(total, count, n - 1)
  }

  lemma OnceMore(n: nat, q: nat)
    ensures (n + 1) * q == n * q + q
  {}

  lemma {:induction false} FirstWeightsAre(total: nat, count: pos, n: nat)
    requires n <= count
    ensures FirstWeights(total, count, n) == n * (total / count) + Min(n, total % count)
  {
    if n > 0 {
      FirstWeightsAre(total, count, n - 1);
      OnceMore(n - 1, total / count);
    }
  }

  /** The bodies of a source account for all of its emissions. */
  lemma WeightsAddUp(total: nat, count: pos)
    ensures FirstWeights(total, count, count) == total
  {
    FirstWeightsAre(total, count, count);
    assert total == count * (total / count) + total % count;
  }

  function SourceTotal(s: Source, count: nat, renewable: bool): nat {
    if renewable then count else Emissions(s, count)
  }

  // ---------------------------------------------------------------- items

  function CountBefore(items: seq<Item>, k: nat, i: nat): nat
    requires k <= |items|
  {
    if k == 0 then 0 else CountBefore(items, k - 1, i) + (if items[k - 1].source == i then 1 else 0)
  }

  lemma {:induction false} CountBeforeGrows(items: seq<Item>, j: nat, k: nat, i: nat)
    requires j <= k <= |items|
    ensures CountBefore(items, j, i) <= CountBefore(items, k, i)
  {
    if j < k { CountBeforeGrows(items, j, k - 1, i); }
  }

  lemma {:induction false} CountBeforePrefix(items: seq<Item>, more: seq<Item>, k: nat, i: nat)
    requires k <= |items|
    ensures CountBefore(items + more, k, i) == CountBefore(items, k, i)
  {
    if k > 0 { CountBeforePrefix(items, more, k - 1, i); }
  }

  /** Item `k` is the next body of its source, with that body's share of the source's emissions. */
  ghost predicate ItemOk(items: seq<Item>, k: nat, totals: seq<nat>, sizes: seq<nat>)
    requires k < |items| && |totals| == |sizes|
  {
    && items[k].source < |sizes|
    && items[k].ordinal == CountBefore(items, k, items[k].source)
    && items[k].weight == BodyWeight(totals[items[k].source], sizes[items[k].source], items[k].ordinal)
    && items[k].eligible != []
  }

  ghost predicate ItemsOk(items: seq<Item>, totals: seq<nat>, sizes: seq<nat>) {
    && |totals| == |sizes|
    && (forall k | 0 <= k < |items| :: ItemOk(items, k, totals, sizes))
    && (forall i | 0 <= i < |sizes| :: CountBefore(items, |items|, i) == sizes[i])
  }

  /** The same items, possibly selected for a category or narrowed. */
  ghost predicate Narrowed(before: seq<Item>, after: seq<Item>) {
    && |after| == |before|
    && forall k | 0 <= k < |before| ::
         && after[k].source == before[k].source && after[k].ordinal == before[k].ordinal && after[k].weight == before[k].weight
         && after[k].eligible != [] && forall s | s in after[k].eligible :: s in before[k].eligible
  }

  lemma {:induction false} CountSame(before: seq<Item>, after: seq<Item>, k: nat, i: nat)
    requires Narrowed(before, after) && k <= |before|
    ensures CountBefore(after, k, i) == CountBefore(before, k, i)
  {
    if k > 0 { CountSame(before, after, k - 1, i); }
  }

  lemma NarrowedOk(before: seq<Item>, after: seq<Item>, totals: seq<nat>, sizes: seq<nat>)
    requires ItemsOk(before, totals, sizes) && Narrowed(before, after)
    ensures ItemsOk(after, totals, sizes)
  {
    forall k | 0 <= k < |after| ensures ItemOk(after, k, totals, sizes) {
      assert ItemOk(before, k, totals, sizes);
      CountSame(before, after, k, before[k].source);
    }
    forall i | 0 <= i < |sizes| ensures CountBefore(after, |after|, i) == sizes[i] {
      CountSame(before, after, |before|, i);
    }
  }

  lemma ItemsGrow(items: seq<Item>, item: Item, totals: seq<nat>, sizes: seq<nat>)
    requires |totals| == |sizes| && item.source < |sizes| && item.eligible != []
    requires forall k | 0 <= k < |items| :: ItemOk(items, k, totals, sizes)
    requires item.ordinal == CountBefore(items, |items|, item.source)
    requires item.weight == BodyWeight(totals[item.source], sizes[item.source], item.ordinal)
    ensures forall k | 0 <= k <= |items| :: ItemOk(items + [item], k, totals, sizes)
    ensures forall j :: CountBefore(items + [item], |items| + 1, j) == CountBefore(items, |items|, j) + if j == item.source then 1 else 0
  {
    var more := items + [item];
    forall k | 0 <= k <= |items| ensures ItemOk(more, k, totals, sizes) {
      CountBeforePrefix(items, [item], k, more[k].source);
      if k < |items| { assert ItemOk(items, k, totals, sizes); }
    }
    forall j ensures CountBefore(more, |items| + 1, j) == CountBefore(items, |items|, j) + if j == item.source then 1 else 0 {
      CountBeforePrefix(items, [item], |items|, j);
    }
  }

  /** The items of one source, appended after those of the sources before it. */
  method AppendItems(items: seq<Item>, i: nat, count: nat, total: nat, eligible: seq<Species>, ghost totals: seq<nat>, ghost sizes: seq<nat>)
    returns (more: seq<Item>)
    requires |totals| == |sizes| && i < |sizes| && totals[i] == total && sizes[i] == count && eligible != []
    requires forall k | 0 <= k < |items| :: ItemOk(items, k, totals, sizes)
    requires CountBefore(items, |items|, i) == 0
    ensures items <= more && |more| == |items| + count
    ensures forall k | 0 <= k < |more| :: ItemOk(more, k, totals, sizes)
    ensures forall k | |items| <= k < |more| :: more[k].eligible == eligible && more[k].selected.None?
    ensures forall j :: CountBefore(more, |more|, j) == CountBefore(items, |items|, j) + if j == i then count else 0
  {
    more := items;
    for o := 0 to count
      invariant items <= more && |more| == |items| + o
      invariant forall k | 0 <= k < |more| :: ItemOk(more, k, totals, sizes)
      invariant forall k | |items| <= k < |more| :: more[k].eligible == eligible && more[k].selected.None?
      invariant forall j :: CountBefore(more, |more|, j) == CountBefore(items, |items|, j) + if j == i then o else 0
    {
      var item := Item(i, o, BodyWeight(total, count, o), eligible, None);
      ItemsGrow(more, item, totals, sizes);
      more := more + [item];
    }
  }

  function Totals(sources: seq<Source>, counts: Counts, renewable: bool): seq<nat> {
    seq(|sources|, i requires 0 <= i < |sources| => SourceTotal(sources[i], Get(counts, sources[i].id), renewable))
  }

  function Sizes(sources: seq<Source>, counts: Counts): seq<nat> {
    seq(|sources|, i requires 0 <= i < |sources| => Get(counts, sources[i].id))
  }

  lemma OnlySource(before: seq<Item>, after: seq<Item>, i: nat, count: nat, k: nat)
    requires before <= after && |before| <= k < |after|
    requires forall j :: CountBefore(after, |after|, j) == CountBefore(before, |before|, j) + if j == i then count else 0
    ensures after[k].source == i
  {
    var j := after[k].source;
    CountBeforeGrows(after, |before|, k, j);
    CountBeforeGrows(after, k + 1, |after|, j);
    CountBeforePrefix(before, after[|before|..], |before|, j);
    assert after == before + after[|before|..];
  }

  method MakeItems(sources: seq<Source>, counts: Counts, eligible: seq<seq<Species>>, renewable: bool)
    returns (r: Result<seq<Item>, string>)
    requires |eligible| == |sources|
    ensures r.Ok? <==> forall i | 0 <= i < |sources| && 0 < Get(counts, sources[i].id) :: eligible[i] != []
    ensures r.Ok? ==> ItemsOk(r.value, Totals(sources, counts, renewable), Sizes(sources, counts))
    ensures r.Ok? ==> forall k | 0 <= k < |r.value| ::
              r.value[k].source < |sources| && r.value[k].eligible == eligible[r.value[k].source] && r.value[k].selected.None?
  {
    ghost var totals, sizes := Totals(sources, counts, renewable), Sizes(sources, counts);
    var items: seq<Item> := [];
    for i := 0 to |sources|
      invariant forall j | 0 <= j < i && 0 < sizes[j] :: eligible[j] != []
      invariant forall k | 0 <= k < |items| :: ItemOk(items, k, totals, sizes)
      invariant forall k | 0 <= k < |items| :: items[k].source < i && items[k].eligible == eligible[items[k].source] && items[k].selected.None?
      invariant forall j: nat :: CountBefore(items, |items|, j) == if j < i then sizes[j] else 0
    {
      var count := Get(counts, sources[i].id);
      if count != 0 {
        if eligible[i] == [] {
          return Err(sources[i].id);
        }
        var more := AppendItems(items, i, count, SourceTotal(sources[i], count, renewable), eligible[i], totals, sizes);
        ghost var before := items;
        items := more;
        forall k | |before| <= k < |items| ensures items[k].source == i {
          OnlySource(before, items, i, count, k);
        }
      }
    }
    r := Ok(items);
  }

  // ---------------------------------------------------------------- selecting positions

  function Weights(items: seq<Item>): seq<nat> {
    seq(|items|, k requires 0 <= k < |items| => items[k].weight)
  }

  predicate CanBe(item: Item, c: Category, rules: Rules) {
    exists s | s in item.eligible :: rules.category(s) == c
  }

  /** Every selected item can be drawn in its category. */
  ghost predicate Drawable(items: seq<Item>, rules: Rules) {
    forall k | 0 <= k < |items| && items[k].selected.Some? :: CanBe(items[k], items[k].selected.value, rules)
  }

  ghost predicate Shuffled(order: seq<nat>, count: nat) {
    Distinct(order) && (forall i | 0 <= i < |order| :: order[i] < count) && forall k: nat :: k in order <==> k < count
  }

  method Available(items: seq<Item>, order: seq<nat>, c: Category, rules: Rules) returns (available: seq<nat>)
    requires Shuffled(order, |items|)
    ensures Distinct(available)
    ensures forall k: nat :: k in available <==> k < |items| && items[k].selected.None? && CanBe(items[k], c, rules)
  {
    available := [];
    for i := 0 to |order|
      invariant Distinct(available)
      invariant forall k :: k in available <==> k in order[..i] && k < |items| && items[k].selected.None? && CanBe(items[k], c, rules)
    {
      assert order[..i + 1] == order[..i] + [order[i]];
      assert order[i] in order && order[i] !in order[..i];
      if items[order[i]].selected.None? && CanBe(items[order[i]], c, rules) {
        available := available + [order[i]];
      }
    }
    assert order[..|order|] == order;
  }

  /** Marks the chosen items as selected for `c`, with `eligible` narrowed to `keep` where given. */
  method Mark(items: seq<Item>, chosen: seq<nat>, c: Category) returns (marked: seq<Item>)
    requires forall k | k in chosen :: k < |items|
    ensures |marked| == |items|
    ensures forall k | 0 <= k < |items| :: marked[k] == if k in chosen then items[k].(selected := Some(c)) else items[k]
  {
    marked := items;
    for i := 0 to |chosen|
      invariant |marked| == |items|
      invariant forall k | 0 <= k < |items| :: marked[k] == if k in chosen[..i] then items[k].(selected := Some(c)) else items[k]
    {
      assert chosen[i] in chosen;
      assert chosen[..i + 1] == chosen[..i] + [chosen[i]];
      marked := marked[chosen[i] := marked[chosen[i]].(selected := Some(c))];
    }
    assert chosen[..|chosen|] == chosen;
  }

  /** Category `c` takes its turn: of the free items that can be of it, a fullest choice within the budget becomes it. */
  ghost predicate TurnBy(before: seq<Item>, after: seq<Item>, c: Category, budget: int, rules: Rules, available: seq<nat>, chosen: seq<nat>) {
    && |after| == |before|
    && (forall k: nat :: k in available <==> k < |before| && before[k].selected.None? && CanBe(before[k], c, rules))
    && Fullest(Weights(before), budget, available, chosen)
    && forall k | 0 <= k < |before| :: after[k] == if k in chosen then before[k].(selected := Some(c)) else before[k]
  }

  ghost predicate Turn(before: seq<Item>, after: seq<Item>, c: Category, budget: int, rules: Rules) {
    exists available, chosen :: TurnBy(before, after, c, budget, rules, available, chosen)
  }

  /** The weights of the items at the chosen positions. */
  ghost function ItemWeights(items: seq<Item>, chosen: seq<nat>): seq<int>
    requires forall i | 0 <= i < |chosen| :: chosen[i] < |items|
  {
    seq(|chosen|, i requires 0 <= i < |chosen| => items[chosen[i]].weight)
  }

  /** Different positions whose items are not selected yet and have a species of the category. */
  ghost predicate FreeFor(items: seq<Item>, positions: seq<nat>, c: Category, rules: Rules) {
    && (forall i, j | 0 <= i < j < |positions| :: positions[i] != positions[j])
    && forall i | 0 <= i < |positions| ::
         && positions[i] < |items| && items[positions[i]].selected == None
         && exists s | s in items[positions[i]].eligible :: rules.category(s) == c
  }

  /** Free positions become the category's and nothing else changes; they weigh no more than the budget, and no other free
    * positions that fit it weigh more. */
  ghost predicate FilledBy(before: seq<Item>, after: seq<Item>, c: Category, budget: int, rules: Rules, chosen: seq<nat>) {
    && |after| == |before| && FreeFor(before, chosen, c, rules)
    && (forall k | 0 <= k < |before| :: after[k] == if k in chosen then before[k].(selected := Some(c)) else before[k])
    && Added(ItemWeights(before, chosen)) <= (if budget < 0 then 0 else budget)
    && forall other: seq<nat> | FreeFor(before, other, c, rules) && Added(ItemWeights(before, other)) <= budget ::
         Added(ItemWeights(before, other)) <= Added(ItemWeights(before, chosen))
  }

  lemma FreeIsAvailable(items: seq<Item>, positions: seq<nat>, available: seq<nat>, c: Category, rules: Rules)
    requires forall k: nat :: k in available <==> k < |items| && items[k].selected.None? && CanBe(items[k], c, rules)
    ensures FreeFor(items, positions, c, rules) <==> Distinct(positions) && forall k | k in positions :: k in available
  {
    if FreeFor(items, positions, c, rules) {
      forall k | k in positions ensures k in available {
        var i :| 0 <= i < |positions| && positions[i] == k;
      }
    }
    if Distinct(positions) && forall k | k in positions :: k in available {
      forall i | 0 <= i < |positions|
        ensures positions[i] < |items| && items[positions[i]].selected == None && CanBe(items[positions[i]], c, rules)
      {
        assert positions[i] in positions;
      }
    }
  }

  lemma ItemsWeigh(items: seq<Item>, chosen: seq<nat>)
    requires forall i | i in chosen :: i < |items|
    ensures forall i | 0 <= i < |chosen| :: chosen[i] < |items|
    ensures ItemWeights(items, chosen) == WeightsOf(Weights(items), chosen)
  {
    forall i | 0 <= i < |chosen| ensures chosen[i] < |items| {
      assert chosen[i] in chosen;
    }
  }

  lemma TurnMeans(before: seq<Item>, after: seq<Item>, c: Category, budget: int, rules: Rules)
    requires Turn(before, after, c, budget, rules)
    ensures exists chosen :: FilledBy(before, after, c, budget, rules, chosen)
  {
    var available, chosen :| TurnBy(before, after, c, budget, rules, available, chosen);
    FullestMeans(Weights(before), budget, available, chosen);
    FreeIsAvailable(before, chosen, available, c, rules);
    ItemsWeigh(before, chosen);
    forall other: seq<nat> | FreeFor(before, other, c, rules) && Added(ItemWeights(before, other)) <= budget
      ensures Added(ItemWeights(before, other)) <= Added(ItemWeights(before, chosen))
    {
      FreeIsAvailable(before, other, available, c, rules);
      ItemsWeigh(before, other);
    }
    assert FilledBy(before, after, c, budget, rules, chosen);
  }

  ghost predicate Filled(before: seq<Item>, after: seq<Item>, c: Category, budget: int, rules: Rules) {
    exists chosen :: FilledBy(before, after, c, budget, rules, chosen)
  }

  lemma PickedIsFree(items: seq<Item>, budget: int, free: seq<nat>, picked: seq<nat>)
    requires (forall i | i in free :: i < |items|) && Fullest(Weights(items), budget, free, picked)
    ensures forall k | k in picked :: k in free && k < |items|
  {
    assert forall k | k in picked :: k in Members(picked);
  }

  lemma TurnTaken(items: seq<Item>, selected: seq<Item>, c: Category, budget: int, rules: Rules, free: seq<nat>, picked: seq<nat>)
    requires TurnBy(items, selected, c, budget, rules, free, picked) && Drawable(items, rules)
    requires forall k | 0 <= k < |items| :: items[k].eligible != []
    ensures Narrowed(items, selected) && Drawable(selected, rules) && Turn(items, selected, c, budget, rules)
    ensures forall k | 0 <= k < |items| && items[k].selected.Some? :: selected[k] == items[k]
  {
    PickedIsFree(items, budget, free, picked);
    assert forall k | 0 <= k < |items| && k in picked :: k in free;
  }

  /** Gives category `c` the positions that fill its budget best. */
  method SelectCategory(items: seq<Item>, order: seq<nat>, c: Category, budget: int, rules: Rules)
    returns (selected: seq<Item>)
    requires Shuffled(order, |items|) && Drawable(items, rules) && forall k | 0 <= k < |items| :: items[k].eligible != []
    ensures Narrowed(items, selected) && Drawable(selected, rules) && Turn(items, selected, c, budget, rules)
    ensures Filled(items, selected, c, budget, rules)
    ensures forall k | 0 <= k < |items| && items[k].selected.Some? :: selected[k] == items[k]
  {
    var free := Available(items, order, c, rules);
    var picked := Subset(Weights(items), budget, free);
    PickedIsFree(items, budget, free, picked);
    selected := Mark(items, picked, c);
    TurnTaken(items, selected, c, budget, rules, free, picked);
    TurnMeans(items, selected, c, budget, rules);
  }

  function AmmoOnly(eligible: seq<Species>, rules: Rules): seq<Species> {
    if eligible == [] then []
    else (if eligible[0] in rules.ammo then [eligible[0]] else []) + AmmoOnly(eligible[1..], rules)
  }

  lemma {:induction false} AmmoOnlyMembers(eligible: seq<Species>, rules: Rules)
    ensures forall s :: s in AmmoOnly(eligible, rules) <==> s in eligible && s in rules.ammo
  {
    if eligible != [] { AmmoOnlyMembers(eligible[1..], rules); }
  }

  predicate CanSupply(item: Item, rules: Rules) {
    exists s | s in item.eligible :: s in rules.ammo
  }

  /** The positions of `order` that can supply ammunition and stand at a supply source, or at none, in that order. */
  function SuppliersOf(items: seq<Item>, order: seq<nat>, wanted: bool, supplies: set<nat>, rules: Rules): seq<nat>
    requires forall i | 0 <= i < |order| :: order[i] < |items|
  {
    if order == [] then []
    else
      var n := |order| - 1;
      SuppliersOf(items, order[..n], wanted, supplies, rules)
      + if CanSupply(items[order[n]], rules) && (items[order[n]].source in supplies) == wanted then [order[n]] else []
  }

  lemma SnocDistinct(s: seq<nat>, x: nat)
    requires Distinct(s) && x !in s
    ensures Distinct(s + [x])
  {}

  lemma {:induction false} SuppliersMembers(items: seq<Item>, order: seq<nat>, wanted: bool, supplies: set<nat>, rules: Rules)
    requires forall i | 0 <= i < |order| :: order[i] < |items|
    ensures forall k :: k in SuppliersOf(items, order, wanted, supplies, rules) <==>
                        k in order && CanSupply(items[k], rules) && (items[k].source in supplies) == wanted
    ensures Distinct(order) ==> Distinct(SuppliersOf(items, order, wanted, supplies, rules))
  {
    if order != [] {
      var n := |order| - 1;
      SuppliersMembers(items, order[..n], wanted, supplies, rules);
      assert order == order[..n] + [order[n]];
      if Distinct(order) {
        assert order[n] !in order[..n];
        SnocDistinct(SuppliersOf(items, order[..n], wanted, supplies, rules), order[n]);
      }
    }
  }

  method Suppliers(items: seq<Item>, order: seq<nat>, wanted: bool, supplies: set<nat>, rules: Rules) returns (found: seq<nat>)
    requires forall i | 0 <= i < |order| :: order[i] < |items|
    ensures found == SuppliersOf(items, order, wanted, supplies, rules)
  {
    found := [];
    for i := 0 to |order|
      invariant found == SuppliersOf(items, order[..i], wanted, supplies, rules)
    {
      assert order[..i + 1][..i] == order[..i];
      if CanSupply(items[order[i]], rules) && (items[order[i]].source in supplies) == wanted {
        found := found + [order[i]];
      }
    }
    assert order[..|order|] == order;
  }

  /** Supply sources before the others, and within each group the shuffled order. */
  ghost predicate SuppliesBefore(items: seq<Item>, order: seq<nat>, supplies: set<nat>, x: nat, y: nat)
    requires x < |items| && y < |items|
  {
    || (items[x].source in supplies && items[y].source !in supplies)
    || ((items[x].source in supplies <==> items[y].source in supplies) && exists a, b | 0 <= a < b < |order| :: order[a] == x && order[b] == y)
  }

  lemma {:induction false} SuppliersInOrder(items: seq<Item>, order: seq<nat>, wanted: bool, supplies: set<nat>, rules: Rules, i: nat, j: nat)
    returns (a: nat, b: nat)
    requires forall i | 0 <= i < |order| :: order[i] < |items|
    requires i < j < |SuppliersOf(items, order, wanted, supplies, rules)|
    ensures a < b < |order|
    ensures order[a] == SuppliersOf(items, order, wanted, supplies, rules)[i]
    ensures order[b] == SuppliersOf(items, order, wanted, supplies, rules)[j]
  {
    var n := |order| - 1;
    var earlier := SuppliersOf(items, order[..n], wanted, supplies, rules);
    if j < |earlier| {
      a, b := SuppliersInOrder(items, order[..n], wanted, supplies, rules, i, j);
    } else {
      SuppliersMembers(items, order[..n], wanted, supplies, rules);
      assert earlier[i] in earlier;
      a :| 0 <= a < n && order[..n][a] == earlier[i];
      b := n;
    }
  }

  ghost predicate PairInOrder(items: seq<Item>, order: seq<nat>, supplies: set<nat>, available: seq<nat>, i: nat, j: nat) {
    i < j < |available| ==>
      available[i] < |items| && available[j] < |items| && SuppliesBefore(items, order, supplies, available[i], available[j])
  }

  ghost predicate InSupplyOrder(items: seq<Item>, order: seq<nat>, supplies: set<nat>, available: seq<nat>) {
    forall i: nat, j: nat :: PairInOrder(items, order, supplies, available, i, j)
  }

  lemma GroupInOrder(items: seq<Item>, order: seq<nat>, wanted: bool, supplies: set<nat>, rules: Rules)
    requires forall i | 0 <= i < |order| :: order[i] < |items|
    ensures InSupplyOrder(items, order, supplies, SuppliersOf(items, order, wanted, supplies, rules))
  {
    var group := SuppliersOf(items, order, wanted, supplies, rules);
    SuppliersMembers(items, order, wanted, supplies, rules);
    forall i: nat, j: nat ensures PairInOrder(items, order, supplies, group, i, j) {
      if i < j < |group| {
        var a, b := SuppliersInOrder(items, order, wanted, supplies, rules, i, j);
        assert group[i] in group && group[j] in group;
      }
    }
  }

  lemma JoinedInOrder(items: seq<Item>, order: seq<nat>, supplies: set<nat>, first: seq<nat>, rest: seq<nat>)
    requires InSupplyOrder(items, order, supplies, first) && InSupplyOrder(items, order, supplies, rest)
    requires forall k | k in first :: k < |items| && items[k].source in supplies
    requires forall k | k in rest :: k < |items| && items[k].source !in supplies
    ensures InSupplyOrder(items, order, supplies, first + rest)
  {
    var both := first + rest;
    forall i: nat, j: nat ensures PairInOrder(items, order, supplies, both, i, j) {
      if i < j < |both| {
        if i < |first| <= j {
          assert first[i] in first && rest[j - |first|] in rest;
        } else if j < |first| {
          assert PairInOrder(items, order, supplies, first, i, j);
        } else {
          assert PairInOrder(items, order, supplies, rest, i - |first|, j - |first|);
        }
      }
    }
  }

  lemma SupplyOrder(items: seq<Item>, order: seq<nat>, supplies: set<nat>, rules: Rules)
    requires forall i | 0 <= i < |order| :: order[i] < |items|
    ensures InSupplyOrder(items, order, supplies,
                          SuppliersOf(items, order, true, supplies, rules) + SuppliersOf(items, order, false, supplies, rules))
  {
    var first, rest := SuppliersOf(items, order, true, supplies, rules), SuppliersOf(items, order, false, supplies, rules);
    SuppliersMembers(items, order, true, supplies, rules);
    SuppliersMembers(items, order, false, supplies, rules);
    GroupInOrder(items, order, true, supplies, rules);
    GroupInOrder(items, order, false, supplies, rules);
    JoinedInOrder(items, order, supplies, first, rest);
  }

  ghost predicate Positions(items: seq<Item>, chosen: set<nat>, rules: Rules) {
    forall k | k in chosen :: k < |items| && CanSupply(items[k], rules)
  }

  /** The positions that can supply ammunition: those at supply sources first, each group in shuffled order. */
  method AmmoPositions(items: seq<Item>, order: seq<nat>, supplies: set<nat>, rules: Rules) returns (available: seq<nat>)
    requires Shuffled(order, |items|)
    ensures available == SuppliersOf(items, order, true, supplies, rules) + SuppliersOf(items, order, false, supplies, rules)
    ensures Distinct(available)
    ensures forall k: nat :: k in available <==> k < |items| && CanSupply(items[k], rules)
    ensures InSupplyOrder(items, order, supplies, available)
  {
    var first := Suppliers(items, order, true, supplies, rules);
    var rest := Suppliers(items, order, false, supplies, rules);
    SuppliersMembers(items, order, true, supplies, rules);
    SuppliersMembers(items, order, false, supplies, rules);
    available := first + rest;
    forall i, j | 0 <= i < j < |available| ensures available[i] != available[j] {
      assert i < |first| ==> available[i] in first;
      assert j >= |first| ==> available[j] in rest;
    }
    SupplyOrder(items, order, supplies, rules);
  }

  /** Some positions that can supply ammunition weigh exactly `required`. */
  ghost predicate Reachable(items: seq<Item>, required: nat, rules: Rules) {
    exists exact: set<nat> :: Positions(items, exact, rules) && Weight(Weights(items), exact) == required
  }

  ghost predicate HasAmmo(eligible: seq<Species>, ammo: set<Species>) {
    exists i | 0 <= i < |eligible| :: eligible[i] in ammo
  }

  lemma SupplyHasAmmo(item: Item, rules: Rules)
    ensures CanSupply(item, rules) <==> HasAmmo(item.eligible, rules.ammo)
  {
    if s :| s in item.eligible && s in rules.ammo {
      var i :| 0 <= i < |item.eligible| && item.eligible[i] == s;
    }
    if i :| 0 <= i < |item.eligible| && item.eligible[i] in rules.ammo {
      assert item.eligible[i] in item.eligible;
    }
  }

  /** Different positions, each of which has a species that is ammunition. */
  ghost predicate AmmoAt(items: seq<Item>, positions: seq<nat>, rules: Rules) {
    && (forall i, j | 0 <= i < j < |positions| :: positions[i] != positions[j])
    && forall i | 0 <= i < |positions| ::
         positions[i] < |items| && HasAmmo(items[positions[i]].eligible, rules.ammo)
  }

  lemma {:induction false} Listed(chosen: set<nat>) returns (positions: seq<nat>)
    ensures Distinct(positions) && Members(positions) == chosen
  {
    if chosen == {} {
      positions := [];
    } else {
      var k :| k in chosen;
      var rest := Listed(chosen - {k});
      assert forall i | 0 <= i < |rest| :: rest[i] in Members(rest);
      positions := rest + [k];
      forall x ensures x in Members(positions) <==> x in chosen {
        assert x in rest <==> x in Members(rest);
      }
    }
  }

  lemma AmmoIsSupply(items: seq<Item>, positions: seq<nat>, rules: Rules)
    ensures AmmoAt(items, positions, rules) <==> Distinct(positions) && Positions(items, Members(positions), rules)
  {
    if AmmoAt(items, positions, rules) {
      forall k | k in Members(positions) ensures k < |items| && CanSupply(items[k], rules) {
        var i :| 0 <= i < |positions| && positions[i] == k;
        SupplyHasAmmo(items[k], rules);
      }
    }
    if Distinct(positions) && Positions(items, Members(positions), rules) {
      forall i | 0 <= i < |positions|
        ensures positions[i] < |items| && HasAmmo(items[positions[i]].eligible, rules.ammo)
      {
        assert positions[i] in Members(positions);
        SupplyHasAmmo(items[positions[i]], rules);
      }
    }
  }

  lemma AmmoWeighs(items: seq<Item>, positions: seq<nat>, rules: Rules)
    requires AmmoAt(items, positions, rules)
    ensures Weight(Weights(items), Members(positions)) == Added(ItemWeights(items, positions))
  {
    AmmoIsSupply(items, positions, rules);
    assert forall k | k in positions :: k in Members(positions);
    ChosenWeight(Weights(items), positions);
    ItemsWeigh(items, positions);
  }

  /** The requirement is reachable when the weights of some such positions add up to it. */
  lemma ReachableMeans(items: seq<Item>, required: nat, rules: Rules)
    ensures Reachable(items, required, rules) <==>
              exists positions :: AmmoAt(items, positions, rules) && Added(ItemWeights(items, positions)) == required
  {
    if Reachable(items, required, rules) {
      var exact: set<nat> :| Positions(items, exact, rules) && Weight(Weights(items), exact) == required;
      var positions := Listed(exact);
      AmmoIsSupply(items, positions, rules);
      AmmoWeighs(items, positions, rules);
    }
    if positions :| AmmoAt(items, positions, rules) && Added(ItemWeights(items, positions)) == required {
      AmmoIsSupply(items, positions, rules);
      AmmoWeighs(items, positions, rules);
    }
  }

  lemma OutOfReach(items: seq<Item>, required: nat, rules: Rules, available: seq<nat>, picked: seq<nat>)
    requires forall k: nat :: k in available <==> k < |items| && CanSupply(items[k], rules)
    requires Fullest(Weights(items), required, available, picked)
    requires Weight(Weights(items), Members(picked)) != required
    ensures !Reachable(items, required, rules)
  {
    forall exact: set<nat> | Positions(items, exact, rules) ensures Weight(Weights(items), exact) != required {
      assert exact <= Members(available);
      if Weight(Weights(items), exact) == required {
        ExactWhenPossible(Weights(items), required, available, picked, exact);
      }
    }
  }

  method SumOf(items: seq<Item>, chosen: seq<nat>) returns (total: nat)
    requires Distinct(chosen) && forall k | k in chosen :: k < |items|
    ensures total == Weight(Weights(items), Members(chosen))
  {
    ghost var weightAt := WeightAt(Weights(items));
    total := 0;
    for i := 0 to |chosen|
      invariant total == Sum(chosen[..i], weightAt)
    {
      assert chosen[i] in chosen;
      SumTake(chosen, i, weightAt);
      total := total + items[chosen[i]].weight;
    }
    assert chosen[..|chosen|] == chosen;
    SumIsSetSum(chosen, weightAt);
  }

  method NarrowToAmmo(items: seq<Item>, chosen: seq<nat>, rules: Rules) returns (narrowed: seq<Item>)
    requires rules.Valid() && forall k | k in chosen :: k < |items| && CanSupply(items[k], rules)
    ensures |narrowed| == |items|
    ensures forall k | 0 <= k < |items| ::
              if k in chosen then narrowed[k] == items[k].(eligible := AmmoOnly(items[k].eligible, rules)) else narrowed[k] == items[k]
    ensures forall k, s | 0 <= k < |items| && k in chosen && s in narrowed[k].eligible :: s in rules.ammo && s in items[k].eligible
    ensures forall k | 0 <= k < |items| && k in chosen :: narrowed[k].eligible != [] && CanBe(narrowed[k], FODDER, rules)
  {
    narrowed := items;
    for i := 0 to |chosen|
      invariant |narrowed| == |items|
      invariant forall k | 0 <= k < |items| ::
                  if k in chosen[..i] then narrowed[k] == items[k].(eligible := AmmoOnly(items[k].eligible, rules)) else narrowed[k] == items[k]
    {
      assert chosen[i] in chosen;
      assert chosen[..i + 1] == chosen[..i] + [chosen[i]];
      narrowed := narrowed[chosen[i] := items[chosen[i]].(eligible := AmmoOnly(items[chosen[i]].eligible, rules))];
    }
    assert chosen[..|chosen|] == chosen;
    forall k | 0 <= k < |items| && k in chosen
      ensures narrowed[k].eligible != [] && CanBe(narrowed[k], FODDER, rules)
      ensures forall s | s in narrowed[k].eligible :: s in rules.ammo && s in items[k].eligible
    {
      AmmoOnlyMembers(items[k].eligible, rules);
      var s :| s in items[k].eligible && s in rules.ammo;
      assert s in narrowed[k].eligible;
    }
  }

  /** The item as fodder, limited to those of its species that are ammunition. */
  ghost predicate AmmoLeft(before: Item, after: Item, rules: Rules) {
    && after == before.(selected := Some("fodder"), eligible := after.eligible)
    && forall s :: s in after.eligible <==> s in before.eligible && s in rules.ammo
  }

  lemma AmmoNarrowed(items: seq<Item>, marked: seq<Item>, narrowed: seq<Item>, picked: seq<nat>, rules: Rules)
    requires |marked| == |items| == |narrowed|
    requires forall k | 0 <= k < |items| :: items[k].selected.None? && items[k].eligible != []
    requires forall k | 0 <= k < |items| :: marked[k] == if k in picked then items[k].(selected := Some(FODDER)) else items[k]
    requires forall k | 0 <= k < |items| ::
               if k in picked then narrowed[k] == marked[k].(eligible := AmmoOnly(marked[k].eligible, rules)) else narrowed[k] == marked[k]
    requires forall k | 0 <= k < |items| && k in picked :: narrowed[k].eligible != [] && CanBe(narrowed[k], FODDER, rules)
    ensures Narrowed(items, narrowed) && Drawable(narrowed, rules)
    ensures forall k | 0 <= k < |items| ::
              if k in picked then AmmoLeft(items[k], narrowed[k], rules) else narrowed[k] == items[k]
  {
    forall k | 0 <= k < |items| && k in picked ensures AmmoLeft(items[k], narrowed[k], rules) {
      AmmoOnlyMembers(marked[k].eligible, rules);
    }
  }

  /** Sets exactly `required` emissions of ammunition fodder aside, supply sources first, or fails when no
    * choice of positions adds up to it. */
  method ReserveAmmo(items: seq<Item>, order: seq<nat>, required: nat, supplies: set<nat>, rules: Rules)
    returns (r: Option<seq<Item>>, ghost chosen: seq<nat>)
    requires Shuffled(order, |items|) && rules.Valid()
    requires forall k | 0 <= k < |items| :: items[k].selected.None? && items[k].eligible != []
    ensures r.Some? <==> Reachable(items, required, rules)
    ensures r.Some? ==>
              && Narrowed(items, r.value) && Drawable(r.value, rules)
              && Positions(items, Members(chosen), rules)
              && Weight(Weights(items), Members(chosen)) == required
              && forall k | 0 <= k < |items| ::
                   if k in chosen then AmmoLeft(items[k], r.value[k], rules) else r.value[k] == items[k]
  {
    var available := AmmoPositions(items, order, supplies, rules);
    var picked := Subset(Weights(items), required, available);
    forall k | k in picked ensures k < |items| && CanSupply(items[k], rules) {
      assert k in Members(picked) && k in Members(available);
    }
    chosen := picked;
    var weight := SumOf(items, picked);
    if weight != required {
      OutOfReach(items, required, rules, available, picked);
      return None, chosen;
    }
    assert Positions(items, Members(picked), rules);
    assert Reachable(items, required, rules);
    var marked := Mark(items, picked, FODDER);
    var narrowed := NarrowToAmmo(marked, picked, rules);
    AmmoNarrowed(items, marked, narrowed, picked, rules);
    r := Some(narrowed);
  }

  // ---------------------------------------------------------------- drawing

  function InCategory(eligible: seq<Species>, c: Category, rules: Rules): seq<Species> {
    if eligible == [] then []
    else (if rules.category(eligible[0]) == c then [eligible[0]] else []) + InCategory(eligible[1..], c, rules)
  }

  lemma {:induction false} InCategoryMembers(eligible: seq<Species>, c: Category, rules: Rules)
    ensures forall s :: s in InCategory(eligible, c, rules) <==> s in eligible && rules.category(s) == c
  {
    if eligible != [] { InCategoryMembers(eligible[1..], c, rules); }
  }

  function Cheapest(eligible: seq<Species>, rules: Rules): Species
    requires eligible != []
  {
    if |eligible| == 1 then eligible[0]
    else
      var rest := Cheapest(eligible[1..], rules);
      var first := eligible[0];
      if rules.cost(first) < rules.cost(rest) || (rules.cost(first) == rules.cost(rest) && TextLeq(first, rest)) then first else rest
  }

  /** Of a lower cost, or of the same and not of a later name. */
  predicate NoCheaper(rules: Rules, s: Species, t: Species) {
    rules.cost(s) < rules.cost(t) || (rules.cost(s) == rules.cost(t) && TextLeq(s, t))
  }

  lemma {:induction false} CheapestIsLeast(eligible: seq<Species>, rules: Rules)
    requires eligible != []
    ensures Cheapest(eligible, rules) in eligible
    ensures forall s | s in eligible :: NoCheaper(rules, Cheapest(eligible, rules), s)
  {
    var first, least := eligible[0], Cheapest(eligible, rules);
    TextTotal(first, first);
    if |eligible| > 1 {
      CheapestIsLeast(eligible[1..], rules);
      var rest := Cheapest(eligible[1..], rules);
      TextTotal(first, rest);
      forall s | s in eligible ensures NoCheaper(rules, least, s) {
        if s != first {
          assert s in eligible[1..] && NoCheaper(rules, rest, s);
          if TextLeq(first, rest) && TextLeq(rest, s) { TextTransitive(first, rest, s); }
        }
      }
    }
  }

  /** A drawn species: of the item's category, else fodder if it can be, else the cheapest it can be, the first by name. */
  ghost predicate PickOk(item: Item, s: Species, rules: Rules) {
    && s in item.eligible
    && (item.selected.Some? ==> rules.category(s) == item.selected.value)
    && (item.selected.None? && CanBe(item, FODDER, rules) ==> rules.category(s) == FODDER)
    && (item.selected.None? && !CanBe(item, FODDER, rules) ==> forall t | t in item.eligible :: NoCheaper(rules, s, t))
  }

  /** Any species the weighted draw may return: its weights are all positive, and its further filters only
    * narrow the pool without emptying it. */
  method Pick(item: Item, rules: Rules) returns (s: Species)
    requires item.eligible != [] && (item.selected.Some? ==> CanBe(item, item.selected.value, rules))
    ensures PickOk(item, s, rules)
    ensures item.selected.None? && (forall t | t in item.eligible :: rules.category(t) != "fodder") ==>
              forall t | t in item.eligible ::
                rules.cost(s) < rules.cost(t) || (rules.cost(s) == rules.cost(t) && TextLeq(s, t))
  {
    var pool: seq<Species> := [];
    if item.selected.Some? {
      pool := InCategory(item.eligible, item.selected.value, rules);
      InCategoryMembers(item.eligible, item.selected.value, rules);
    }
    if pool == [] {
      pool := InCategory(item.eligible, FODDER, rules);
      InCategoryMembers(item.eligible, FODDER, rules);
      if pool == [] {
        pool := [Cheapest(item.eligible, rules)];
        CheapestIsLeast(item.eligible, rules);
      }
    }
    if item.selected.Some? {
      var t :| t in item.eligible && rules.category(t) == item.selected.value;
      assert t in InCategory(item.eligible, item.selected.value, rules);
    } else if CanBe(item, FODDER, rules) {
      var t :| t in item.eligible && rules.category(t) == FODDER;
      assert t in InCategory(item.eligible, FODDER, rules);
    }
    assert pool[0] in pool;
    s :| s in pool;
  }

  // ---------------------------------------------------------------- counting what was drawn

  /** What one emission of a species adds to the count of category `c`: itself, or its cost. */
  function Value(rules: Rules, c: Category, priced: bool): Species -> nat {
    var category, cost := rules.category, rules.cost;
    (s: Species) => if category(s) == c then (if priced then cost(s) else 1) else 0
  }

  function One(): Species -> nat {
    (s: Species) => 1
  }

  function RosterValue(roster: seq<Species>, total: nat, count: nat, f: Species -> nat): nat {
    if roster == [] then 0
    else
      var n := |roster| - 1;
      RosterValue(roster[..n], total, count, f) + f(roster[n]) * BodyWeight(total, count, n)
  }

  function TotalValue(rosters: seq<seq<Species>>, totals: seq<nat>, sizes: seq<nat>, f: Species -> nat): nat
    requires |rosters| == |totals| == |sizes|
  {
    if rosters == [] then 0
    else
      var n := |rosters| - 1;
      TotalValue(rosters[..n], totals[..n], sizes[..n], f) + RosterValue(rosters[n], totals[n], sizes[n], f)
  }

  lemma RosterStep(roster: seq<Species>, s: Species, total: nat, count: nat, f: Species -> nat)
    ensures RosterValue(roster + [s], total, count, f) == RosterValue(roster, total, count, f) + f(s) * BodyWeight(total, count, |roster|)
  {
    assert (roster + [s])[..|roster|] == roster;
  }

  lemma {:induction false} TotalStep(rosters: seq<seq<Species>>, totals: seq<nat>, sizes: seq<nat>, f: Species -> nat, i: nat, s: Species)
    requires |rosters| == |totals| == |sizes| && i < |rosters|
    ensures TotalValue(rosters[i := rosters[i] + [s]], totals, sizes, f)
            == TotalValue(rosters, totals, sizes, f) + f(s) * BodyWeight(totals[i], sizes[i], |rosters[i]|)
  {
    var n := |rosters| - 1;
    var after := rosters[i := rosters[i] + [s]];
    if i == n {
      assert after[..n] == rosters[..n];
      RosterStep(rosters[n], s, totals[n], sizes[n], f);
    } else {
      assert after[..n] == rosters[..n][i := rosters[..n][i] + [s]];
      TotalStep(rosters[..n], totals[..n], sizes[..n], f, i, s);
    }
  }

  function SumNat(s: seq<nat>): nat {
    if s == [] then 0 else SumNat(s[..|s| - 1]) + s[|s| - 1]
  }

  lemma {:induction false} FullRoster(roster: seq<Species>, total: nat, count: nat)
    requires |roster| <= count
    ensures RosterValue(roster, total, count, One()) == FirstWeights(total, count, |roster|)
  {
    if roster != [] { FullRoster(roster[..|roster| - 1], total, count); }
  }

  /** Complete rosters account for every emission of every source. */
  lemma {:induction false} FullRosters(rosters: seq<seq<Species>>, totals: seq<nat>, sizes: seq<nat>)
    requires |rosters| == |totals| == |sizes|
    requires forall i | 0 <= i < |rosters| :: |rosters[i]| == sizes[i] && (sizes[i] == 0 ==> totals[i] == 0)
    ensures TotalValue(rosters, totals, sizes, One()) == SumNat(totals)
  {
    if rosters != [] {
      var n := |rosters| - 1;
      FullRosters(rosters[..n], totals[..n], sizes[..n]);
      FullRoster(rosters[n], totals[n], sizes[n]);
      if sizes[n] > 0 { WeightsAddUp(totals[n], sizes[n]); }
    }
  }

  /** The rosters drawn so far with the two running counts. */
  datatype Drawn = Drawn(rosters: seq<seq<Species>>, actual: Tally, spent: Tally)

  /** Every category's entry is what the rosters amount to, in emissions or in cost. */
  ghost predicate CountedBy(tally: Tally, rosters: seq<seq<Species>>, totals: seq<nat>, sizes: seq<nat>, rules: Rules, spent: bool)
    requires |rosters| == |totals| == |sizes|
  {
    forall c :: At(tally, c) == TotalValue(rosters, totals, sizes, Value(rules, c, spent))
  }

  ghost predicate Counted(d: Drawn, totals: seq<nat>, sizes: seq<nat>, rules: Rules)
    requires |d.rosters| == |totals| == |sizes|
  {
    && CountedBy(d.actual, d.rosters, totals, sizes, rules, false)
    && CountedBy(d.spent, d.rosters, totals, sizes, rules, true)
    && TallyTotal(d.actual) == TotalValue(d.rosters, totals, sizes, One())
  }

  /** What the drawn bodies of one source add to category `c`: their emissions, or what those cost. */
  ghost function RosterAdds(roster: seq<Species>, total: nat, count: nat, rules: Rules, c: Category, priced: bool): seq<int> {
    seq(|roster|, o requires 0 <= o < |roster| =>
      if rules.category(roster[o]) == c then BodyWeight(total, count, o) * (if priced then rules.cost(roster[o]) else 1) else 0)
  }

  ghost function RostersAdd(rosters: seq<seq<Species>>, totals: seq<nat>, sizes: seq<nat>, rules: Rules, c: Category, priced: bool): seq<int>
    requires |rosters| == |totals| == |sizes|
  {
    seq(|rosters|, i requires 0 <= i < |rosters| => Added(RosterAdds(rosters[i], totals[i], sizes[i], rules, c, priced)))
  }

  lemma BodyAdds(rules: Rules, c: Category, priced: bool, s: Species, weight: nat)
    ensures Value(rules, c, priced)(s) * weight
            == if rules.category(s) == c then weight * (if priced then rules.cost(s) else 1) else 0
  {}

  lemma {:induction false} RosterAdded(roster: seq<Species>, total: nat, count: nat, rules: Rules, c: Category, priced: bool)
    ensures RosterValue(roster, total, count, Value(rules, c, priced)) == Added(RosterAdds(roster, total, count, rules, c, priced))
  {
    if roster != [] {
      var n := |roster| - 1;
      RosterAdded(roster[..n], total, count, rules, c, priced);
      BodyAdds(rules, c, priced, roster[n], BodyWeight(total, count, n));
      assert RosterAdds(roster, total, count, rules, c, priced)[..n] == RosterAdds(roster[..n], total, count, rules, c, priced);
    }
  }

  /** Every category's entry is the sum over all bodies drawn of that category. */
  lemma {:induction false} TotalAddedUp(rosters: seq<seq<Species>>, totals: seq<nat>, sizes: seq<nat>, rules: Rules, c: Category, priced: bool)
    requires |rosters| == |totals| == |sizes|
    ensures TotalValue(rosters, totals, sizes, Value(rules, c, priced)) == Added(RostersAdd(rosters, totals, sizes, rules, c, priced))
  {
    if rosters != [] {
      var n := |rosters| - 1;
      TotalAddedUp(rosters[..n], totals[..n], sizes[..n], rules, c, priced);
      RosterAdded(rosters[n], totals[n], sizes[n], rules, c, priced);
      assert RostersAdd(rosters, totals, sizes, rules, c, priced)[..n] == RostersAdd(rosters[..n], totals[..n], sizes[..n], rules, c, priced);
    }
  }

  /** Adds one drawn body of source `i` that stands for `weight` emissions. */
  function Add(d: Drawn, i: nat, s: Species, weight: nat, rules: Rules): Drawn
    requires i < |d.rosters|
  {
    var c := rules.category(s);
    Drawn(d.rosters[i := d.rosters[i] + [s]],
          d.actual[c := At(d.actual, c) + weight],
          d.spent[c := At(d.spent, c) + rules.cost(s) * weight])
  }

  function Tallied(d: Drawn, spent: bool): Tally {
    if spent then d.spent else d.actual
  }

  lemma AddTotals(d: Drawn, totals: seq<nat>, sizes: seq<nat>, rules: Rules, i: nat, s: Species, spent: bool)
    requires |d.rosters| == |totals| == |sizes| && i < |sizes|
    requires CountedBy(Tallied(d, spent), d.rosters, totals, sizes, rules, spent)
    ensures var e := Add(d, i, s, BodyWeight(totals[i], sizes[i], |d.rosters[i]|), rules);
            CountedBy(Tallied(e, spent), e.rosters, totals, sizes, rules, spent)
  {
    var e := Add(d, i, s, BodyWeight(totals[i], sizes[i], |d.rosters[i]|), rules);
    forall c ensures At(Tallied(e, spent), c) == TotalValue(e.rosters, totals, sizes, Value(rules, c, spent)) {
      TotalStep(d.rosters, totals, sizes, Value(rules, c, spent), i, s);
    }
  }

  lemma AddActual(d: Drawn, i: nat, s: Species, weight: nat, rules: Rules)
    requires i < |d.rosters|
    ensures TallyTotal(Add(d, i, s, weight, rules).actual) == TallyTotal(d.actual) + weight
  {
    var c := rules.category(s);
    TallyUpdate(d.actual, c, At(d.actual, c) + weight);
  }

  lemma AddTotal(d: Drawn, totals: seq<nat>, sizes: seq<nat>, rules: Rules, i: nat, s: Species)
    requires |d.rosters| == |totals| == |sizes| && i < |sizes|
    requires TallyTotal(d.actual) == TotalValue(d.rosters, totals, sizes, One())
    ensures var e := Add(d, i, s, BodyWeight(totals[i], sizes[i], |d.rosters[i]|), rules);
            TallyTotal(e.actual) == TotalValue(e.rosters, totals, sizes, One())
  {
    TotalStep(d.rosters, totals, sizes, One(), i, s);
    AddActual(d, i, s, BodyWeight(totals[i], sizes[i], |d.rosters[i]|), rules);
  }

  lemma AddCounts(d: Drawn, totals: seq<nat>, sizes: seq<nat>, rules: Rules, i: nat, s: Species)
    requires |d.rosters| == |totals| == |sizes| && i < |sizes| && Counted(d, totals, sizes, rules)
    ensures Counted(Add(d, i, s, BodyWeight(totals[i], sizes[i], |d.rosters[i]|), rules), totals, sizes, rules)
  {
    AddTotals(d, totals, sizes, rules, i, s, false);
    AddTotals(d, totals, sizes, rules, i, s, true);
    AddTotal(d, totals, sizes, rules, i, s);
  }

  function NoRosters(n: nat): seq<seq<Species>> {
    seq(n, i => [])
  }

  lemma {:induction false} NothingDrawn(n: nat, totals: seq<nat>, sizes: seq<nat>, f: Species -> nat)
    requires |totals| == |sizes| == n
    ensures TotalValue(NoRosters(n), totals, sizes, f) == 0
  {
    if n > 0 {
      assert NoRosters(n)[..n - 1] == NoRosters(n - 1);
      NothingDrawn(n - 1, totals[..n - 1], sizes[..n - 1], f);
    }
  }

  /** The body drawn for an item is where the item's source and ordinal say. */
  ghost predicate DrawnFor(item: Item, rosters: seq<seq<Species>>, rules: Rules) {
    && item.source < |rosters| && item.ordinal < |rosters[item.source]|
    && PickOk(item, rosters[item.source][item.ordinal], rules)
  }

  /** The emissions of the first `k` items that are selected for category `c`. */
  function SelectedWeight(items: seq<Item>, k: nat, c: Category): nat
    requires k <= |items|
  {
    if k == 0 then 0
    else SelectedWeight(items, k - 1, c) + (if items[k - 1].selected == Some(c) then items[k - 1].weight else 0)
  }

  lemma {:induction false} SelectedAtLeast(items: seq<Item>, k: nat, c: Category, chosen: set<nat>)
    requires k <= |items| && forall j | j in chosen :: j < k && items[j].selected == Some(c)
    ensures Weight(Weights(items), chosen) <= SelectedWeight(items, k, c)
  {
    if k == 0 {
      assert chosen == {};
    } else if k - 1 in chosen {
      WeightSplit(Weights(items), chosen, k - 1);
      SelectedAtLeast(items, k - 1, c, chosen - {k - 1});
    } else {
      SelectedAtLeast(items, k - 1, c, chosen);
    }
  }

  /** Every body is one its source may spawn. */
  ghost predicate Compatible(rosters: seq<seq<Species>>, eligible: seq<seq<Species>>) {
    && |eligible| == |rosters|
    && forall i, s | 0 <= i < |rosters| && s in rosters[i] :: s in eligible[i]
  }

  /** The first `k` items have been drawn, in order. */
  ghost predicate Progress(items: seq<Item>, k: nat, rosters: seq<seq<Species>>, rules: Rules) {
    && k <= |items|
    && (forall i | 0 <= i < |rosters| :: |rosters[i]| == CountBefore(items, k, i))
    && (forall j | 0 <= j < k :: DrawnFor(items[j], rosters, rules))
  }

  lemma ProgressStep(items: seq<Item>, k: nat, rosters: seq<seq<Species>>, rules: Rules, s: Species)
    requires k < |items| && Progress(items, k, rosters, rules) && items[k].source < |rosters|
    requires items[k].ordinal == |rosters[items[k].source]| && PickOk(items[k], s, rules)
    ensures Progress(items, k + 1, rosters[items[k].source := rosters[items[k].source] + [s]], rules)
  {
    var i := items[k].source;
    var after := rosters[i := rosters[i] + [s]];
    forall j | 0 <= j <= k ensures DrawnFor(items[j], after, rules) {
      if j < k { assert DrawnFor(items[j], rosters, rules); }
    }
  }

  lemma CompatibleStep(rosters: seq<seq<Species>>, eligible: seq<seq<Species>>, i: nat, s: Species)
    requires Compatible(rosters, eligible) && i < |rosters| && s in eligible[i]
    ensures Compatible(rosters[i := rosters[i] + [s]], eligible)
  {}

  /** The selected emissions drawn so far are counted in their category. */
  ghost predicate SelectionCounted(items: seq<Item>, k: nat, actual: Tally) {
    k <= |items| && forall c :: SelectedWeight(items, k, c) <= At(actual, c)
  }

  lemma SelectionStep(items: seq<Item>, k: nat, d: Drawn, rules: Rules, s: Species)
    requires k < |items| && SelectionCounted(items, k, d.actual) && items[k].source < |d.rosters|
    requires PickOk(items[k], s, rules)
    ensures SelectionCounted(items, k + 1, Add(d, items[k].source, s, items[k].weight, rules).actual)
  {
    var item := items[k];
    var after := Add(d, item.source, s, item.weight, rules).actual;
    forall c ensures SelectedWeight(items, k + 1, c) <= At(after, c) {
      assert SelectedWeight(items, k, c) <= At(d.actual, c);
      assert At(after, c) == At(d.actual, c) + if c == rules.category(s) then item.weight else 0;
    }
  }

  lemma StartCounts(n: nat, totals: seq<nat>, sizes: seq<nat>, rules: Rules)
    requires |totals| == |sizes| == n
    ensures Counted(Drawn(NoRosters(n), map[], map[]), totals, sizes, rules)
  {
    forall f: Species -> nat ensures TotalValue(NoRosters(n), totals, sizes, f) == 0 {
      NothingDrawn(n, totals, sizes, f);
    }
  }

  /** The first `k` items have been drawn: in their place, compatible with their source, and counted. */
  ghost predicate DrawnSoFar(items: seq<Item>, k: nat, d: Drawn, eligible: seq<seq<Species>>, totals: seq<nat>, sizes: seq<nat>, rules: Rules) {
    && |d.rosters| == |totals| == |sizes| && Counted(d, totals, sizes, rules) && Progress(items, k, d.rosters, rules)
    && Compatible(d.rosters, eligible) && SelectionCounted(items, k, d.actual)
  }

  lemma DrawnNext(items: seq<Item>, k: nat, d: Drawn, eligible: seq<seq<Species>>, totals: seq<nat>, sizes: seq<nat>, rules: Rules, s: Species)
    requires k < |items| && ItemsOk(items, totals, sizes) && DrawnSoFar(items, k, d, eligible, totals, sizes, rules)
    requires items[k].source < |d.rosters| && PickOk(items[k], s, rules) && s in eligible[items[k].source]
    ensures DrawnSoFar(items, k + 1, Add(d, items[k].source, s, items[k].weight, rules), eligible, totals, sizes, rules)
  {
    assert ItemOk(items, k, totals, sizes);
    ProgressStep(items, k, d.rosters, rules, s);
    CompatibleStep(d.rosters, eligible, items[k].source, s);
    SelectionStep(items, k, d, rules, s);
    AddCounts(d, totals, sizes, rules, items[k].source, s);
  }

  lemma DrawnStart(items: seq<Item>, n: nat, eligible: seq<seq<Species>>, totals: seq<nat>, sizes: seq<nat>, rules: Rules)
    requires |totals| == |sizes| == |eligible| == n
    ensures DrawnSoFar(items, 0, Drawn(NoRosters(n), map[], map[]), eligible, totals, sizes, rules)
  {
    StartCounts(n, totals, sizes, rules);
  }

  lemma DrawnEnd(items: seq<Item>, d: Drawn, eligible: seq<seq<Species>>, totals: seq<nat>, sizes: seq<nat>, rules: Rules)
    requires ItemsOk(items, totals, sizes) && DrawnSoFar(items, |items|, d, eligible, totals, sizes, rules)
    ensures forall i | 0 <= i < |sizes| :: |d.rosters[i]| == sizes[i]
    ensures forall k | 0 <= k < |items| :: DrawnFor(items[k], d.rosters, rules)
  {}

  method DrawAll(items: seq<Item>, n: nat, rules: Rules, ghost eligible: seq<seq<Species>>, ghost totals: seq<nat>, ghost sizes: seq<nat>)
    returns (d: Drawn)
    requires ItemsOk(items, totals, sizes) && n == |sizes| == |eligible| && Drawable(items, rules)
    requires forall k, s | 0 <= k < |items| && s in items[k].eligible :: items[k].source < n && s in eligible[items[k].source]
    ensures |d.rosters| == n && forall i | 0 <= i < n :: |d.rosters[i]| == sizes[i]
    ensures Counted(d, totals, sizes, rules)
    ensures Compatible(d.rosters, eligible)
    ensures forall k | 0 <= k < |items| :: DrawnFor(items[k], d.rosters, rules)
    ensures SelectionCounted(items, |items|, d.actual)
  {
    d := Drawn(NoRosters(n), map[], map[]);
    DrawnStart(items, n, eligible, totals, sizes, rules);
    for k := 0 to |items|
      invariant |d.rosters| == n && DrawnSoFar(items, k, d, eligible, totals, sizes, rules)
    {
      assert ItemOk(items, k, totals, sizes);
      var s := Pick(items[k], rules);
      DrawnNext(items, k, d, eligible, totals, sizes, rules, s);
      d := Add(d, items[k].source, s, items[k].weight, rules);
    }
    DrawnEnd(items, d, eligible, totals, sizes, rules);
  }

  // ---------------------------------------------------------------- the recount

  function RosterTotals(sources: seq<Source>, rosters: seq<seq<Species>>, renewable: bool): seq<nat>
    requires |rosters| == |sources|
  {
    seq(|sources|, i requires 0 <= i < |sources| => SourceTotal(sources[i], |rosters[i]|, renewable))
  }

  function RosterSizes(rosters: seq<seq<Species>>): seq<nat> {
    seq(|rosters|, i requires 0 <= i < |rosters| => |rosters[i]|)
  }

  method RosterCosts(roster: seq<Species>, total: nat, before: Tally, rules: Rules) returns (costs: Tally)
    ensures forall c :: At(costs, c) == At(before, c) + RosterValue(roster, total, |roster|, Value(rules, c, true))
  {
    costs := before;
    for o := 0 to |roster|
      invariant forall c :: At(costs, c) == At(before, c) + RosterValue(roster[..o], total, |roster|, Value(rules, c, true))
    {
      var s := roster[o];
      var c := rules.category(s);
      forall k ensures RosterValue(roster[..o + 1], total, |roster|, Value(rules, k, true))
                       == RosterValue(roster[..o], total, |roster|, Value(rules, k, true))
                          + Value(rules, k, true)(s) * BodyWeight(total, |roster|, o) {
        assert roster[..o + 1] == roster[..o] + [s];
        RosterStep(roster[..o], s, total, |roster|, Value(rules, k, true));
      }
      costs := costs[c := At(costs, c) + rules.cost(s) * BodyWeight(total, |roster|, o)];
    }
    assert roster[..|roster|] == roster;
  }

  /** The cost of a finished draw by category, counted afresh from the rosters. */
  method BodyCosts(sources: seq<Source>, rosters: seq<seq<Species>>, renewable: bool, rules: Rules) returns (costs: Tally)
    requires |rosters| == |sources|
    ensures forall c :: At(costs, c) ==
              TotalValue(rosters, RosterTotals(sources, rosters, renewable), RosterSizes(rosters), Value(rules, c, true))
  {
    costs := map[];
    ghost var totals, sizes := RosterTotals(sources, rosters, renewable), RosterSizes(rosters);
    for i := 0 to |sources|
      invariant forall c :: At(costs, c) == TotalValue(rosters[..i], totals[..i], sizes[..i], Value(rules, c, true))
    {
      var before := costs;
      costs := RosterCosts(rosters[i], SourceTotal(sources[i], |rosters[i]|, renewable), costs, rules);
      forall c ensures At(costs, c) == TotalValue(rosters[..i + 1], totals[..i + 1], sizes[..i + 1], Value(rules, c, true)) {
        assert rosters[..i + 1][..i] == rosters[..i] && totals[..i + 1][..i] == totals[..i] && sizes[..i + 1][..i] == sizes[..i];
      }
    }
    assert rosters[..|sources|] == rosters && totals[..|sources|] == totals && sizes[..|sources|] == sizes;
  }

  // ---------------------------------------------------------------- the whole draw

  datatype Fault = NoCompatibleSpecies(source: string) | NoAmmunition

  /** The emissions a draw promises: every source's bodies, every emission counted once, every body
    * compatible, and the counts by category agreeing with a recount. */
  ghost predicate DrawOk(d: Drawn, sources: seq<Source>, counts: Counts, eligible: seq<seq<Species>>, renewable: bool, rules: Rules) {
    && |d.rosters| == |sources|
    && (forall i | 0 <= i < |sources| :: |d.rosters[i]| == Get(counts, sources[i].id))
    && Counted(d, Totals(sources, counts, renewable), Sizes(sources, counts), rules)
    && Compatible(d.rosters, eligible)
  }

  /** Supply positions worth exactly the requirement are fodder and limited to ammunition; the others are as made. */
  ghost predicate SetAsideBy(made: seq<Item>, kept: seq<Item>, reserved: set<nat>, required: nat, rules: Rules) {
    && |kept| == |made| && Positions(made, reserved, rules) && Weight(Weights(made), reserved) == required
    && (required == 0 ==> kept == made)
    && forall k | 0 <= k < |made| ::
         if k in reserved && required != 0 then AmmoLeft(made[k], kept[k], rules) else kept[k] == made[k]
  }

  lemma AllEligible(items: seq<Item>, totals: seq<nat>, sizes: seq<nat>)
    requires ItemsOk(items, totals, sizes)
    ensures forall k | 0 <= k < |items| :: items[k].eligible != []
  {
    forall k | 0 <= k < |items| ensures items[k].eligible != [] {
      assert ItemOk(items, k, totals, sizes);
    }
  }

  /** Sets ammunition aside, if any is required. */
  method SetAmmoAside(items: seq<Item>, order: seq<nat>, ammoRequired: nat, supplies: set<nat>, rules: Rules,
                      ghost totals: seq<nat>, ghost sizes: seq<nat>)
    returns (r: Option<seq<Item>>, ghost reserved: set<nat>)
    requires Shuffled(order, |items|) && rules.Valid() && ItemsOk(items, totals, sizes)
    requires forall k | 0 <= k < |items| :: items[k].selected.None?
    ensures r.Some? <==> ammoRequired == 0 || Reachable(items, ammoRequired, rules)
    ensures r.Some? ==> Narrowed(items, r.value) && Drawable(r.value, rules) && ItemsOk(r.value, totals, sizes)
    ensures r.Some? ==> SetAsideBy(items, r.value, reserved, ammoRequired, rules)
  {
    AllEligible(items, totals, sizes);
    if ammoRequired == 0 {
      return Some(items), {};
    }
    ghost var chosen;
    r, chosen := ReserveAmmo(items, order, ammoRequired, supplies, rules);
    reserved := Members(chosen);
    if r.Some? {
      NarrowedOk(items, r.value, totals, sizes);
      assert forall k | 0 <= k < |items| :: k in chosen <==> k in reserved;
    }
  }

  lemma SameWeights(before: seq<Item>, after: seq<Item>)
    requires Narrowed(before, after)
    ensures Weights(after) == Weights(before)
  {}

  function Rank(c: Category): int {
    if c == "superheavy" then 0 else if c == "heavy" then 1 else if c == "stationary" then 2 else if c == FODDER then 3 else -1
  }

  /** Special species first, then the weight classes in rank order, then by name. */
  function CategoryOrder(special: set<Category>): (Category, Category) -> bool {
    (a: Category, b: Category) =>
      || (a in special && b !in special)
      || ((a in special <==> b in special) && (Rank(a) < Rank(b) || (Rank(a) == Rank(b) && TextLeq(a, b))))
  }

  lemma CategoryOrdering(special: set<Category>)
    ensures Ordering(CategoryOrder(special))
  {
    var less := CategoryOrder(special);
    forall x, y ensures less(x, y) || less(y, x) { TextTotal(x, y); }
    forall x, y, z | less(x, y) && less(y, z) ensures less(x, z) {
      if TextLeq(x, y) && TextLeq(y, z) { TextTransitive(x, y, z); }
    }
  }

  /** The turns: every category of the budget, once each, in order. */
  ghost predicate InTurn(categories: seq<Category>, budget: Tally, special: set<Category>) {
    SortedBy(categories, CategoryOrder(special)) && Distinct(categories) && forall c :: c in categories <==> c in budget
  }

  /** The categories of a budget, in the order the budget lists them. */
  ghost predicate Names(names: seq<Category>, budget: Tally) {
    Distinct(names) && forall c :: c in names <==> c in budget
  }

  /** Special species first; then the categories that are no weight class by name, the superheavy, the heavy, the
    * stationary and the fodder. */
  ghost predicate TurnBefore(a: Category, b: Category, special: set<Category>) {
    var classes := ["superheavy", "heavy", "stationary", "fodder"];
    if (a in special) != (b in special) then a in special
    else if a in classes then exists i, j | 0 <= i < j < 4 :: classes[i] == a && classes[j] == b
    else b in classes || a <= b || exists k: nat :: SmallerAt(a, b, k)
  }

  lemma RankIsClass(c: Category)
    ensures var classes := ["superheavy", "heavy", "stationary", "fodder"];
            if c in classes then 0 <= Rank(c) < 4 && classes[Rank(c)] == c else Rank(c) == -1
  {
    var classes := ["superheavy", "heavy", "stationary", "fodder"];
    if c in classes {
      assert c == classes[0] || c == classes[1] || c == classes[2] || c == classes[3];
    } else {
      assert classes[0] in classes && classes[1] in classes && classes[2] in classes && classes[3] in classes;
    }
  }

  lemma TurnOrder(a: Category, b: Category, special: set<Category>)
    requires CategoryOrder(special)(a, b) && a != b
    ensures TurnBefore(a, b, special)
  {
    RankIsClass(a);
    RankIsClass(b);
    TextLeqMeans(a, b);
    var classes := ["superheavy", "heavy", "stationary", "fodder"];
    if (a in special <==> b in special) && a in classes {
      assert classes[Rank(a)] == a && classes[Rank(b)] == b;
    }
  }

  method TurnsOf(names: seq<Category>, ghost budget: Tally, special: set<Category>) returns (categories: seq<Category>)
    requires Names(names, budget)
    ensures InTurn(categories, budget, special)
    ensures forall i, j | 0 <= i < j < |categories| :: TurnBefore(categories[i], categories[j], special)
  {
    categories := SortBy(names, CategoryOrder(special));
    CategoryOrdering(special);
    SortCorrect(names, CategoryOrder(special));
    SortKeeps(names, CategoryOrder(special));
    forall i, j | 0 <= i < j < |categories| ensures TurnBefore(categories[i], categories[j], special) {
      TurnOrder(categories[i], categories[j], special);
    }
  }

  ghost predicate TurnAt(stages: seq<seq<Item>>, categories: seq<Category>, budget: Tally, rules: Rules, i: nat) {
    i < |categories| && i + 1 < |stages| && Turn(stages[i], stages[i + 1], categories[i], At(budget, categories[i]), rules)
  }

  /** The items before the first turn, after it, after the second, and so on. */
  ghost predicate Turns(stages: seq<seq<Item>>, categories: seq<Category>, budget: Tally, rules: Rules) {
    |stages| == |categories| + 1 && forall i: nat | i < |categories| :: TurnAt(stages, categories, budget, rules, i)
  }

  /** The items of the sources in order, each allowed what its source allows and none selected. */
  ghost predicate Made(made: seq<Item>, eligible: seq<seq<Species>>, totals: seq<nat>, sizes: seq<nat>) {
    && ItemsOk(made, totals, sizes) && |eligible| == |sizes|
    && forall k | 0 <= k < |made| :: made[k].source < |sizes| && made[k].eligible == eligible[made[k].source] && made[k].selected.None?
  }

  /** The budget once the ammunition has been paid for from the fodder. */
  function BudgetLeft(budget: Tally, ammoRequired: nat): Tally {
    if ammoRequired == 0 then budget else budget[FODDER := At(budget, FODDER) - ammoRequired]
  }

  lemma BudgetLeftMeans(budget: Tally, ammoRequired: nat, c: Category)
    ensures var left := BudgetLeft(budget, ammoRequired);
            && At(left, c) == (if c == "fodder" then At(budget, c) - ammoRequired else At(budget, c))
            && (c in left <==> c in budget || (c == "fodder" && ammoRequired > 0))
  {}

  /** How the items were selected: ammunition set aside first, then each category of what is left of the budget in its turn. */
  ghost predicate Selected(made: seq<Item>, stages: seq<seq<Item>>, budget: Tally, ammoRequired: nat, rules: Rules) {
    && stages != []
    && (exists reserved :: SetAsideBy(made, stages[0], reserved, ammoRequired, rules))
    && var left := BudgetLeft(budget, ammoRequired);
       exists categories :: InTurn(categories, left, rules.special) && Turns(stages, categories, left, rules)
  }

  /** What the positions look like once every category has had its turn. */
  ghost predicate Arranged(items: seq<Item>, eligible: seq<seq<Species>>, totals: seq<nat>, sizes: seq<nat>, ammoRequired: nat, rules: Rules) {
    && ItemsOk(items, totals, sizes) && Drawable(items, rules) && |eligible| == |sizes|
    && (forall k, s | 0 <= k < |items| && s in items[k].eligible :: items[k].source < |sizes| && s in eligible[items[k].source])
    && ammoRequired <= SelectedWeight(items, |items|, FODDER)
  }

  /** Some source with bodies to place has no species it may place. */
  predicate Unplaceable(sources: seq<Source>, counts: Counts, eligible: seq<seq<Species>>)
    requires |eligible| == |sources|
  {
    exists i | 0 <= i < |sources| :: 0 < Get(counts, sources[i].id) && eligible[i] == []
  }

  /** One stage more, after the turn of the next category. */
  lemma NextTurn(stages: seq<seq<Item>>, next: seq<Item>, categories: seq<Category>, budget: Tally, rules: Rules, i: nat)
    requires i < |categories| && Turns(stages, categories[..i], budget, rules)
    requires Turn(stages[|stages| - 1], next, categories[i], At(budget, categories[i]), rules)
    ensures Turns(stages + [next], categories[..i + 1], budget, rules)
  {
    var more, done := stages + [next], categories[..i + 1];
    forall j: nat | j < |done| ensures TurnAt(more, done, budget, rules, j) {
      if j < i { assert TurnAt(stages, categories[..i], budget, rules, j); }
    }
  }

  /** Category by category, in the given order; what an earlier step selected stays selected. */
  method SelectAll(before: seq<Item>, order: seq<nat>, budget: Tally, categories: seq<Category>, rules: Rules,
                   ghost totals: seq<nat>, ghost sizes: seq<nat>) returns (items: seq<Item>, ghost stages: seq<seq<Item>>)
    requires Shuffled(order, |before|) && Drawable(before, rules) && ItemsOk(before, totals, sizes)
    ensures Narrowed(before, items) && Drawable(items, rules) && ItemsOk(items, totals, sizes)
    ensures forall k | 0 <= k < |items| && before[k].selected.Some? :: items[k] == before[k]
    ensures Turns(stages, categories, budget, rules) && stages[0] == before && stages[|stages| - 1] == items
  {
    items, stages := before, [before];
    AllEligible(before, totals, sizes);
    for i := 0 to |categories|
      invariant Narrowed(before, items) && Drawable(items, rules) && ItemsOk(items, totals, sizes)
      invariant forall k | 0 <= k < |items| && before[k].selected.Some? :: items[k] == before[k]
      invariant Turns(stages, categories[..i], budget, rules) && stages[0] == before && stages[|stages| - 1] == items
    {
      AllEligible(items, totals, sizes);
      var next := SelectCategory(items, order, categories[i], At(budget, categories[i]), rules);
      NarrowedOk(items, next, totals, sizes);
      NextTurn(stages, next, categories, budget, rules, i);
      items, stages := next, stages + [next];
    }
    assert categories[..|categories|] == categories;
  }

  lemma AmmoIsSelected(made: seq<Item>, kept: seq<Item>, items: seq<Item>, reserved: set<nat>, required: nat, rules: Rules)
    requires SetAsideBy(made, kept, reserved, required, rules) && Narrowed(made, kept) && Narrowed(kept, items)
    requires forall k | 0 <= k < |kept| && kept[k].selected.Some? :: items[k] == kept[k]
    ensures required <= SelectedWeight(items, |items|, FODDER)
  {
    if required != 0 {
      SameWeights(made, kept);
      SameWeights(kept, items);
      SelectedAtLeast(items, |items|, FODDER, reserved);
    }
  }

  lemma NarrowedTwice(a: seq<Item>, b: seq<Item>, c: seq<Item>)
    requires Narrowed(a, b) && Narrowed(b, c)
    ensures Narrowed(a, c)
  {}

  lemma SelectedInTurns(made: seq<Item>, stages: seq<seq<Item>>, reserved: set<nat>, categories: seq<Category>, budget: Tally,
                        ammoRequired: nat, rules: Rules)
    requires stages != [] && SetAsideBy(made, stages[0], reserved, ammoRequired, rules)
    requires InTurn(categories, BudgetLeft(budget, ammoRequired), rules.special)
    requires Turns(stages, categories, BudgetLeft(budget, ammoRequired), rules)
    ensures Selected(made, stages, budget, ammoRequired, rules)
  {}

  /** The categories of what is left of the budget, in their turns. */
  method TurnsLeft(budget: Tally, names: seq<Category>, ammoRequired: nat, special: set<Category>) returns (categories: seq<Category>)
    requires Names(names, budget)
    ensures InTurn(categories, BudgetLeft(budget, ammoRequired), special)
  {
    var more := if ammoRequired == 0 || FODDER in names then names else names + [FODDER];
    categories := TurnsOf(more, BudgetLeft(budget, ammoRequired), special);
  }

  /** Selects made items, ammunition first; it fails exactly when no supply positions are worth the requirement. */
  method SelectItems(made: seq<Item>, order: seq<nat>, budget: Tally, names: seq<Category>, supplies: set<nat>, ammoRequired: nat,
                     rules: Rules, ghost totals: seq<nat>, ghost sizes: seq<nat>)
    returns (r: Option<seq<Item>>, ghost stages: seq<seq<Item>>)
    requires Shuffled(order, |made|) && rules.Valid() && ItemsOk(made, totals, sizes) && Names(names, budget)
    requires forall k | 0 <= k < |made| :: made[k].selected.None?
    ensures r.None? <==> ammoRequired != 0 && !Reachable(made, ammoRequired, rules)
    ensures r.Some? ==>
              && ItemsOk(r.value, totals, sizes) && Drawable(r.value, rules) && Narrowed(made, r.value)
              && ammoRequired <= SelectedWeight(r.value, |r.value|, FODDER)
              && Selected(made, stages, budget, ammoRequired, rules) && stages[|stages| - 1] == r.value
  {
    stages := [];
    var kept;
    ghost var reserved;
    kept, reserved := SetAmmoAside(made, order, ammoRequired, supplies, rules, totals, sizes);
    if kept.None? {
      return None, stages;
    }
    var left := BudgetLeft(budget, ammoRequired);
    var categories := TurnsLeft(budget, names, ammoRequired, rules.special);
    var selected;
    selected, stages := SelectAll(kept.value, order, left, categories, rules, totals, sizes);
    AmmoIsSelected(made, kept.value, selected, reserved, ammoRequired, rules);
    NarrowedTwice(made, kept.value, selected);
    SelectedInTurns(made, stages, reserved, categories, budget, ammoRequired, rules);
    r := Some(selected);
  }

  /** Makes the items and selects them; it fails exactly when a source is unplaceable or, after that, when no
    * supply positions are worth exactly the required ammunition. */
  method Arrange(sources: seq<Source>, counts: Counts, budget: Tally, names: seq<Category>, eligible: seq<seq<Species>>,
                 shuffle: nat -> seq<nat>, supplies: set<nat>, ammoRequired: nat, renewable: bool, rules: Rules)
    returns (r: Result<seq<Item>, Fault>, ghost made: seq<Item>, ghost stages: seq<seq<Item>>)
    requires |eligible| == |sources| && rules.Valid() && forall n: nat :: Shuffled(shuffle(n), n)
    requires Names(names, budget)
    ensures r.Err? && r.error.NoCompatibleSpecies? <==> Unplaceable(sources, counts, eligible)
    ensures !Unplaceable(sources, counts, eligible) ==>
              && Made(made, eligible, Totals(sources, counts, renewable), Sizes(sources, counts))
              && (r.Err? <==> ammoRequired != 0 && !Reachable(made, ammoRequired, rules))
    ensures r.Ok? ==>
              && Arranged(r.value, eligible, Totals(sources, counts, renewable), Sizes(sources, counts), ammoRequired, rules)
              && Selected(made, stages, budget, ammoRequired, rules) && stages[|stages| - 1] == r.value
  {
    ghost var totals, sizes := Totals(sources, counts, renewable), Sizes(sources, counts);
    made, stages := [], [];
    var items := MakeItems(sources, counts, eligible, renewable);
    if items.Err? {
      return Err(NoCompatibleSpecies(items.error)), made, stages;
    }
    made := items.value;
    var selected;
    selected, stages := SelectItems(items.value, shuffle(|items.value|), budget, names, supplies, ammoRequired, rules, totals, sizes);
    if selected.None? {
      return Err(NoAmmunition), made, stages;
    }
    r := Ok(selected.value);
  }

  method DrawArranged(items: seq<Item>, sources: seq<Source>, counts: Counts, eligible: seq<seq<Species>>, ghost ammoRequired: nat,
                      ghost renewable: bool, rules: Rules) returns (d: Drawn)
    requires |eligible| == |sources|
    requires Arranged(items, eligible, Totals(sources, counts, renewable), Sizes(sources, counts), ammoRequired, rules)
    ensures DrawOk(d, sources, counts, eligible, renewable, rules)
    ensures forall item | item in items :: DrawnFor(item, d.rosters, rules)
    ensures ammoRequired <= At(d.actual, FODDER)
  {
    d := DrawAll(items, |sources|, rules, eligible, Totals(sources, counts, renewable), Sizes(sources, counts));
  }

  /** Draws a species for every body of every source. */
  method DrawBodies(sources: seq<Source>, counts: Counts, budget: Tally, names: seq<Category>, eligible: seq<seq<Species>>,
                    shuffle: nat -> seq<nat>, supplies: set<nat>, ammoRequired: nat, renewable: bool, rules: Rules)
    returns (r: Result<Drawn, Fault>, ghost made: seq<Item>, ghost stages: seq<seq<Item>>)
    requires |eligible| == |sources| && rules.Valid() && forall n: nat :: Shuffled(shuffle(n), n)
    requires Names(names, budget)
    ensures r.Err? && r.error.NoCompatibleSpecies? <==> Unplaceable(sources, counts, eligible)
    ensures !Unplaceable(sources, counts, eligible) ==>
              && Made(made, eligible, Totals(sources, counts, renewable), Sizes(sources, counts))
              && (r.Err? <==> ammoRequired != 0 && !Reachable(made, ammoRequired, rules))
    ensures r.Ok? ==> DrawOk(r.value, sources, counts, eligible, renewable, rules)
    ensures r.Ok? ==>
              && Selected(made, stages, budget, ammoRequired, rules)
              && forall item | item in stages[|stages| - 1] :: DrawnFor(item, r.value.rosters, rules)
    ensures r.Ok? ==> ammoRequired <= At(r.value.actual, FODDER)
  {
    var items;
    items, made, stages := Arrange(sources, counts, budget, names, eligible, shuffle, supplies, ammoRequired, renewable, rules);
    if items.Err? {
      return Err(items.error), made, stages;
    }
    var d := DrawArranged(items.value, sources, counts, eligible, ammoRequired, renewable, rules);
    r := Ok(d);
  }
}
