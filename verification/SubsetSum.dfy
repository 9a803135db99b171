/** Choosing positions whose weights fill a budget as far as any choice can. */
module SubsetSum {
  import opened Foundations

  function WeightAt(weights: seq<nat>): nat -> int {
    (i: nat) => if i < |weights| then weights[i] else 0
  }

  ghost function Weight(weights: seq<nat>, chosen: set<nat>): nat {
    SetSumNonNegative(chosen, WeightAt(weights));
    SetSum(chosen, WeightAt(weights))
  }

  lemma WeightSplit(weights: seq<nat>, chosen: set<nat>, x: nat)
    requires x in chosen && x < |weights|
    ensures Weight(weights, chosen) == weights[x] + Weight(weights, chosen - {x})
  {
    SetSumSplit(chosen, WeightAt(weights), x);
  }

  /** Reachable totals in insertion order, each with one selection that reaches it. */
  datatype States = States(order: seq<nat>, table: map<nat, seq<nat>>)

  ghost predicate Reaches(selected: seq<nat>, t: nat, weights: seq<nat>, needed: int, candidates: seq<nat>) {
    && t <= Max(needed, 0) && Distinct(selected) && (forall i | i in selected :: i in candidates)
    && Sum(selected, WeightAt(weights)) == t
  }

  lemma ReachedWeight(selected: seq<nat>, t: nat, weights: seq<nat>, needed: int, candidates: seq<nat>)
    requires Reaches(selected, t, weights, needed, candidates)
    ensures Members(selected) <= Members(candidates) && Weight(weights, Members(selected)) == t
  {
    SumIsSetSum(selected, WeightAt(weights));
  }

  /** Every entry is a selection of distinct candidates with that total. */
  ghost predicate Sound(states: States, weights: seq<nat>, needed: int, candidates: seq<nat>)
    requires forall i | i in candidates :: i < |weights|
  {
    && 0 in states.table
    && (forall t :: t in states.order <==> t in states.table)
    && forall t | t in states.table :: Reaches(states.table[t], t, weights, needed, candidates)
  }

  lemma OneMoreReaches(selected: seq<nat>, t: nat, weights: seq<nat>, needed: int, earlier: seq<nat>, x: nat)
    requires x < |weights| && x !in earlier && forall i | i in earlier :: i < |weights|
    requires Reaches(selected, t, weights, needed, earlier) && t + weights[x] <= needed
    ensures Reaches(selected + [x], t + weights[x], weights, needed, earlier + [x])
  {
    SumSnoc(selected, x, WeightAt(weights));
  }

  /** Every total within the budget that some set of candidates reaches has an entry. */
  ghost predicate Complete(states: States, weights: seq<nat>, needed: int, candidates: seq<nat>)
    requires forall i | i in candidates :: i < |weights|
  {
    forall chosen: set<nat> | chosen <= Members(candidates) && Weight(weights, chosen) <= needed ::
      Weight(weights, chosen) in states.table
  }

  lemma SoundlyExtended(states: States, weights: seq<nat>, needed: int, earlier: seq<nat>, x: nat, t: nat, selected: seq<nat>)
    requires x < |weights| && x !in earlier && forall i | i in earlier :: i < |weights|
    requires Sound(states, weights, needed, earlier + [x])
    requires Reaches(selected, t, weights, needed, earlier) && t + weights[x] <= needed
    ensures var v := t + weights[x];
            Sound(States(states.order + [v], states.table[v := selected + [x]]), weights, needed, earlier + [x])
  {
    OneMoreReaches(selected, t, weights, needed, earlier, x);
  }

  lemma SoundlyKept(states: States, weights: seq<nat>, needed: int, earlier: seq<nat>, x: nat)
    requires x < |weights| && forall i | i in earlier :: i < |weights|
    requires Sound(states, weights, needed, earlier)
    ensures Sound(states, weights, needed, earlier + [x])
  {
    forall t | t in states.table ensures Reaches(states.table[t], t, weights, needed, earlier + [x]) {
      assert Reaches(states.table[t], t, weights, needed, earlier);
    }
  }

  /** A total keeps the selection that reached it first. */
  ghost predicate KeptEntries(before: States, after: States) {
    forall t | t in before.table :: t in after.table && after.table[t] == before.table[t]
  }

  ghost predicate Offered(before: States, after: States, w: nat, needed: int, k: nat) {
    && KeptEntries(before, after)
    && forall j | k <= j < |before.order| && before.order[j] + w <= needed :: before.order[j] + w in after.table
  }

  lemma CompletelyExtended(before: States, after: States, weights: seq<nat>, needed: int, earlier: seq<nat>, x: nat)
    requires x < |weights| && x !in earlier && forall i | i in earlier :: i < |weights|
    requires Sound(before, weights, needed, earlier) && Complete(before, weights, needed, earlier)
    requires Offered(before, after, weights[x], needed, 0)
    ensures Complete(after, weights, needed, earlier + [x])
  {
    forall chosen: set<nat> | chosen <= Members(earlier + [x]) && Weight(weights, chosen) <= needed
      ensures Weight(weights, chosen) in after.table
    {
      if x in chosen {
        WeightSplit(weights, chosen, x);
        assert chosen - {x} <= Members(earlier);
        var t := Weight(weights, chosen - {x});
        assert t in before.table;
        var j :| 0 <= j < |before.order| && before.order[j] == t;
      } else {
        assert chosen <= Members(earlier);
      }
    }
  }

  /** Adds the total with `x` on top, unless it is over the budget or has an entry. */
  method OfferTotal(states: States, weights: seq<nat>, needed: int, ghost earlier: seq<nat>, x: nat, total: nat, selected: seq<nat>)
    returns (after: States)
    requires x < |weights| && x !in earlier && forall i | i in earlier :: i < |weights|
    requires Sound(states, weights, needed, earlier + [x]) && Reaches(selected, total, weights, needed, earlier)
    ensures Sound(after, weights, needed, earlier + [x]) && KeptEntries(states, after)
    ensures total + weights[x] <= needed ==> total + weights[x] in after.table
  {
    after := states;
    var value := total + weights[x];
    if value <= needed && value !in states.table {
      SoundlyExtended(states, weights, needed, earlier, x, total, selected);
      after := States(states.order + [value], states.table[value := selected + [x]]);
    }
  }

  /** Candidate `x` has been offered to the entries of `before` from position `k` on. */
  ghost predicate OfferedFrom(before: States, states: States, weights: seq<nat>, needed: int, earlier: seq<nat>, x: nat, k: nat) {
    && x < |weights| && x !in earlier && (forall i | i in earlier :: i < |weights|) && k <= |before.order|
    && Sound(before, weights, needed, earlier) && Sound(states, weights, needed, earlier + [x])
    && Offered(before, states, weights[x], needed, k)
  }

  lemma ListedReaches(states: States, weights: seq<nat>, needed: int, candidates: seq<nat>, k: nat)
    requires (forall i | i in candidates :: i < |weights|) && Sound(states, weights, needed, candidates) && k < |states.order|
    ensures states.order[k] in states.table
    ensures Reaches(states.table[states.order[k]], states.order[k], weights, needed, candidates)
  {}

  lemma OfferedNext(before: States, states: States, after: States, w: nat, needed: int, k: nat)
    requires k < |before.order| && Offered(before, states, w, needed, k + 1) && KeptEntries(states, after)
    requires before.order[k] + w <= needed ==> before.order[k] + w in after.table
    ensures Offered(before, after, w, needed, k)
  {}

  method OfferNext(before: States, states: States, weights: seq<nat>, needed: int, ghost earlier: seq<nat>, x: nat, k: nat)
    returns (after: States)
    requires OfferedFrom(before, states, weights, needed, earlier, x, k + 1)
    ensures OfferedFrom(before, after, weights, needed, earlier, x, k)
  {
    var total := before.order[k];
    ListedReaches(before, weights, needed, earlier, k);
    after := OfferTotal(states, weights, needed, earlier, x, total, before.table[total]);
    OfferedNext(before, states, after, weights[x], needed, k);
  }

  /** Offers candidate `x` to every total reached before it, newest first. */
  method OfferCandidate(before: States, weights: seq<nat>, needed: int, ghost earlier: seq<nat>, x: nat) returns (states: States)
    requires x < |weights| && x !in earlier && forall i | i in earlier :: i < |weights|
    requires Sound(before, weights, needed, earlier)
    ensures Sound(states, weights, needed, earlier + [x]) && Offered(before, states, weights[x], needed, 0)
  {
    states := before;
    SoundlyKept(before, weights, needed, earlier, x);
    var k: nat := |before.order|;
    while k > 0
      invariant OfferedFrom(before, states, weights, needed, earlier, x, k)
    {
      k := k - 1;
      states := OfferNext(before, states, weights, needed, earlier, x, k);
    }
  }

  /** No set of candidates within the budget weighs more. */
  ghost predicate Fullest(weights: seq<nat>, needed: int, candidates: seq<nat>, chosen: seq<nat>)
    requires forall i | i in candidates :: i < |weights|
  {
    && Distinct(chosen) && Members(chosen) <= Members(candidates)
    && Weight(weights, Members(chosen)) <= Max(needed, 0)
    && forall other: set<nat> | other <= Members(candidates) && Weight(weights, other) <= needed ::
         Weight(weights, other) <= Weight(weights, Members(chosen))
  }

  /** The weights at the chosen positions. */
  ghost function WeightsOf(weights: seq<nat>, chosen: seq<nat>): seq<int>
    requires forall i | i in chosen :: i < |weights|
  {
    seq(|chosen|, k requires 0 <= k < |chosen| => assert chosen[k] in chosen; weights[chosen[k]])
  }

  /** The choice is of different candidates, fits the budget (or is empty under a negative one), and no other choice that
    * fits adds up to more. */
  ghost predicate NoneFuller(weights: seq<nat>, needed: int, candidates: seq<nat>, chosen: seq<nat>)
    requires forall i | i in candidates :: i < |weights|
  {
    && (forall i, j | 0 <= i < j < |chosen| :: chosen[i] != chosen[j]) && (forall i | i in chosen :: i in candidates)
    && Added(WeightsOf(weights, chosen)) <= (if needed < 0 then 0 else needed)
    && forall other: seq<nat> | Distinct(other) && (forall i | i in other :: i in candidates)
                                && Added(WeightsOf(weights, other)) <= needed ::
         Added(WeightsOf(weights, other)) <= Added(WeightsOf(weights, chosen))
  }

  lemma ChosenWeight(weights: seq<nat>, chosen: seq<nat>)
    requires Distinct(chosen) && forall i | i in chosen :: i < |weights|
    ensures Weight(weights, Members(chosen)) == Added(WeightsOf(weights, chosen))
  {
    SumIsSetSum(chosen, WeightAt(weights));
    assert forall k | 0 <= k < |chosen| :: chosen[k] in chosen;
    SumIsAdded(chosen, WeightAt(weights), WeightsOf(weights, chosen));
  }

  lemma FullestMeans(weights: seq<nat>, needed: int, candidates: seq<nat>, chosen: seq<nat>)
    requires forall i | i in candidates :: i < |weights|
    requires Fullest(weights, needed, candidates, chosen)
    ensures NoneFuller(weights, needed, candidates, chosen)
  {
    forall i | i in chosen ensures i in candidates {
      assert i in Members(chosen);
    }
    ChosenWeight(weights, chosen);
    forall other: seq<nat> | Distinct(other) && (forall i | i in other :: i in candidates)
                             && Added(WeightsOf(weights, other)) <= needed
      ensures Added(WeightsOf(weights, other)) <= Added(WeightsOf(weights, chosen))
    {
      ChosenWeight(weights, other);
      assert Members(other) <= Members(candidates);
    }
  }

  method Subset(weights: seq<nat>, needed: int, candidates: seq<nat>) returns (chosen: seq<nat>)
    requires Distinct(candidates) && forall i | i in candidates :: i < |weights|
    ensures Fullest(weights, needed, candidates, chosen) && NoneFuller(weights, needed, candidates, chosen)
  {
    var states := States([0], map[0 := []]);
    assert Members<nat>([]) == {};
    for k := 0 to |candidates|
      invariant forall i | i in candidates[..k] :: i < |weights|
      invariant Sound(states, weights, needed, candidates[..k]) && Complete(states, weights, needed, candidates[..k])
    {
      assert candidates[..k + 1] == candidates[..k] + [candidates[k]];
      assert candidates[k] in candidates;
      var offered := OfferCandidate(states, weights, needed, candidates[..k], candidates[k]);
      CompletelyExtended(states, offered, weights, needed, candidates[..k], candidates[k]);
      states := offered;
      if 0 <= needed && needed in states.table {
        assert forall i | i in candidates[..k + 1] :: i in candidates;
        ReachedWeight(states.table[needed], needed, weights, needed, candidates);
        FullestMeans(weights, needed, candidates, states.table[needed]);
        return states.table[needed];
      }
    }
    assert candidates[..|candidates|] == candidates;
    var best := Largest(states.order);
    chosen := states.table[best];
    ReachedWeight(chosen, best, weights, needed, candidates);
    FullestMeans(weights, needed, candidates, chosen);
  }

  /** A budget that can be met exactly is met exactly. */
  lemma ExactWhenPossible(weights: seq<nat>, needed: nat, candidates: seq<nat>, chosen: seq<nat>, exact: set<nat>)
    requires forall i | i in candidates :: i < |weights|
    requires Fullest(weights, needed, candidates, chosen)
    requires exact <= Members(candidates) && Weight(weights, exact) == needed
    ensures Weight(weights, Members(chosen)) == needed
  {}
}
