/** Distribution of an encounter's emission target over its spawn sources. */
module EmissionAllocation {
  import opened Foundations

  /** The category that ammunition is drawn from. */
  const FODDER := "fodder"

  datatype Source = Source(id: string, logicalCount: pos, maximumEmissions: nat)

  /** The spawns a source emits for `bodies` bodies, rounded up to a whole emission. */
  function Emissions(s: Source, bodies: nat): nat {
    (s.maximumEmissions * bodies + s.logicalCount - 1) / s.logicalCount
  }

  lemma MulMono(a: int, b: int, c: nat)
    requires a <= b
    ensures a * c <= b * c
  {}

  lemma CeilDivision(n: nat, d: pos, t: nat)
    ensures (n + d - 1) / d <= t <==> n <= t * d
  {
    var q := (n + d - 1) / d;
    assert q * d <= n + d - 1 < q * d + d;
    if q <= t {
      MulMono(q, t, d);
    } else {
      MulMono(t + 1, q, d);
      assert (t + 1) * d == t * d + d;
    }
  }

  /** A source stays within `t` emissions exactly when its share of the quota does. */
  lemma EmissionsWithin(s: Source, bodies: nat, t: nat)
    ensures Emissions(s, bodies) <= t <==> s.maximumEmissions * bodies <= t * s.logicalCount
  {
    CeilDivision(s.maximumEmissions * bodies, s.logicalCount, t);
  }

  lemma EmissionsMonotone(s: Source, fewer: nat, more: nat)
    requires fewer <= more
    ensures Emissions(s, fewer) <= Emissions(s, more)
  {
    EmissionsWithin(s, more, Emissions(s, more));
    MulMono(fewer, more, s.maximumEmissions);
    EmissionsWithin(s, fewer, Emissions(s, more));
  }

  lemma EmissionsZero(s: Source)
    ensures Emissions(s, 0) == 0
  {
    EmissionsWithin(s, 0, 0);
  }

  /** A source whose quota equals its logical count emits once per body. */
  predicate Single(s: Source) {
    s.logicalCount == s.maximumEmissions
  }

  lemma SingleEmissions(s: Source, bodies: nat)
    requires Single(s)
    ensures Emissions(s, bodies) == bodies
  {
    EmissionsWithin(s, bodies, bodies);
    if bodies > 0 {
      EmissionsWithin(s, bodies, bodies - 1);
      assert s.maximumEmissions * bodies == (bodies - 1) * s.logicalCount + s.logicalCount;
    }
  }

  // ---------------------------------------------------------------- exact knapsack

  function Total(sources: seq<Source>, v: seq<nat>): nat
    requires |v| == |sources|
  {
    if sources == [] then 0
    else var n := |sources| - 1; Total(sources[..n], v[..n]) + Emissions(sources[n], v[n])
  }

  function Abs(x: int): nat {
    if x < 0 then -x else x
  }

  /** How far one source's emissions stray from its proportional share, scaled by `original`. */
  function Stray(s: Source, emitted: nat, original: nat, target: nat): nat {
    Abs(emitted * original - target * s.maximumEmissions)
  }

  function Deviation(sources: seq<Source>, v: seq<nat>, original: nat, target: nat): nat
    requires |v| == |sources|
  {
    if sources == [] then 0
    else
      var n := |sources| - 1;
      Deviation(sources[..n], v[..n], original, target) + Stray(sources[n], Emissions(sources[n], v[n]), original, target)
  }

  datatype Partial = Partial(distance: nat, counts: seq<nat>)

  /** A dictionary together with its insertion order. */
  datatype States = States(order: seq<nat>, table: map<nat, Partial>)

  function Offer(states: States, total: nat, entry: Partial): States {
    if total in states.table then
      if entry.distance < states.table[total].distance then states.(table := states.table[total := entry]) else states
    else States(states.order + [total], states.table[total := entry])
  }

  /** The entry kept for a total is the first of those equally near, and gives way only to a nearer one. */
  lemma FirstIsKept(states: States, total: nat, entry: Partial, other: nat)
    ensures other in states.table && (other != total || states.table[total].distance <= entry.distance) ==>
              other in Offer(states, total, entry).table && Offer(states, total, entry).table[other] == states.table[other]
    ensures total !in states.table || entry.distance < states.table[total].distance ==>
              total in Offer(states, total, entry).table && Offer(states, total, entry).table[total] == entry
    ensures Offer(states, total, entry).order == if total in states.table then states.order else states.order + [total]
  {}

  ghost predicate Sound(states: States, sources: seq<Source>, original: nat, target: nat) {
    && (forall t :: t in states.order <==> t in states.table)
    && (forall t | t in states.table ::
          && t <= target
          && |states.table[t].counts| == |sources|
          && Total(sources, states.table[t].counts) == t
          && Deviation(sources, states.table[t].counts, original, target) == states.table[t].distance)
  }

  ghost predicate Covers(states: States, total: nat, distance: nat) {
    total in states.table && states.table[total].distance <= distance
  }

  /** No vector within the target beats the entry kept for its total. */
  ghost predicate Complete(states: States, sources: seq<Source>, original: nat, target: nat) {
    forall v: seq<nat> | |v| == |sources| && Total(sources, v) <= target ::
      Covers(states, Total(sources, v), Deviation(sources, v, original, target))
  }

  ghost predicate Improves(before: States, after: States) {
    forall t | t in before.table :: Covers(after, t, before.table[t].distance)
  }

  /** One body count of a source: what it emits and how far that strays. */
  datatype Choice = Choice(emitted: nat, stray: nat)

  function ChoiceOf(s: Source, count: nat, original: nat, target: nat): Choice {
    Choice(Emissions(s, count), Stray(s, Emissions(s, count), original, target))
  }

  predicate Ascending(choices: seq<Choice>) {
    forall i, j | 0 <= i <= j < |choices| :: choices[i].emitted <= choices[j].emitted
  }

  lemma RangeLosesNothing(s: Source, c: nat, target: nat)
    requires 0 < s.maximumEmissions
    ensures Emissions(s, c) <= target <==> c < target * s.logicalCount / s.maximumEmissions + 1
  {
    EmissionsWithin(s, c, target);
    var m, q := s.maximumEmissions, target * s.logicalCount / s.maximumEmissions;
    assert q * m <= target * s.logicalCount < q * m + m;
    if c <= q { MulMono(c, q, m); } else { MulMono(q + 1, c, m); assert (q + 1) * m == q * m + m; }
  }

  /** The body counts worth trying: exactly those that stay within the target on their own. */
  method Choices(s: Source, original: nat, target: nat) returns (choices: seq<Choice>)
    requires 0 < s.maximumEmissions
    ensures forall c | 0 <= c < |choices| :: choices[c] == ChoiceOf(s, c, original, target)
    ensures forall c: nat :: Emissions(s, c) <= target <==> c < |choices|
    ensures Ascending(choices)
  {
    choices := seq(target * s.logicalCount / s.maximumEmissions + 1, c requires 0 <= c => ChoiceOf(s, c, original, target));
    forall c: nat ensures Emissions(s, c) <= target <==> c < |choices| {
      RangeLosesNothing(s, c, target);
    }
    forall i, j | 0 <= i <= j < |choices| ensures choices[i].emitted <= choices[j].emitted {
      EmissionsMonotone(s, i, j);
    }
  }

  /** A kept entry extended by one more count. */
  function Extended(partial: Partial, count: nat, choice: Choice): Partial {
    Partial(partial.distance + choice.stray, partial.counts + [count])
  }

  lemma OfferSound(states: States, sources: seq<Source>, total: nat, entry: Partial, original: nat, target: nat)
    requires Sound(states, sources, original, target) && total <= target && |entry.counts| == |sources|
    requires Total(sources, entry.counts) == total && Deviation(sources, entry.counts, original, target) == entry.distance
    ensures Sound(Offer(states, total, entry), sources, original, target)
  {}

  lemma OfferCovers(states: States, total: nat, entry: Partial)
    ensures var after := Offer(states, total, entry);
            Improves(states, after) && Covers(after, total, entry.distance)
  {}

  lemma ExtendedTotals(prefix: seq<Source>, s: Source, counts: seq<nat>, count: nat, original: nat, target: nat)
    requires |counts| == |prefix|
    ensures Total(prefix + [s], counts + [count]) == Total(prefix, counts) + Emissions(s, count)
    ensures Deviation(prefix + [s], counts + [count], original, target)
         == Deviation(prefix, counts, original, target) + Stray(s, Emissions(s, count), original, target)
  {
    var all, v := prefix + [s], counts + [count];
    assert all[..|prefix|] == prefix && v[..|prefix|] == counts;
    assert all[|prefix|] == s && v[|prefix|] == count;
  }

  lemma OfferCorrect(states: States, prefix: seq<Source>, s: Source, partial: Partial, count: nat, choice: Choice,
                     original: nat, target: nat)
    requires Sound(states, prefix + [s], original, target)
    requires |partial.counts| == |prefix|
    requires choice == ChoiceOf(s, count, original, target)
    requires Total(prefix, partial.counts) + choice.emitted <= target
    requires Deviation(prefix, partial.counts, original, target) == partial.distance
    ensures var total := Total(prefix, partial.counts) + choice.emitted;
            var after := Offer(states, total, Extended(partial, count, choice));
            Sound(after, prefix + [s], original, target) && Improves(states, after)
            && Covers(after, total, partial.distance + choice.stray)
  {
    var total, entry := Total(prefix, partial.counts) + choice.emitted, Extended(partial, count, choice);
    ExtendedTotals(prefix, s, partial.counts, count, original, target);
    OfferSound(states, prefix + [s], total, entry, original, target);
    OfferCovers(states, total, entry);
  }

  ghost predicate Fits(partial: Partial, prefix: seq<Source>, current: nat, original: nat, target: nat) {
    && |partial.counts| == |prefix|
    && Total(prefix, partial.counts) == current <= target
    && Deviation(prefix, partial.counts, original, target) == partial.distance
  }

  ghost predicate ChoicesOf(choices: seq<Choice>, s: Source, original: nat, target: nat) {
    && Ascending(choices)
    && forall c | 0 <= c < |choices| :: choices[c] == ChoiceOf(s, c, original, target)
  }

  lemma ImprovesFurther(a: States, b: States, c: States)
    requires Improves(a, b) && Improves(b, c)
    ensures Improves(a, c)
  {
    forall t | t in a.table ensures Covers(c, t, a.table[t].distance) {
      assert Covers(b, t, a.table[t].distance);
      assert Covers(c, t, b.table[t].distance);
    }
  }

  /** The first `k` choices on top of a state are covered, as far as they stay within the target. */
  ghost predicate ChoicesCovered(states: States, choices: seq<Choice>, k: nat, current: nat, distance: nat, target: nat) {
    k <= |choices| && forall c | 0 <= c < k && current + choices[c].emitted <= target ::
      Covers(states, current + choices[c].emitted, distance + choices[c].stray)
  }

  lemma ChoicesCoveredNext(states: States, after: States, choices: seq<Choice>, k: nat, current: nat, distance: nat, target: nat)
    requires k < |choices| && ChoicesCovered(states, choices, k, current, distance, target) && Improves(states, after)
    requires Covers(after, current + choices[k].emitted, distance + choices[k].stray)
    ensures ChoicesCovered(after, choices, k + 1, current, distance, target)
  {
    forall c | 0 <= c < k && current + choices[c].emitted <= target
      ensures Covers(after, current + choices[c].emitted, distance + choices[c].stray)
    {
      assert Covers(states, current + choices[c].emitted, distance + choices[c].stray);
    }
  }

  lemma NoneWithin(states: States, choices: seq<Choice>, k: nat, current: nat, distance: nat, target: nat)
    requires k < |choices| && Ascending(choices) && current + choices[k].emitted > target
    requires ChoicesCovered(states, choices, k, current, distance, target)
    ensures ChoicesCovered(states, choices, |choices|, current, distance, target)
  {
    assert forall c | k <= c < |choices| :: choices[k].emitted <= choices[c].emitted;
  }

  /** Extends one state by every body count of source `s` that stays within the target. */
  method OfferCounts(following: States, ghost prefix: seq<Source>, ghost s: Source, choices: seq<Choice>,
                     current: nat, partial: Partial, ghost original: nat, target: nat) returns (states: States)
    requires ChoicesOf(choices, s, original, target)
    requires Sound(following, prefix + [s], original, target)
    requires Fits(partial, prefix, current, original, target)
    ensures Sound(states, prefix + [s], original, target) && Improves(following, states)
    ensures ChoicesCovered(states, choices, |choices|, current, partial.distance, target)
  {
    states := following;
    for count := 0 to |choices|
      invariant Sound(states, prefix + [s], original, target) && Improves(following, states)
      invariant ChoicesCovered(states, choices, count, current, partial.distance, target)
    {
      var total := current + choices[count].emitted;
      if total > target {
        NoneWithin(states, choices, count, current, partial.distance, target);
        return;
      }
      OfferCorrect(states, prefix, s, partial, count, choices[count], original, target);
      var offered := Offer(states, total, Extended(partial, count, choices[count]));
      ImprovesFurther(following, states, offered);
      ChoicesCoveredNext(states, offered, choices, count, current, partial.distance, target);
      states := offered;
    }
  }

  /** Every total that was covered is covered again with each choice of the new source on top. */
  ghost predicate ExtendedUpTo(states: States, following: States, choices: seq<Choice>, k: nat, target: nat)
    requires k <= |states.order| && forall i | 0 <= i < |states.order| :: states.order[i] in states.table
  {
    forall i, c | 0 <= i < k && 0 <= c < |choices| && states.order[i] + choices[c].emitted <= target ::
      Covers(following, states.order[i] + choices[c].emitted, states.table[states.order[i]].distance + choices[c].stray)
  }

  lemma ExtendedNext(states: States, following: States, more: States, choices: seq<Choice>, k: nat, target: nat)
    requires k < |states.order| && forall i | 0 <= i < |states.order| :: states.order[i] in states.table
    requires ExtendedUpTo(states, following, choices, k, target) && Improves(following, more)
    requires ChoicesCovered(more, choices, |choices|, states.order[k], states.table[states.order[k]].distance, target)
    ensures ExtendedUpTo(states, more, choices, k + 1, target)
  {
    forall i, c | 0 <= i < k && 0 <= c < |choices| && states.order[i] + choices[c].emitted <= target
      ensures Covers(more, states.order[i] + choices[c].emitted, states.table[states.order[i]].distance + choices[c].stray)
    {
      assert Covers(following, states.order[i] + choices[c].emitted, states.table[states.order[i]].distance + choices[c].stray);
    }
  }

  lemma AllExtended(states: States, following: States, prefix: seq<Source>, s: Source, choices: seq<Choice>, original: nat, target: nat)
    requires ChoicesOf(choices, s, original, target) && forall c: nat :: Emissions(s, c) <= target ==> c < |choices|
    requires Sound(states, prefix, original, target) && Complete(states, prefix, original, target)
    requires ExtendedUpTo(states, following, choices, |states.order|, target)
    ensures Complete(following, prefix + [s], original, target)
  {
    forall v: seq<nat> | |v| == |prefix + [s]| && Total(prefix + [s], v) <= target
      ensures Covers(following, Total(prefix + [s], v), Deviation(prefix + [s], v, original, target))
    {
      var n := |prefix|;
      assert (prefix + [s])[..n] == prefix && (prefix + [s])[n] == s;
      var t := Total(prefix, v[..n]);
      assert Covers(states, t, Deviation(prefix, v[..n], original, target));
      var i :| 0 <= i < |states.order| && states.order[i] == t;
      assert v[n] < |choices| && choices[v[n]] == ChoiceOf(s, v[n], original, target);
      assert states.order[i] + choices[v[n]].emitted <= target;
    }
  }

  method ExtendStates(states: States, ghost prefix: seq<Source>, s: Source, original: nat, target: nat) returns (following: States)
    requires 0 < s.maximumEmissions
    requires Sound(states, prefix, original, target) && Complete(states, prefix, original, target)
    ensures Sound(following, prefix + [s], original, target)
    ensures Complete(following, prefix + [s], original, target)
  {
    var choices := Choices(s, original, target);
    following := States([], map[]);
    for k := 0 to |states.order|
      invariant Sound(following, prefix + [s], original, target)
      invariant ExtendedUpTo(states, following, choices, k, target)
    {
      var more := OfferCounts(following, prefix, s, choices, states.order[k], states.table[states.order[k]], original, target);
      ExtendedNext(states, following, more, choices, k, target);
      following := more;
    }
    AllExtended(states, following, prefix, s, choices, original, target);
  }

  /** `v` reaches the greatest total within the target and, among those, the least deviation. */
  ghost predicate Optimal(sources: seq<Source>, v: seq<nat>, original: nat, target: nat)
    requires |v| == |sources|
  {
    && Total(sources, v) <= target
    && forall w: seq<nat> | |w| == |sources| && Total(sources, w) <= target ::
         && Total(sources, w) <= Total(sources, v)
         && (Total(sources, w) == Total(sources, v) ==>
               Deviation(sources, v, original, target) <= Deviation(sources, w, original, target))
  }

  lemma {:induction false} NothingEmitted(sources: seq<Source>, v: seq<nat>)
    requires |v| == |sources| && forall i | 0 <= i < |v| :: v[i] == 0
    ensures Total(sources, v) == 0
  {
    if sources != [] {
      var n := |sources| - 1;
      EmissionsZero(sources[n]);
      NothingEmitted(sources[..n], v[..n]);
    }
  }

  /** What each source emits. */
  ghost function Spawns(sources: seq<Source>, v: seq<nat>): seq<int>
    requires |v| == |sources|
  {
    seq(|sources|, i requires 0 <= i < |sources| => Emissions(sources[i], v[i]))
  }

  /** How far each source is from its proportional share of the target, in parts of the whole quota. */
  ghost function Gaps(sources: seq<Source>, v: seq<nat>, original: nat, target: nat): seq<int>
    requires |v| == |sources|
  {
    seq(|sources|, i requires 0 <= i < |sources| =>
      var emitted, share := Emissions(sources[i], v[i]) * original, target * sources[i].maximumEmissions;
      if emitted <= share then share - emitted else emitted - share)
  }

  ghost predicate ExactShares(sources: seq<Source>, v: seq<nat>, original: nat, target: nat)
    requires |v| == |sources|
  {
    forall i | 0 <= i < |sources| :: Emissions(sources[i], v[i]) * original == target * sources[i].maximumEmissions
  }

  /** `v` emits the most that fits the target; among the vectors that emit as much, it has the least sum of gaps, and
    * has the exact shares if any of them has. */
  ghost predicate NearestShares(sources: seq<Source>, v: seq<nat>, original: nat, target: nat)
    requires |v| == |sources|
  {
    && Added(Spawns(sources, v)) <= target
    && forall w: seq<nat> | |w| == |sources| && Added(Spawns(sources, w)) <= target ::
         && Added(Spawns(sources, w)) <= Added(Spawns(sources, v))
         && (Added(Spawns(sources, w)) == Added(Spawns(sources, v)) ==>
               && Added(Gaps(sources, v, original, target)) <= Added(Gaps(sources, w, original, target))
               && (ExactShares(sources, w, original, target) ==> ExactShares(sources, v, original, target)))
  }

  lemma {:induction false} TotalAdded(sources: seq<Source>, v: seq<nat>)
    requires |v| == |sources|
    ensures Total(sources, v) == Added(Spawns(sources, v))
  {
    if sources != [] {
      var n := |sources| - 1;
      TotalAdded(sources[..n], v[..n]);
      assert Spawns(sources, v)[..n] == Spawns(sources[..n], v[..n]);
    }
  }

  lemma {:induction false} DeviationAdded(sources: seq<Source>, v: seq<nat>, original: nat, target: nat)
    requires |v| == |sources|
    ensures Deviation(sources, v, original, target) == Added(Gaps(sources, v, original, target))
  {
    if sources != [] {
      var n := |sources| - 1;
      DeviationAdded(sources[..n], v[..n], original, target);
      assert Gaps(sources, v, original, target)[..n] == Gaps(sources[..n], v[..n], original, target);
    }
  }

  lemma {:induction false} NoDeviation(sources: seq<Source>, v: seq<nat>, original: nat, target: nat)
    requires |v| == |sources|
    ensures Deviation(sources, v, original, target) == 0 <==> ExactShares(sources, v, original, target)
  {
    if sources != [] {
      var n := |sources| - 1;
      NoDeviation(sources[..n], v[..n], original, target);
      assert forall i | 0 <= i < n :: sources[..n][i] == sources[i] && v[..n][i] == v[i];
    }
  }

  lemma NothingIsNearest(v: seq<nat>, original: nat, target: nat)
    requires v == []
    ensures NearestShares([], v, original, target)
  {}

  lemma OptimumIsNearest(sources: seq<Source>, v: seq<nat>, original: nat, target: nat)
    requires |v| == |sources| && Optimal(sources, v, original, target)
    ensures NearestShares(sources, v, original, target)
  {
    TotalAdded(sources, v);
    DeviationAdded(sources, v, original, target);
    NoDeviation(sources, v, original, target);
    forall w: seq<nat> | |w| == |sources|
      ensures Total(sources, w) == Added(Spawns(sources, w))
      ensures Deviation(sources, w, original, target) == Added(Gaps(sources, w, original, target))
      ensures Deviation(sources, w, original, target) == 0 <==> ExactShares(sources, w, original, target)
    {
      TotalAdded(sources, w);
      DeviationAdded(sources, w, original, target);
      NoDeviation(sources, w, original, target);
    }
  }

  method Knapsack(sources: seq<Source>, original: nat, target: nat) returns (counts: seq<nat>)
    requires forall s | s in sources :: 0 < s.maximumEmissions
    ensures |counts| == |sources| && Optimal(sources, counts, original, target)
    ensures NearestShares(sources, counts, original, target)
  {
    var states := States([0], map[0 := Partial(0, [])]);
    for k := 0 to |sources|
      invariant Sound(states, sources[..k], original, target)
      invariant Complete(states, sources[..k], original, target)
    {
      assert sources[..k + 1] == sources[..k] + [sources[k]];
      states := ExtendStates(states, sources[..k], sources[k], original, target);
    }
    assert sources[..|sources|] == sources;
    var none: seq<nat> := seq(|sources|, i => 0);
    NothingEmitted(sources, none);
    assert Covers(states, Total(sources, none), Deviation(sources, none, original, target));
    var best := Largest(states.order);
    counts := states.table[best].counts;
    forall w: seq<nat> | |w| == |sources| && Total(sources, w) <= target
      ensures Total(sources, w) <= best
      ensures Total(sources, w) == best ==> Deviation(sources, counts, original, target) <= Deviation(sources, w, original, target)
    {
      assert Covers(states, Total(sources, w), Deviation(sources, w, original, target));
    }
    OptimumIsNearest(sources, counts, original, target);
  }

  // ---------------------------------------------------------------- largest remainder

  /** Body counts by source identity; an identity without an entry counts as zero. */
  type Counts = map<string, nat>

  function Get(counts: Counts, id: string): nat {
    if id in counts then counts[id] else 0
  }

  function Ids(sources: seq<Source>): set<string> {
    set s | s in sources :: s.id
  }

  ghost predicate DistinctIds(sources: seq<Source>) {
    forall i, j | 0 <= i < j < |sources| :: sources[i].id != sources[j].id
  }

  function Bodies(counts: Counts): Source -> int {
    (s: Source) => Get(counts, s.id)
  }

  function Emitted(counts: Counts): Source -> int {
    (s: Source) => Emissions(s, Get(counts, s.id))
  }

  function Logical(s: Source): int {
    s.logicalCount
  }

  function Quota(target: nat, original: pos): Source -> int {
    (s: Source) => target * s.logicalCount
  }

  function Floor(target: nat, original: pos): Source -> int {
    (s: Source) => target * s.logicalCount / original
  }

  function Remainder(target: nat, original: pos): Source -> int {
    (s: Source) => target * s.logicalCount % original
  }

  /** Larger remainder first; equal remainders by identity. */
  predicate RemainderFirst(a: Source, b: Source, target: nat, original: pos) {
    var ra, rb := Remainder(target, original)(a), Remainder(target, original)(b);
    ra > rb || (ra == rb && TextLeq(a.id, b.id))
  }

  function RemainderOrder(target: nat, original: pos): (Source, Source) -> bool {
    (a: Source, b: Source) => RemainderFirst(a, b, target, original)
  }

  lemma RemainderOrdering(target: nat, original: pos)
    ensures Ordering(RemainderOrder(target, original))
  {
    var less := RemainderOrder(target, original);
    forall x, y ensures less(x, y) || less(y, x) {
      TextTotal(x.id, y.id);
    }
    forall x, y, z | less(x, y) && less(y, z) ensures less(x, z) {
      if TextLeq(x.id, y.id) && TextLeq(y.id, z.id) { TextTransitive(x.id, y.id, z.id); }
    }
  }

  /** The whole bodies left over after flooring, as a multiple of the divisor. */
  lemma QuotientAndRest(n: nat, d: pos)
    ensures n == d * (n / d) + n % d
  {}

  lemma LeftoverBodies(sources: seq<Source>, target: nat, original: pos)
    requires Sum(sources, Logical) == original
    ensures (target - Sum(sources, Floor(target, original))) * original == Sum(sources, Remainder(target, original))
  {
    var floor, rest, quota := Floor(target, original), Remainder(target, original), Quota(target, original);
    var scaled := (s: Source) => original * floor(s);
    SumScale(sources, original, floor, scaled);
    SumScale(sources, target, Logical, quota);
    forall s | s in sources ensures quota(s) == scaled(s) + rest(s) {
      QuotientAndRest(target * s.logicalCount, original);
    }
    SumPlus(sources, scaled, rest, quota);
  }

  lemma {:induction false} RemaindersBelow(sources: seq<Source>, target: nat, original: pos)
    ensures 0 <= Sum(sources, Remainder(target, original))
    ensures Sum(sources, Remainder(target, original)) <= |sources| * (original - 1)
  {
    if sources != [] {
      RemaindersBelow(sources[1..], target, original);
      assert |sources| * (original - 1) == (original - 1) + |sources[1..]| * (original - 1);
    }
  }

  lemma FewLeftovers(k: int, n: nat, original: pos, total: int)
    requires k * original == total && 0 <= total <= n * (original - 1)
    ensures 0 <= k <= n
  {
    if k < 0 { MulMono(k, -1, original); }
    if k > n { MulMono(n + 1, k, original); }
  }

  /** After the first zero remainder the order has only zero remainders. */
  lemma NoRemainderAfter(order: seq<Source>, i: nat, target: nat, original: pos)
    requires SortedBy(order, RemainderOrder(target, original)) && i < |order|
    requires Remainder(target, original)(order[i]) == 0
    ensures Sum(order[i..], Remainder(target, original)) == 0
  {
    var rest, less := Remainder(target, original), RemainderOrder(target, original);
    forall s | s in order[i..] ensures rest(s) == 0 {
      var j :| 0 <= j < |order[i..]| && order[i..][j] == s;
      if j > 0 { assert less(order[i], order[i + j]); }
    }
    SumZero(order[i..], rest);
  }

  lemma TooFew(i: nat, k: nat, original: pos)
    requires i < k
    ensures i * (original - 1) < k * original
  {
    MulMono(i + 1, k, original);
  }

  /** Every source among the first `k` of the remainder order has a positive remainder. */
  lemma LeadersHaveRemainder(order: seq<Source>, k: nat, i: nat, target: nat, original: pos)
    requires SortedBy(order, RemainderOrder(target, original))
    requires i < k <= |order|
    requires Sum(order, Remainder(target, original)) == k * original
    ensures 0 < Remainder(target, original)(order[i])
  {
    var rest := Remainder(target, original);
    if rest(order[i]) == 0 {
      NoRemainderAfter(order, i, target, original);
      SumAppend(order[..i], order[i..], rest);
      assert order == order[..i] + order[i..];
      RemaindersBelow(order[..i], target, original);
      TooFew(i, k, original);
    }
  }

  /** Between the floor and the ceiling of the exact quota, with equality when the quota is whole. */
  predicate QuotaRule(s: Source, count: nat, target: nat, original: pos) {
    var quota := target * s.logicalCount;
    quota / original <= count <= (quota + original - 1) / original
  }

  /** A source above its floor stands before every source at its floor in the remainder order. */
  ghost predicate LargestFirstServed(sources: seq<Source>, counts: Counts, target: nat, original: pos) {
    forall s, t | s in sources && t in sources
                  && Get(counts, s.id) > Floor(target, original)(s) && Get(counts, t.id) == Floor(target, original)(t) ::
      RemainderFirst(s, t, target, original)
  }

  /** The bodies sum to the target, every quota is met within one body, the bodies above the floors go to the largest
    * remainders, and larger sources never have fewer. */
  ghost predicate Fair(sources: seq<Source>, counts: Counts, target: int, original: pos) {
    && 0 <= target && Sum(sources, Bodies(counts)) == target
    && (forall s | s in sources :: QuotaRule(s, Get(counts, s.id), target, original))
    && LargestFirstServed(sources, counts, target, original)
    && (forall s, t | s in sources && t in sources && s.logicalCount > t.logicalCount :: Get(counts, s.id) >= Get(counts, t.id))
  }

  /** What apportionment promises: the exact sum, quota bounds, largest remainders first and no inversion. */
  ghost predicate Apportioned(sources: seq<Source>, counts: Counts, target: nat, original: pos) {
    counts.Keys == Ids(sources) && Fair(sources, counts, target, original)
  }

  /** Whether `s` is among the first `k` of `order`, as 0 or 1. */
  function Leads(order: seq<Source>, k: nat, s: Source): nat {
    if k <= |order| && s in order[..k] then 1 else 0
  }

  /** Floors plus one body for each of the first `k` sources of `order`. */
  ghost predicate FlooredPlus(sources: seq<Source>, counts: Counts, order: seq<Source>, k: nat, target: nat, original: pos) {
    && counts.Keys == Ids(sources)
    && forall s | s in sources :: Get(counts, s.id) == Floor(target, original)(s) + Leads(order, k, s)
  }

  method FloorCounts(sources: seq<Source>, target: nat, original: pos) returns (counts: Counts)
    requires DistinctIds(sources)
    ensures FlooredPlus(sources, counts, [], 0, target, original)
  {
    counts := map[];
    for i := 0 to |sources|
      invariant counts.Keys == set j | 0 <= j < i :: sources[j].id
      invariant forall j | 0 <= j < i :: Get(counts, sources[j].id) == Floor(target, original)(sources[j])
    {
      counts := counts[sources[i].id := Floor(target, original)(sources[i])];
    }
  }

  lemma DistinctSources(sources: seq<Source>)
    requires DistinctIds(sources)
    ensures Distinct(sources)
    ensures forall s, t | s in sources && t in sources && s.id == t.id :: s == t
  {}

  /** Gives one more body to `order[k]`. */
  lemma OneMore(sources: seq<Source>, counts: Counts, order: seq<Source>, k: nat, target: nat, original: pos)
    requires DistinctIds(sources) && Distinct(order) && k < |order| && order[k] in sources
    requires FlooredPlus(sources, counts, order, k, target, original)
    ensures var after := counts[order[k].id := Get(counts, order[k].id) + 1];
            FlooredPlus(sources, after, order, k + 1, target, original)
            && Sum(sources, Bodies(after)) == Sum(sources, Bodies(counts)) + 1
  {
    var x := order[k];
    var after := counts[x.id := Get(counts, x.id) + 1];
    DistinctSources(sources);
    assert order[..k + 1] == order[..k] + [x];
    assert x !in order[..k];
    SumPoint(sources, Bodies(counts), Bodies(after), x);
    assert x.id in Ids(sources);
  }

  /** A larger logical count has a larger floor, or the same floor and a larger remainder. */
  lemma LargerShare(s: Source, t: Source, target: nat, original: pos)
    requires s.logicalCount > t.logicalCount && 0 < target
    ensures Floor(target, original)(s) > Floor(target, original)(t)
            || (Floor(target, original)(s) == Floor(target, original)(t)
                && Remainder(target, original)(s) > Remainder(target, original)(t))
  {
    var a, b := target * s.logicalCount, target * t.logicalCount;
    MulMono(t.logicalCount + 1, s.logicalCount, target);
    assert a > b;
    assert a == original * (a / original) + a % original;
    assert b == original * (b / original) + b % original;
    if a / original < b / original {
      MulMono(a / original + 1, b / original, original);
    }
  }

  lemma WithinQuota(quota: nat, original: pos, count: nat)
    requires quota / original <= count <= quota / original + 1
    requires count == quota / original + 1 ==> 0 < quota % original
    ensures count <= (quota + original - 1) / original
  {
    var ceiling := (quota + original - 1) / original;
    CeilDivision(quota, original, ceiling);
    assert quota == original * (quota / original) + quota % original;
    if ceiling < count {
      MulMono(ceiling, count - 1, original);
    }
  }

  lemma QuotaHolds(s: Source, count: nat, target: nat, original: pos)
    requires Floor(target, original)(s) <= count <= Floor(target, original)(s) + 1
    requires count == Floor(target, original)(s) + 1 ==> 0 < Remainder(target, original)(s)
    ensures QuotaRule(s, count, target, original)
  {
    WithinQuota(target * s.logicalCount, original, count);
  }

  lemma StandsBefore(order: seq<Source>, k: nat, s: Source, t: Source, target: nat, original: pos)
    requires SortedBy(order, RemainderOrder(target, original)) && k <= |order|
    requires s in order[..k] && t in multiset(order) && t !in order[..k]
    ensures RemainderFirst(s, t, target, original)
  {
    var i :| 0 <= i < k && order[i] == s;
    var j :| 0 <= j < |order| && order[j] == t;
    var less := RemainderOrder(target, original);
    assert forall m | 0 <= m < k :: order[m] in order[..k];
    assert less(order[i], order[j]);
  }

  lemma ExtrasServeLargest(sources: seq<Source>, counts: Counts, order: seq<Source>, k: nat, target: nat, original: pos)
    requires SortedBy(order, RemainderOrder(target, original)) && multiset(order) == multiset(sources) && k <= |order|
    requires FlooredPlus(sources, counts, order, k, target, original)
    ensures LargestFirstServed(sources, counts, target, original)
  {
    forall s, t | s in sources && t in sources
                  && Get(counts, s.id) > Floor(target, original)(s) && Get(counts, t.id) == Floor(target, original)(t)
      ensures RemainderFirst(s, t, target, original)
    {
      assert t in multiset(sources);
      StandsBefore(order, k, s, t, target, original);
    }
  }

  lemma ExtrasAreFair(sources: seq<Source>, counts: Counts, order: seq<Source>, k: nat, target: nat, original: pos)
    requires DistinctIds(sources) && k <= |order|
    requires SortedBy(order, RemainderOrder(target, original)) && multiset(order) == multiset(sources)
    requires Sum(sources, Remainder(target, original)) == k * original
    requires FlooredPlus(sources, counts, order, k, target, original)
    requires Sum(sources, Bodies(counts)) == target
    ensures Apportioned(sources, counts, target, original)
  {
    SumPermutation(order, sources, Remainder(target, original));
    ExtrasServeLargest(sources, counts, order, k, target, original);
    forall s | s in sources ensures QuotaRule(s, Get(counts, s.id), target, original) {
      if s in order[..k] {
        var i :| 0 <= i < k && order[i] == s;
        LeadersHaveRemainder(order, k, i, target, original);
      }
      QuotaHolds(s, Get(counts, s.id), target, original);
    }
    forall s, t | s in sources && t in sources && s.logicalCount > t.logicalCount
      ensures Get(counts, s.id) >= Get(counts, t.id)
    {
      if 0 < target {
        LargerShare(s, t, target, original);
        if t in order[..k] && s !in order[..k] {
          StandsBefore(order, k, t, s, target, original);
        }
      } else {
        SumNonNegative(sources, Bodies(counts));
      }
    }
  }

  function VectorOf(sources: seq<Source>, counts: Counts): seq<nat> {
    seq(|sources|, i requires 0 <= i < |sources| => Get(counts, sources[i].id))
  }

  /** How much of the bodies a source is due over (or, negative, short of) what it has, in parts of `original`. */
  ghost function Due(s: Source, count: nat, target: nat, original: nat): int {
    target * s.logicalCount - count * original
  }

  lemma RoundedQuota(quota: nat, original: pos, count: nat)
    requires quota / original <= count <= (quota + original - 1) / original
    ensures 0 < quota - count * original + original < 2 * original
    ensures quota / original < count <==> quota < count * original
    ensures quota / original == count ==> quota % original == quota - count * original
    ensures quota / original < count ==> quota % original == quota - (count - 1) * original
  {
    var floor, ceiling := quota / original, (quota + original - 1) / original;
    QuotientAndRest(quota, original);
    assert floor * original == original * floor;
    CeilDivision(quota, original, ceiling);
    CeilDivision(quota, original, floor + 1);
    assert (floor + 1) * original == floor * original + original;
    if count == floor + 1 {
    } else {
      assert count == floor;
    }
  }

  lemma DueWithin(s: Source, count: nat, target: nat, original: pos)
    requires QuotaRule(s, count, target, original)
    ensures 0 < Due(s, count, target, original) + original < 2 * original
    ensures Due(s, count, target, original) < 0 ==>
              count > Floor(target, original)(s) && count >= 1
              && Remainder(target, original)(s) == Due(s, count - 1, target, original)
    ensures Due(s, count, target, original) >= 0 ==>
              count == Floor(target, original)(s) && Remainder(target, original)(s) == Due(s, count, target, original)
  {
    RoundedQuota(target * s.logicalCount, original, count);
  }

  /** Whoever got a body too many fell short of at least as much without it as whoever got too few. */
  ghost predicate ServedFirst(s: Source, a: nat, t: Source, b: nat, target: nat, original: nat) {
    Due(s, a, target, original) < 0 <= Due(t, b, target, original) ==>
      && a >= 1
      && (|| Due(s, a - 1, target, original) > Due(t, b, target, original)
          || (Due(s, a - 1, target, original) == Due(t, b, target, original) && TextLeq(s.id, t.id)))
  }

  lemma LargestServed(s: Source, t: Source, sources: seq<Source>, counts: Counts, target: nat, original: pos)
    requires s in sources && t in sources && LargestFirstServed(sources, counts, target, original)
    requires QuotaRule(s, Get(counts, s.id), target, original) && QuotaRule(t, Get(counts, t.id), target, original)
    ensures ServedFirst(s, Get(counts, s.id), t, Get(counts, t.id), target, original)
  {
    DueWithin(s, Get(counts, s.id), target, original);
    DueWithin(t, Get(counts, t.id), target, original);
  }

  /** A fair apportionment without floors and remainders: the bodies sum to the target, nobody is a whole body away from
    * the exact quota, and the largest shortfalls are served first. */
  lemma FairMeans(sources: seq<Source>, counts: Counts, target: int, original: pos)
    requires Fair(sources, counts, target, original)
    ensures 0 <= target == Added(VectorOf(sources, counts))
    ensures forall s | s in sources :: 0 < Due(s, Get(counts, s.id), target, original) + original < 2 * original
    ensures forall s, t | s in sources && t in sources :: ServedFirst(s, Get(counts, s.id), t, Get(counts, t.id), target, original)
    ensures forall s, t | s in sources && t in sources && s.logicalCount > t.logicalCount ::
              Get(counts, s.id) >= Get(counts, t.id)
  {
    SumIsAdded(sources, Bodies(counts), VectorOf(sources, counts));
    forall s | s in sources ensures 0 < Due(s, Get(counts, s.id), target, original) + original < 2 * original {
      DueWithin(s, Get(counts, s.id), target, original);
    }
    forall s, t | s in sources && t in sources
      ensures ServedFirst(s, Get(counts, s.id), t, Get(counts, t.id), target, original)
    {
      LargestServed(s, t, sources, counts, target, original);
    }
  }

  /** As many bodies are left over the floors as the remainders add up to. */
  ghost predicate Leftovers(sources: seq<Source>, floors: Counts, extras: int, target: nat, original: pos) {
    && 0 <= extras <= |sources| && Sum(sources, Bodies(floors)) + extras == target
    && Sum(sources, Remainder(target, original)) == extras * original
  }

  /** All sources, larger remainders first. */
  ghost predicate InOrder(sources: seq<Source>, order: seq<Source>, target: nat, original: pos) {
    && SortedBy(order, RemainderOrder(target, original)) && multiset(order) == multiset(sources)
    && |order| == |sources| && Distinct(order) && (forall s | s in order :: s in sources)
  }

  lemma FloorsSum(sources: seq<Source>, counts: Counts, target: nat, original: pos)
    requires FlooredPlus(sources, counts, [], 0, target, original)
    ensures Sum(sources, Bodies(counts)) == Sum(sources, Floor(target, original))
  {
    var bodies, floor := Bodies(counts), Floor(target, original);
    forall s | s in sources ensures bodies(s) == floor(s) {
      assert Get(counts, s.id) == floor(s) + Leads([], 0, s);
    }
    SumSame(sources, bodies, floor);
  }

  lemma ExtrasFit(sources: seq<Source>, floors: int, target: nat, original: pos)
    requires Sum(sources, Logical) == original
    requires floors == Sum(sources, Floor(target, original))
    ensures 0 <= target - floors <= |sources|
    ensures Sum(sources, Remainder(target, original)) == (target - floors) * original
  {
    LeftoverBodies(sources, target, original);
    RemaindersBelow(sources, target, original);
    FewLeftovers(target - floors, |sources|, original, Sum(sources, Remainder(target, original)));
  }

  lemma FloorsLeave(sources: seq<Source>, floors: Counts, target: nat, original: pos)
    requires original == Sum(sources, Logical) && FlooredPlus(sources, floors, [], 0, target, original)
    ensures Leftovers(sources, floors, target - Sum(sources, Bodies(floors)), target, original)
  {
    FloorsSum(sources, floors, target, original);
    ExtrasFit(sources, Sum(sources, Bodies(floors)), target, original);
  }

  lemma SortedInOrder(sources: seq<Source>, target: nat, original: pos)
    requires DistinctIds(sources)
    ensures InOrder(sources, SortBy(sources, RemainderOrder(target, original)), target, original)
  {
    RemainderOrdering(target, original);
    SortCorrect(sources, RemainderOrder(target, original));
    SortKeeps(sources, RemainderOrder(target, original));
    DistinctSources(sources);
  }

  method GiveExtras(sources: seq<Source>, floors: Counts, order: seq<Source>, extras: nat, target: nat, original: pos)
    returns (counts: Counts)
    requires DistinctIds(sources) && Distinct(order) && extras <= |order| && forall s | s in order :: s in sources
    requires FlooredPlus(sources, floors, [], 0, target, original)
    ensures FlooredPlus(sources, counts, order, extras, target, original)
    ensures Sum(sources, Bodies(counts)) == Sum(sources, Bodies(floors)) + extras
  {
    counts := floors;
    for i := 0 to extras
      invariant FlooredPlus(sources, counts, order, i, target, original)
      invariant Sum(sources, Bodies(counts)) == Sum(sources, Bodies(floors)) + i
    {
      OneMore(sources, counts, order, i, target, original);
      counts := counts[order[i].id := Get(counts, order[i].id) + 1];
    }
  }

  method HandOut(sources: seq<Source>, floors: Counts, order: seq<Source>, extras: nat, target: nat, original: pos) returns (counts: Counts)
    requires DistinctIds(sources) && FlooredPlus(sources, floors, [], 0, target, original)
    requires Leftovers(sources, floors, extras, target, original) && InOrder(sources, order, target, original)
    ensures Apportioned(sources, counts, target, original)
  {
    counts := GiveExtras(sources, floors, order, extras, target, original);
    ExtrasAreFair(sources, counts, order, extras, target, original);
  }

  method LargestRemainder(sources: seq<Source>, target: nat, original: pos) returns (counts: Counts)
    requires DistinctIds(sources) && original == Sum(sources, Logical)
    ensures Apportioned(sources, counts, target, original)
  {
    var floors := FloorCounts(sources, target, original);
    FloorsLeave(sources, floors, target, original);
    SortedInOrder(sources, target, original);
    var order := SortBy(sources, RemainderOrder(target, original));
    counts := HandOut(sources, floors, order, target - Sum(sources, Bodies(floors)), target, original);
  }

  method AllocatePoolCounts(sources: seq<Source>, target: nat) returns (counts: Counts)
    requires DistinctIds(sources)
    ensures sources == [] ==> counts == map[]
    ensures sources != [] ==> 0 < Sum(sources, Logical) && Apportioned(sources, counts, target, Sum(sources, Logical))
    ensures Sum(sources, Logical) == Added(seq(|sources|, i requires 0 <= i < |sources| => sources[i].logicalCount))
  {
    SumIsAdded(sources, Logical, seq(|sources|, i requires 0 <= i < |sources| => sources[i].logicalCount));
    if sources == [] {
      return map[];
    }
    SumNonNegative(sources, Logical);
    assert Logical(sources[0]) <= Sum(sources, Logical);
    counts := LargestRemainder(sources, target, Sum(sources, Logical));
  }

  // ---------------------------------------------------------------- trimming around single-emission sources

  function Singles(sources: seq<Source>): seq<Source> {
    if sources == [] then []
    else if Single(sources[0]) then [sources[0]] + Singles(sources[1..]) else Singles(sources[1..])
  }

  function Others(sources: seq<Source>): seq<Source> {
    if sources == [] then []
    else if Single(sources[0]) then Others(sources[1..]) else [sources[0]] + Others(sources[1..])
  }

  lemma {:induction false} Split(sources: seq<Source>)
    ensures forall s :: s in Singles(sources) <==> s in sources && Single(s)
    ensures forall s :: s in Others(sources) <==> s in sources && !Single(s)
    ensures DistinctIds(sources) ==> DistinctIds(Singles(sources)) && DistinctIds(Others(sources))
  {
    if sources != [] {
      Split(sources[1..]);
      if DistinctIds(sources) {
        forall s | s in sources[1..] ensures s.id != sources[0].id {
          var i :| 0 <= i < |sources[1..]| && sources[1..][i] == s;
          assert sources[i + 1] == s;
        }
      }
    }
  }

  lemma {:induction false} SplitSum(sources: seq<Source>, f: Source -> int)
    ensures Sum(sources, f) == Sum(Singles(sources), f) + Sum(Others(sources), f)
  {
    if sources != [] {
      SplitSum(sources[1..], f);
    }
  }

  function Maximum(s: Source): int {
    s.maximumEmissions
  }

  /** The first of the sources with bodies that emit the most. */
  ghost predicate FirstLargest(sources: seq<Source>, counts: Counts, i: nat) {
    && i < |sources| && 0 < Get(counts, sources[i].id)
    && (forall j | 0 <= j < |sources| && 0 < Get(counts, sources[j].id) :: Emitted(counts)(sources[j]) <= Emitted(counts)(sources[i]))
    && (forall j | 0 <= j < i && 0 < Get(counts, sources[j].id) :: Emitted(counts)(sources[j]) < Emitted(counts)(sources[i]))
  }

  /** One body fewer at the first largest emitter, nothing else. */
  ghost predicate OneBodyLess(sources: seq<Source>, before: Counts, after: Counts) {
    exists i: nat :: FirstLargest(sources, before, i) && after == before[sources[i].id := Get(before, sources[i].id) - 1]
  }

  method LargestEmitter(sources: seq<Source>, counts: Counts) returns (chosen: nat)
    requires exists s | s in sources :: 0 < Get(counts, s.id)
    ensures FirstLargest(sources, counts, chosen)
    ensures chosen < |sources| && 0 < Get(counts, sources[chosen].id)
    ensures forall j | 0 <= j < |sources| && 0 < Get(counts, sources[j].id) ::
              var most := Emissions(sources[chosen], Get(counts, sources[chosen].id));
              Emissions(sources[j], Get(counts, sources[j].id)) <= if j < chosen then most - 1 else most
  {
    var found: Option<nat> := None;
    var i := 0;
    while i < |sources|
      invariant 0 <= i <= |sources|
      invariant found.None? ==> forall j | 0 <= j < i :: Get(counts, sources[j].id) == 0
      invariant found.Some? ==> found.value < i && 0 < Get(counts, sources[found.value].id)
      invariant found.Some? ==> forall j | 0 <= j < i && 0 < Get(counts, sources[j].id) ::
                  Emitted(counts)(sources[j]) <= Emitted(counts)(sources[found.value])
      invariant found.Some? ==> forall j | 0 <= j < found.value && 0 < Get(counts, sources[j].id) ::
                  Emitted(counts)(sources[j]) < Emitted(counts)(sources[found.value])
    {
      if 0 < Get(counts, sources[i].id) {
        if found.None? || Emitted(counts)(sources[i]) > Emitted(counts)(sources[found.value]) {
          found := Some(i);
        }
      }
      i := i + 1;
    }
    chosen := found.value;
  }

  lemma {:induction false} IdleSourcesEmitNothing(sources: seq<Source>, counts: Counts)
    requires forall s | s in sources :: Get(counts, s.id) == 0
    ensures Sum(sources, Emitted(counts)) == 0
  {
    if sources != [] {
      EmissionsZero(sources[0]);
      IdleSourcesEmitNothing(sources[1..], counts);
    }
  }

  lemma OneFewer(sources: seq<Source>, counts: Counts, i: nat)
    requires DistinctIds(sources) && i < |sources| && 0 < Get(counts, sources[i].id)
    ensures var id := sources[i].id;
            var after := counts[id := Get(counts, id) - 1];
            && Sum(sources, Emitted(after)) ==
               Sum(sources, Emitted(counts)) - Emitted(counts)(sources[i]) + Emitted(after)(sources[i])
            && Sum(sources, Bodies(after)) == Sum(sources, Bodies(counts)) - 1
  {
    var x := sources[i];
    var after := counts[x.id := Get(counts, x.id) - 1];
    DistinctSources(sources);
    forall y | y in sources && y != x
      ensures Emitted(counts)(y) == Emitted(after)(y) && Bodies(counts)(y) == Bodies(after)(y)
    {
      assert Get(after, y.id) == Get(counts, y.id);
    }
    SumPoint(sources, Emitted(counts), Emitted(after), x);
    SumPoint(sources, Bodies(counts), Bodies(after), x);
  }

  lemma SomeoneEmits(sources: seq<Source>, counts: Counts)
    requires 0 < Sum(sources, Emitted(counts))
    ensures exists s | s in sources :: 0 < Get(counts, s.id)
  {
    if forall s | s in sources :: Get(counts, s.id) == 0 {
      IdleSourcesEmitNothing(sources, counts);
    }
  }

  method TakeBack(sources: seq<Source>, counts: Counts, emitted: nat) returns (after: Counts, left: nat)
    requires DistinctIds(sources) && counts.Keys == Ids(sources)
    requires 0 < emitted == Sum(sources, Emitted(counts))
    ensures after.Keys == counts.Keys && left == Sum(sources, Emitted(after)) && OneBodyLess(sources, counts, after)
    ensures forall id :: Get(after, id) <= Get(counts, id)
    ensures Sum(sources, Bodies(after)) == Sum(sources, Bodies(counts)) - 1
  {
    SomeoneEmits(sources, counts);
    var chosen := LargestEmitter(sources, counts);
    var id := sources[chosen].id;
    OneFewer(sources, counts, chosen);
    after := counts[id := Get(counts, id) - 1];
    SumNonNegative(sources, Emitted(after));
    left := emitted - (Emitted(counts)(sources[chosen]) - Emitted(after)(sources[chosen]));
  }

  function Last(steps: seq<Counts>): Counts
    requires steps != []
  {
    steps[|steps| - 1]
  }

  ghost predicate TrimAt(sources: seq<Source>, steps: seq<Counts>, target: nat, i: nat) {
    && i + 1 < |steps| && OneBodyLess(sources, steps[i], steps[i + 1]) && Sum(sources, Emitted(steps[i])) > target
  }

  /** The counts before the first trim, after it, and so on: each trim takes one body from the largest emitter, and
    * trimming goes on exactly while more than the target is emitted. */
  ghost predicate Trimming(sources: seq<Source>, steps: seq<Counts>, target: nat) {
    && steps != [] && (forall i: nat | i + 1 < |steps| :: TrimAt(sources, steps, target, i))
    && Sum(sources, Emitted(Last(steps))) <= target
  }

  ghost predicate TrimmingSoFar(sources: seq<Source>, steps: seq<Counts>, target: nat) {
    steps != [] && forall i: nat | i + 1 < |steps| :: TrimAt(sources, steps, target, i)
  }

  lemma TrimOnce(sources: seq<Source>, steps: seq<Counts>, after: Counts, target: nat)
    requires TrimmingSoFar(sources, steps, target)
    requires OneBodyLess(sources, steps[|steps| - 1], after) && Sum(sources, Emitted(steps[|steps| - 1])) > target
    ensures TrimmingSoFar(sources, steps + [after], target)
  {
    var more := steps + [after];
    forall i: nat | i + 1 < |more| ensures TrimAt(sources, more, target, i) {
      if i + 1 < |steps| { assert TrimAt(sources, steps, target, i); }
    }
  }

  /** Trimming the shares ends in the counts. */
  ghost predicate TrimmedFrom(sources: seq<Source>, shares: Counts, counts: Counts, target: nat) {
    exists steps :: Trimming(sources, steps, target) && steps[0] == shares && Last(steps) == counts
  }

  /** Takes bodies back one at a time, always from the largest emitter, until the target is met. */
  method TrimOvershoot(sources: seq<Source>, shares: Counts, target: nat) returns (counts: Counts, emitted: nat)
    requires DistinctIds(sources) && shares.Keys == Ids(sources)
    ensures counts.Keys == Ids(sources)
    ensures emitted == Sum(sources, Emitted(counts)) <= target
    ensures forall id :: Get(counts, id) <= Get(shares, id)
    ensures TrimmedFrom(sources, shares, counts, target)
  {
    counts := shares;
    ghost var steps := [shares];
    SumNonNegative(sources, Emitted(counts));
    emitted := Sum(sources, Emitted(counts));
    while emitted > target
      invariant counts.Keys == Ids(sources)
      invariant emitted == Sum(sources, Emitted(counts))
      invariant forall id :: Get(counts, id) <= Get(shares, id)
      invariant TrimmingSoFar(sources, steps, target) && steps[0] == shares && Last(steps) == counts
      decreases Sum(sources, Bodies(counts))
    {
      SumNonNegative(sources, Bodies(counts));
      var after, left := TakeBack(sources, counts, emitted);
      TrimOnce(sources, steps, after, target);
      steps := steps + [after];
      counts, emitted := after, left;
    }
  }

  ghost predicate FloorShares(sources: seq<Source>, shares: Counts, target: nat, original: pos) {
    shares.Keys == Ids(sources) && forall s | s in sources :: Get(shares, s.id) == Floor(target, original)(s)
  }

  method ProportionalShares(sources: seq<Source>, target: nat, original: pos) returns (shares: Counts)
    requires DistinctIds(sources)
    ensures FloorShares(sources, shares, target, original)
  {
    shares := FloorCounts(sources, target, original);
    forall s | s in sources ensures Get(shares, s.id) == Floor(target, original)(s) {
      assert Get(shares, s.id) == Floor(target, original)(s) + Leads([], 0, s);
    }
  }

  lemma {:induction false} SinglesEmitTheirBodies(singles: seq<Source>, counts: Counts)
    requires forall s | s in singles :: Single(s)
    ensures Sum(singles, Emitted(counts)) == Sum(singles, Bodies(counts))
  {
    if singles != [] {
      SingleEmissions(singles[0], Get(counts, singles[0].id));
      SinglesEmitTheirBodies(singles[1..], counts);
    }
  }

  lemma SplitIds(sources: seq<Source>)
    requires DistinctIds(sources)
    ensures Ids(sources) == Ids(Singles(sources)) + Ids(Others(sources)) && Ids(Singles(sources)) !! Ids(Others(sources))
    ensures DistinctIds(Singles(sources)) && DistinctIds(Others(sources))
  {
    Split(sources);
    DistinctSources(sources);
    forall id | id in Ids(sources) ensures id in Ids(Singles(sources)) || id in Ids(Others(sources)) {
      var s :| s in sources && s.id == id;
      assert s in Singles(sources) || s in Others(sources);
    }
    forall id | id in Ids(Singles(sources)) ensures id in Ids(sources) && id !in Ids(Others(sources)) {
      var s :| s in Singles(sources) && s.id == id;
      assert s in sources;
    }
  }

  /** Joining the counts of two groups of sources keeps the counts of each. */
  lemma MergeKeeps(others: seq<Source>, singles: seq<Source>, trimmed: Counts, pool: Counts)
    requires trimmed.Keys == Ids(others) && pool.Keys == Ids(singles) && Ids(others) !! Ids(singles)
    ensures forall s | s in others :: Get(trimmed + pool, s.id) == Get(trimmed, s.id)
    ensures forall s | s in singles :: Get(trimmed + pool, s.id) == Get(pool, s.id)
  {
    forall s | s in others ensures s.id !in pool.Keys {
      assert s.id in Ids(others);
    }
    forall s | s in singles ensures s.id in pool.Keys {
      assert s.id in Ids(singles);
    }
  }

  /** All emissions are those of the other sources and the bodies of the single-emission ones. */
  lemma PartsEmit(sources: seq<Source>, counts: Counts)
    ensures Sum(sources, Emitted(counts)) == Sum(Others(sources), Emitted(counts)) + Sum(Singles(sources), Bodies(counts))
  {
    Split(sources);
    SinglesEmitTheirBodies(Singles(sources), counts);
    SplitSum(sources, Emitted(counts));
  }

  predicate HasSingle(sources: seq<Source>) {
    exists s | s in sources :: Single(s)
  }

  lemma QuotaPositive(sources: seq<Source>)
    requires HasSingle(sources)
    ensures 0 < Sum(sources, Maximum)
    ensures Singles(sources) != []
  {
    Split(sources);
    var s :| s in sources && Single(s);
    SumNonNegative(sources, Maximum);
    assert 0 < Maximum(s) && s in Singles(sources);
  }

  ghost predicate SameCounts(sources: seq<Source>, counts: Counts, other: Counts) {
    forall s | s in sources :: Get(counts, s.id) == Get(other, s.id)
  }

  ghost predicate TrimmedBy(sources: seq<Source>, counts: Counts, shares: Counts, trimmed: Counts, target: nat, original: int) {
    && 0 < original && FloorShares(sources, shares, target, original)
    && TrimmedFrom(sources, shares, trimmed, target) && SameCounts(sources, counts, trimmed)
  }

  /** The sources hold their proportional shares, trimmed. */
  ghost predicate SharesTrimmed(sources: seq<Source>, counts: Counts, target: nat, original: int) {
    exists shares, trimmed :: TrimmedBy(sources, counts, shares, trimmed, target, original)
  }

  /** Each of the sources has its share of all their bodies, by logical count and largest remainder. */
  ghost predicate SharedFairly(sources: seq<Source>, counts: Counts) {
    exists original: pos, bodies: nat :: original == Sum(sources, Logical) && Fair(sources, counts, bodies, original)
  }

  /** The other sources hold their trimmed shares, and the single-emission sources share what those leave of the target. */
  ghost predicate SharedOut(others: seq<Source>, singles: seq<Source>, counts: Counts, target: nat, original: int) {
    && SharesTrimmed(others, counts, target, original) && SharedFairly(singles, counts)
    && Sum(others, Emitted(counts)) + Sum(singles, Bodies(counts)) == target
  }

  lemma SameCountsEmit(sources: seq<Source>, counts: Counts, other: Counts)
    requires SameCounts(sources, counts, other)
    ensures Sum(sources, Emitted(counts)) == Sum(sources, Emitted(other))
  {
    SumSame(sources, Emitted(counts), Emitted(other));
  }

  lemma TrimmedStay(sources: seq<Source>, trimmed: Counts, counts: Counts, target: nat, original: int)
    requires SharesTrimmed(sources, trimmed, target, original) && SameCounts(sources, counts, trimmed)
    ensures SharesTrimmed(sources, counts, target, original) && Sum(sources, Emitted(counts)) == Sum(sources, Emitted(trimmed))
  {
    var shares, last :| TrimmedBy(sources, trimmed, shares, last, target, original);
    assert TrimmedBy(sources, counts, shares, last, target, original);
    SameCountsEmit(sources, counts, trimmed);
  }

  lemma SameCountsFair(sources: seq<Source>, pool: Counts, counts: Counts, left: int, original: pos)
    requires Fair(sources, pool, left, original) && SameCounts(sources, counts, pool)
    ensures Fair(sources, counts, left, original)
  {
    SumSame(sources, Bodies(counts), Bodies(pool));
  }

  /** Gives `left` bodies to the single-emission sources beside the counts of the others. */
  method AddSingles(ghost others: seq<Source>, singles: seq<Source>, trimmed: Counts, left: nat) returns (counts: Counts)
    requires DistinctIds(singles) && singles != [] && Ids(others) !! Ids(singles) && trimmed.Keys == Ids(others)
    ensures counts.Keys == Ids(others) + Ids(singles) && SameCounts(others, counts, trimmed)
    ensures SharedFairly(singles, counts) && Sum(singles, Bodies(counts)) == left
  {
    var pool := AllocatePoolCounts(singles, left);
    counts := trimmed + pool;
    MergeKeeps(others, singles, trimmed, pool);
    SameCountsFair(singles, pool, counts, left, Sum(singles, Logical));
  }

  /** The proportional shares, trimmed. */
  method TrimShares(sources: seq<Source>, target: nat, original: pos) returns (trimmed: Counts, emitted: nat)
    requires DistinctIds(sources)
    ensures trimmed.Keys == Ids(sources) && emitted == Sum(sources, Emitted(trimmed)) <= target
    ensures SharesTrimmed(sources, trimmed, target, original)
  {
    var shares := ProportionalShares(sources, target, original);
    trimmed, emitted := TrimOvershoot(sources, shares, target);
    assert TrimmedBy(sources, trimmed, shares, trimmed, target, original);
  }

  /** Trims the shares of the other sources and gives what is left to the single-emission ones. */
  method AllocateParts(others: seq<Source>, singles: seq<Source>, target: nat, original: pos) returns (counts: Counts)
    requires DistinctIds(others) && DistinctIds(singles) && singles != [] && Ids(others) !! Ids(singles)
    ensures counts.Keys == Ids(others) + Ids(singles) && SharedOut(others, singles, counts, target, original)
  {
    var trimmed, emitted := TrimShares(others, target, original);
    counts := AddSingles(others, singles, trimmed, target - emitted);
    TrimmedStay(others, trimmed, counts, target, original);
  }

  method AllocateWithSingles(sources: seq<Source>, target: nat) returns (counts: Counts)
    requires DistinctIds(sources) && HasSingle(sources)
    ensures counts.Keys == Ids(sources)
    ensures Sum(sources, Emitted(counts)) == target
    ensures SharedOut(Others(sources), Singles(sources), counts, target, Sum(sources, Maximum))
  {
    SplitIds(sources);
    QuotaPositive(sources);
    counts := AllocateParts(Others(sources), Singles(sources), target, Sum(sources, Maximum));
    PartsEmit(sources, counts);
  }

  // ---------------------------------------------------------------- the whole allocation

  method CountsFrom(sources: seq<Source>, v: seq<nat>) returns (counts: Counts)
    requires DistinctIds(sources) && |v| == |sources|
    ensures counts.Keys == Ids(sources)
    ensures forall i | 0 <= i < |sources| :: Get(counts, sources[i].id) == v[i]
  {
    counts := map[];
    for i := 0 to |sources|
      invariant counts.Keys == set j | 0 <= j < i :: sources[j].id
      invariant forall j | 0 <= j < i :: Get(counts, sources[j].id) == v[j]
    {
      counts := counts[sources[i].id := v[i]];
    }
  }

  lemma {:induction false} TotalIsEmitted(sources: seq<Source>, counts: Counts)
    ensures Total(sources, VectorOf(sources, counts)) == Sum(sources, Emitted(counts))
  {
    if sources != [] {
      var n := |sources| - 1;
      TotalIsEmitted(sources[..n], counts);
      assert VectorOf(sources, counts)[..n] == VectorOf(sources[..n], counts);
      assert sources[..n + 1] == sources;
      SumTake(sources, n, Emitted(counts));
    }
  }

  /** What an allocation is: exactly the target, shared out, with a single-emission source, and an optimum without. */
  ghost predicate Allocated(sources: seq<Source>, counts: Counts, reported: nat, target: nat) {
    && counts.Keys == Ids(sources)
    && (sources == [] ==> reported == target)
    && (sources != [] ==> reported == Sum(sources, Emitted(counts)))
    && (HasSingle(sources) ==> reported == target && SharedOut(Others(sources), Singles(sources), counts, target, Sum(sources, Maximum)))
    && (sources != [] && !HasSingle(sources) ==>
          Sum(sources, Maximum) >= 0 && Optimal(sources, VectorOf(sources, counts), Sum(sources, Maximum), target))
  }

  ghost function Maxima(sources: seq<Source>): seq<int> {
    seq(|sources|, i requires 0 <= i < |sources| => sources[i].maximumEmissions)
  }

  /** What the sources emit that may emit more or less than once per body. */
  ghost function OtherSpawns(sources: seq<Source>, v: seq<nat>): seq<int>
    requires |v| == |sources|
  {
    seq(|sources|, i requires 0 <= i < |sources| =>
      if sources[i].logicalCount == sources[i].maximumEmissions then 0 else Emissions(sources[i], v[i]))
  }

  lemma {:induction false} OthersMasked(sources: seq<Source>, f: Source -> int, masked: Source -> int)
    requires forall s | s in sources :: masked(s) == if Single(s) then 0 else f(s)
    ensures Sum(Others(sources), f) == Sum(sources, masked)
  {
    if sources != [] {
      OthersMasked(sources[1..], f, masked);
    }
  }

  lemma OthersAdded(sources: seq<Source>, v: seq<nat>, counts: Counts)
    requires |v| == |sources| && forall i | 0 <= i < |v| && !Single(sources[i]) :: v[i] == Get(counts, sources[i].id)
    ensures Sum(Others(sources), Emitted(counts)) == Added(OtherSpawns(sources, v))
  {
    var masked := (s: Source) => if Single(s) then 0 else Emitted(counts)(s);
    OthersMasked(sources, Emitted(counts), masked);
    SumIsAdded(sources, masked, OtherSpawns(sources, v));
  }

  lemma {:induction false} TrimmingTakes(sources: seq<Source>, steps: seq<Counts>, target: nat, k: nat, id: string)
    requires TrimmingSoFar(sources, steps, target) && k < |steps|
    ensures Get(steps[k], id) <= Get(steps[0], id)
  {
    if k > 0 {
      TrimmingTakes(sources, steps, target, k - 1, id);
      assert TrimAt(sources, steps, target, k - 1);
    }
  }

  /** No body more than the share of a source other than the single-emission ones; where it is fewer anywhere, the last
    * body taken back did not fit. */
  ghost predicate TrimmedNoFurther(sources: seq<Source>, v: seq<nat>, shares: seq<nat>, target: nat)
    requires |v| == |sources| == |shares|
  {
    && (forall i | 0 <= i < |sources| && sources[i].logicalCount != sources[i].maximumEmissions :: v[i] <= shares[i])
    && ((exists i | 0 <= i < |sources| && sources[i].logicalCount != sources[i].maximumEmissions :: v[i] < shares[i]) ==>
          exists i | 0 <= i < |sources| && sources[i].logicalCount != sources[i].maximumEmissions ::
            v[i] < shares[i] && Added(OtherSpawns(sources, v[i := v[i] + 1])) > target)
  }

  /** The counts of the other sources, by position. */
  ghost predicate OthersAre(sources: seq<Source>, v: seq<nat>, counts: Counts)
    requires |v| == |sources|
  {
    forall i | 0 <= i < |v| && sources[i].logicalCount != sources[i].maximumEmissions :: v[i] == Get(counts, sources[i].id)
  }

  lemma OneMoreIsBefore(sources: seq<Source>, v: seq<nat>, before: Counts, after: Counts, i: nat)
    requires DistinctIds(sources) && |v| == |sources| && i < |sources| && 0 < Get(before, sources[i].id)
    requires OthersAre(sources, v, after) && after == before[sources[i].id := Get(before, sources[i].id) - 1]
    requires !Single(sources[i])
    ensures Sum(Others(sources), Emitted(before)) == Added(OtherSpawns(sources, v[i := v[i] + 1]))
  {
    var more := v[i := v[i] + 1];
    forall j | 0 <= j < |v| && !Single(sources[j]) ensures more[j] == Get(before, sources[j].id) {
      if j != i { assert sources[j].id != sources[i].id; }
    }
    OthersAdded(sources, more, before);
  }

  lemma LastTrimAt(sources: seq<Source>, before: Counts, after: Counts) returns (i: nat)
    requires OneBodyLess(Others(sources), before, after)
    ensures i < |sources| && !Single(sources[i]) && 0 < Get(before, sources[i].id)
    ensures after == before[sources[i].id := Get(before, sources[i].id) - 1]
  {
    var others := Others(sources);
    var k: nat :| FirstLargest(others, before, k) && after == before[others[k].id := Get(before, others[k].id) - 1];
    Split(sources);
    assert others[k] in sources;
    i :| 0 <= i < |sources| && sources[i] == others[k];
  }

  lemma NoneOverShare(sources: seq<Source>, v: seq<nat>, steps: seq<Counts>, target: nat, shares: seq<nat>)
    requires |v| == |sources| == |shares| && TrimmingSoFar(Others(sources), steps, target)
    requires OthersAre(sources, v, Last(steps)) && OthersAre(sources, shares, steps[0])
    ensures forall i | 0 <= i < |sources| && sources[i].logicalCount != sources[i].maximumEmissions :: v[i] <= shares[i]
  {
    forall i | 0 <= i < |v| && !Single(sources[i]) ensures v[i] <= shares[i] {
      TrimmingTakes(Others(sources), steps, target, |steps| - 1, sources[i].id);
    }
  }

  lemma LastTrimOver(sources: seq<Source>, v: seq<nat>, steps: seq<Counts>, target: nat, shares: seq<nat>) returns (i: nat)
    requires DistinctIds(sources) && |v| == |sources| == |shares|
    requires |steps| > 1 && TrimmingSoFar(Others(sources), steps, target)
    requires OthersAre(sources, v, Last(steps)) && OthersAre(sources, shares, steps[0])
    ensures i < |sources| && sources[i].logicalCount != sources[i].maximumEmissions
    ensures v[i] < shares[i] && Added(OtherSpawns(sources, v[i := v[i] + 1])) > target
  {
    var n := |steps|;
    assert TrimAt(Others(sources), steps, target, n - 2);
    i := LastTrimAt(sources, steps[n - 2], steps[n - 1]);
    TrimmingTakes(Others(sources), steps, target, n - 2, sources[i].id);
    OneMoreIsBefore(sources, v, steps[n - 2], steps[n - 1], i);
  }

  lemma LastTrimNeeded(sources: seq<Source>, v: seq<nat>, steps: seq<Counts>, target: nat, shares: seq<nat>)
    requires DistinctIds(sources) && |v| == |sources| == |shares| && Trimming(Others(sources), steps, target)
    requires OthersAre(sources, v, Last(steps)) && OthersAre(sources, shares, steps[0])
    ensures TrimmedNoFurther(sources, v, shares, target)
  {
    NoneOverShare(sources, v, steps, target, shares);
    if |steps| > 1 {
      var i := LastTrimOver(sources, v, steps, target, shares);
    }
  }

  /** The shares of the target by logical count, rounded down. */
  ghost function Shares(sources: seq<Source>, target: nat, original: pos): seq<nat> {
    seq(|sources|, i requires 0 <= i < |sources| => target * sources[i].logicalCount / original)
  }

  lemma OthersHold(sources: seq<Source>, counts: Counts, trimmed: Counts)
    requires SameCounts(Others(sources), counts, trimmed)
    ensures OthersAre(sources, VectorOf(sources, counts), trimmed)
  {
    Split(sources);
    forall i | 0 <= i < |sources| && !Single(sources[i]) ensures Get(counts, sources[i].id) == Get(trimmed, sources[i].id) {
      assert sources[i] in Others(sources);
    }
  }

  lemma OthersShare(sources: seq<Source>, parts: Counts, target: nat, original: pos)
    requires FloorShares(Others(sources), parts, target, original)
    ensures OthersAre(sources, Shares(sources, target, original), parts)
  {
    Split(sources);
    forall i | 0 <= i < |sources| && !Single(sources[i])
      ensures Shares(sources, target, original)[i] == Get(parts, sources[i].id)
    {
      assert sources[i] in Others(sources);
      assert Get(parts, sources[i].id) == Floor(target, original)(sources[i]);
    }
  }

  lemma PartsTrimmed(sources: seq<Source>, counts: Counts, target: nat, original: pos)
    requires DistinctIds(sources) && SharesTrimmed(Others(sources), counts, target, original)
    ensures TrimmedNoFurther(sources, VectorOf(sources, counts), Shares(sources, target, original), target)
  {
    var parts, trimmed :| TrimmedBy(Others(sources), counts, parts, trimmed, target, original);
    var steps :| Trimming(Others(sources), steps, target) && steps[0] == parts && Last(steps) == trimmed;
    OthersHold(sources, counts, trimmed);
    OthersShare(sources, parts, target, original);
    LastTrimNeeded(sources, VectorOf(sources, counts), steps, target, Shares(sources, target, original));
  }

  lemma TrimmedMeans(sources: seq<Source>, counts: Counts, target: nat)
    requires DistinctIds(sources) && HasSingle(sources)
    requires SharedOut(Others(sources), Singles(sources), counts, target, Sum(sources, Maximum))
    ensures var original := Added(Maxima(sources));
            0 < original && TrimmedNoFurther(sources, VectorOf(sources, counts), Shares(sources, target, original), target)
  {
    SumIsAdded(sources, Maximum, Maxima(sources));
    QuotaPositive(sources);
    PartsTrimmed(sources, counts, target, Added(Maxima(sources)));
  }

  /** The numbers of an allocation with a single-emission source. */
  lemma AllocatedMeans(sources: seq<Source>, counts: Counts, reported: nat, target: nat)
    requires DistinctIds(sources) && Allocated(sources, counts, reported, target)
    requires exists s | s in sources :: s.logicalCount == s.maximumEmissions
    ensures reported == target == Added(Spawns(sources, VectorOf(sources, counts)))
    ensures var original := Added(Maxima(sources));
            0 < original && TrimmedNoFurther(sources, VectorOf(sources, counts), Shares(sources, target, original), target)
  {
    assert HasSingle(sources) && sources != [];
    SumIsAdded(sources, Emitted(counts), Spawns(sources, VectorOf(sources, counts)));
    TrimmedMeans(sources, counts, target);
  }

  /** Without a single-emission source the counts come from the knapsack. */
  method AllocateWithoutSingles(sources: seq<Source>, target: nat) returns (counts: Counts, reported: nat)
    requires DistinctIds(sources) && forall s | s in sources :: 0 < s.maximumEmissions
    ensures counts.Keys == Ids(sources) && reported == Sum(sources, Emitted(counts))
    ensures Sum(sources, Maximum) >= 0 && Optimal(sources, VectorOf(sources, counts), Sum(sources, Maximum), target)
  {
    SumNonNegative(sources, Maximum);
    var v := Knapsack(sources, Sum(sources, Maximum), target);
    counts := CountsFrom(sources, v);
    assert VectorOf(sources, counts) == v;
    TotalIsEmitted(sources, counts);
    reported := Sum(sources, Emitted(counts));
  }

  lemma AllocationIsNearest(sources: seq<Source>, counts: Counts, reported: nat, target: nat)
    requires Allocated(sources, counts, reported, target)
    ensures forall i | 0 <= i < |sources| :: sources[i].id in counts && VectorOf(sources, counts)[i] == counts[sources[i].id]
    ensures (forall s | s in sources :: s.logicalCount != s.maximumEmissions) ==>
              Added(Maxima(sources)) >= 0 && NearestShares(sources, VectorOf(sources, counts), Added(Maxima(sources)), target)
  {
    forall i | 0 <= i < |sources| ensures sources[i].id in counts {
      assert sources[i].id in Ids(sources);
    }
    SumIsAdded(sources, Maximum, Maxima(sources));
    if sources != [] && !HasSingle(sources) {
      OptimumIsNearest(sources, VectorOf(sources, counts), Sum(sources, Maximum), target);
    } else if sources == [] {
      NothingIsNearest(VectorOf(sources, counts), Added(Maxima(sources)), target);
    }
  }

  method AllocateCounts(sources: seq<Source>, target: nat) returns (counts: Counts, reported: nat)
    requires DistinctIds(sources)
    requires !HasSingle(sources) ==> forall s | s in sources :: 0 < s.maximumEmissions
    ensures Allocated(sources, counts, reported, target)
    ensures forall i | 0 <= i < |sources| :: sources[i].id in counts && VectorOf(sources, counts)[i] == counts[sources[i].id]
    ensures (forall s | s in sources :: s.logicalCount != s.maximumEmissions) ==>
              Added(Maxima(sources)) >= 0 && NearestShares(sources, VectorOf(sources, counts), Added(Maxima(sources)), target)
  {
    if sources == [] {
      counts, reported := map[], target;
    } else if HasSingle(sources) {
      counts := AllocateWithSingles(sources, target);
      reported := target;
    } else {
      counts, reported := AllocateWithoutSingles(sources, target);
    }
    AllocationIsNearest(sources, counts, reported, target);
  }

  ghost predicate Attainable(sources: seq<Source>, target: nat) {
    exists w: seq<nat> | |w| == |sources| :: Total(sources, w) == target
  }

  /** A source whose emissions grow by at most one per body. */
  predicate Gradual(s: Source) {
    0 < s.maximumEmissions <= s.logicalCount
  }

  /** The body count at which a gradual source emits exactly `t`. */
  lemma GradualEmits(s: Source, t: nat) returns (bodies: nat)
    requires Gradual(s)
    ensures Emissions(s, bodies) == t
  {
    var m, n := s.maximumEmissions, t * s.logicalCount;
    bodies := n / m;
    QuotientAndRest(n, m);
    EmissionsWithin(s, bodies, t);
    if t > 0 {
      EmissionsWithin(s, bodies, t - 1);
      assert n == (t - 1) * s.logicalCount + s.logicalCount;
    }
  }

  lemma {:induction false} TotalAlone(sources: seq<Source>, w: seq<nat>, i: nat)
    requires |w| == |sources| && i < |sources| && forall j | 0 <= j < |w| && j != i :: w[j] == 0
    ensures Total(sources, w) == Emissions(sources[i], w[i])
  {
    var n := |sources| - 1;
    if i == n {
      NothingEmitted(sources[..n], w[..n]);
    } else {
      EmissionsZero(sources[n]);
      TotalAlone(sources[..n], w[..n], i);
    }
  }

  lemma {:induction false} SomeGradual(sources: seq<Source>, w: seq<nat>)
    requires |w| == |sources| && Total(sources, w) == 1
    ensures exists s | s in sources :: Gradual(s)
  {
    var n := |sources| - 1;
    if Emissions(sources[n], w[n]) == 1 {
      EmissionsWithin(sources[n], w[n], 1);
      EmissionsWithin(sources[n], w[n], 0);
      assert w[n] > 0 && sources[n].maximumEmissions > 0;
      MulMono(1, w[n], sources[n].maximumEmissions);
      assert Gradual(sources[n]);
    } else {
      SomeGradual(sources[..n], w[..n]);
      var s :| s in sources[..n] && Gradual(s);
      assert s in sources;
    }
  }

  lemma GradualReachesAll(sources: seq<Source>, i: nat, target: nat)
    requires i < |sources| && Gradual(sources[i])
    ensures Attainable(sources, target)
  {
    var bodies := GradualEmits(sources[i], target);
    var w := seq(|sources|, j => if j == i then bodies else 0);
    TotalAlone(sources, w, i);
  }

  /** Every target is attainable exactly when some source emits at most once per body. */
  lemma EveryTargetAttainable(sources: seq<Source>)
    ensures (forall target: nat :: Attainable(sources, target)) <==> exists s | s in sources :: Gradual(s)
  {
    if s :| s in sources && Gradual(s) {
      var i :| 0 <= i < |sources| && sources[i] == s;
      forall target: nat ensures Attainable(sources, target) {
        GradualReachesAll(sources, i, target);
      }
    } else if Attainable(sources, 1) {
      var w: seq<nat> :| |w| == |sources| && Total(sources, w) == 1;
      SomeGradual(sources, w);
    }
  }

  /** An optimum hits the target exactly when some vector of counts does. */
  lemma OptimumHitsAttainable(sources: seq<Source>, v: seq<nat>, original: nat, target: nat)
    requires |v| == |sources| && Optimal(sources, v, original, target)
    ensures Total(sources, v) == target <==> Attainable(sources, target)
  {
    if Attainable(sources, target) {
      var w: seq<nat> :| |w| == |sources| && Total(sources, w) == target;
      assert Total(sources, w) <= Total(sources, v);
    }
  }

  /** Every allocation hits the target exactly when some vector of counts does. */
  lemma AllocationHitsAttainable(sources: seq<Source>, counts: Counts, reported: nat, target: nat)
    requires sources != [] && Allocated(sources, counts, reported, target)
    ensures reported <= target
    ensures reported == target <==> Attainable(sources, target)
  {
    TotalIsEmitted(sources, counts);
    if !HasSingle(sources) {
      OptimumHitsAttainable(sources, VectorOf(sources, counts), Sum(sources, Maximum), target);
    } else {
      assert Total(sources, VectorOf(sources, counts)) == target;
    }
  }

  /** With a single-emission source every target is attainable. */
  lemma SinglesReachAll(sources: seq<Source>, target: nat)
    requires HasSingle(sources)
    ensures Attainable(sources, target)
  {
    var s :| s in sources && Single(s);
    assert Gradual(s);
    EveryTargetAttainable(sources);
  }

  /** Without a single-emission source a target can be out of reach: one source that emits in threes. */
  lemma TargetOutOfReach()
    ensures var s := Source("a", 1, 3);
            !HasSingle([s]) && forall v: seq<nat> | |v| == 1 :: Total([s], v) != 4
  {
    var s := Source("a", 1, 3);
    forall v: seq<nat> | |v| == 1 ensures Total([s], v) != 4 {
      assert [s][..0] == [] && v[..0] == [];
      assert Total([s], v) == Total([s][..0], v[..0]) + Emissions(s, v[0]);
    }
  }
}
