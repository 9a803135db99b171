/** Scaling a category budget and moving parts of it to ammunition fodder, without losing a body. */
module BudgetMoves {
  import opened Foundations
  import opened EmissionAllocation

  const STATIONARY := "stationary"

  /** Nearest integer, halves to even. */
  function Round(x: real): int {
    var f := x.Floor;
    var rest := x - f as real;
    if rest < 0.5 || (rest == 0.5 && f % 2 == 0) then f else f + 1
  }

  function Scaled(count: int, factor: real): int {
    Max(0, Round(count as real * factor))
  }

  /** The scaled count is a nearest natural number to the exact product, and the even one at a tie. */
  lemma ScaledIsNearest(count: nat, factor: real)
    requires 0.0 <= factor
    ensures var exact := count as real * factor;
            var r := Scaled(count, factor);
            -0.5 <= r as real - exact <= 0.5 && (r as real - exact == 0.5 || r as real - exact == -0.5 ==> r % 2 == 0)
  {
    assert 0.0 <= count as real * factor;
  }

  lemma SumUpdated(names: seq<string>, tally: Tally, x: string, value: int)
    requires Distinct(names)
    ensures Sum(names, Entry(tally[x := value])) == Sum(names, Entry(tally)) + (if x in names then value - At(tally, x) else 0)
  {
    if x in names {
      SumPoint(names, Entry(tally), Entry(tally[x := value]), x);
    } else {
      SumSame(names, Entry(tally), Entry(tally[x := value]));
    }
  }

  // ---------------------------------------------------------------- scaling

  /** Special species first, then by name. */
  function CutOrder(specials: set<string>): (string, string) -> bool {
    (a: string, b: string) => (a in specials && b !in specials) || ((a in specials <==> b in specials) && TextLeq(a, b))
  }

  lemma CutOrdering(specials: set<string>)
    ensures Ordering(CutOrder(specials))
  {
    var less := CutOrder(specials);
    forall x, y ensures less(x, y) || less(y, x) { TextTotal(x, y); }
    forall x, y, z | less(x, y) && less(y, z) ensures less(x, z) {
      if TextLeq(x, y) && TextLeq(y, z) { TextTransitive(x, y, z); }
    }
  }

  /** A threat loses bodies only when every later threat has lost all of its own. */
  ghost predicate CutLastFirst(order: seq<string>, wanted: Tally, cut: Tally) {
    && (forall k | k in order :: 0 <= At(cut, k) <= At(wanted, k))
    && (forall i, j | 0 <= i < j < |order| && At(cut, order[i]) < At(wanted, order[i]) :: At(cut, order[j]) == 0)
  }

  method ScaleThreats(counts: Tally, threats: seq<string>, factor: real) returns (scaled: Tally)
    requires Distinct(threats)
    ensures forall k :: At(scaled, k) == if k in threats then Scaled(At(counts, k), factor) else At(counts, k)
    ensures scaled.Keys == counts.Keys + Members(threats)
  {
    scaled := counts;
    for i := 0 to |threats|
      invariant forall k :: At(scaled, k) == if k in threats[..i] then Scaled(At(counts, k), factor) else At(counts, k)
      invariant scaled.Keys == counts.Keys + Members(threats[..i])
    {
      assert threats[..i + 1] == threats[..i] + [threats[i]];
      assert threats[i] !in threats[..i];
      scaled := scaled[threats[i] := Scaled(At(counts, threats[i]), factor)];
    }
    assert threats[..|threats|] == threats;
  }

  /** The first `i` threats of the order have had their turn; `remainder` is still to be given. */
  ghost predicate CutUpTo(order: seq<string>, i: nat, wanted: Tally, cut: Tally, total: nat, remainder: int) {
    && i <= |order| && 0 <= remainder && cut.Keys == wanted.Keys
    && (forall k | k !in order :: At(cut, k) == At(wanted, k))
    && (forall j | i <= j < |order| :: At(cut, order[j]) == At(wanted, order[j]))
    && (forall j | 0 <= j < i :: 0 <= At(cut, order[j]) <= At(wanted, order[j]))
    && (forall a, b | 0 <= a < b < i && At(cut, order[a]) < At(wanted, order[a]) :: At(cut, order[b]) == 0)
    && (remainder > 0 ==> forall j | 0 <= j < i :: At(cut, order[j]) == At(wanted, order[j]))
    && Sum(order[..i], Entry(cut)) == total - remainder
  }

  lemma CutSum(order: seq<string>, i: nat, cut: Tally, kept: int)
    requires Distinct(order) && i < |order|
    ensures Sum(order[..i + 1], Entry(cut[order[i] := kept])) == Sum(order[..i], Entry(cut)) + kept
  {
    assert order[..i + 1] == order[..i] + [order[i]];
    assert order[i] !in order[..i];
    SumSnoc(order[..i], order[i], Entry(cut[order[i] := kept]));
    SumUpdated(order[..i], cut, order[i], kept);
  }

  lemma CutStep(order: seq<string>, i: nat, wanted: Tally, cut: Tally, total: nat, remainder: int)
    requires Distinct(order) && i < |order| && CutUpTo(order, i, wanted, cut, total, remainder)
    requires order[i] in wanted && 0 <= At(wanted, order[i])
    ensures var kept := Min(At(cut, order[i]), remainder);
            CutUpTo(order, i + 1, wanted, cut[order[i] := kept], total, remainder - kept)
  {
    var kept := Min(At(cut, order[i]), remainder);
    var after := cut[order[i] := kept];
    CutSum(order, i, cut, kept);
    assert forall j | 0 <= j < |order| && j != i :: At(after, order[j]) == At(cut, order[j]);
  }

  lemma CutDone(order: seq<string>, wanted: Tally, cut: Tally, total: nat, remainder: int)
    requires CutUpTo(order, |order|, wanted, cut, total, remainder) && total < Sum(order, Entry(wanted))
    ensures CutLastFirst(order, wanted, cut) && Sum(order, Entry(cut)) == total
  {
    assert order[..|order|] == order;
    if remainder > 0 {
      SumSame(order, Entry(cut), Entry(wanted));
    }
  }

  /** Keeps as much of each threat, in order, as the total still allows. */
  method CutThreats(wanted: Tally, order: seq<string>, total: nat) returns (cut: Tally)
    requires Distinct(order) && forall k | k in order :: k in wanted && 0 <= At(wanted, k)
    requires total < Sum(order, Entry(wanted))
    ensures cut.Keys == wanted.Keys
    ensures forall k | k !in order :: At(cut, k) == At(wanted, k)
    ensures CutLastFirst(order, wanted, cut) && Sum(order, Entry(cut)) == total
  {
    cut := wanted;
    var remainder := total;
    for i := 0 to |order|
      invariant CutUpTo(order, i, wanted, cut, total, remainder)
    {
      assert order[i] in order;
      CutStep(order, i, wanted, cut, total, remainder);
      var kept := Min(At(cut, order[i]), remainder);
      cut := cut[order[i] := kept];
      remainder := remainder - kept;
    }
    CutDone(order, wanted, cut, total, remainder);
  }

  ghost predicate ThreatNames(counts: Tally, threats: seq<string>) {
    Distinct(threats) && forall k :: k in threats <==> k in counts && k != "fodder" && k != "stationary"
  }

  /** The scaled threats, cut only if they exceed the total. */
  method LimitThreats(scaled: Tally, threats: seq<string>, total: nat, specials: set<string>) returns (cut: Tally)
    requires ThreatNames(scaled, threats) && forall k | k in threats :: 0 <= At(scaled, k)
    ensures cut.Keys == scaled.Keys && (forall k | k !in threats :: At(cut, k) == At(scaled, k))
    ensures forall k | k in threats :: 0 <= At(cut, k)
    ensures Sum(threats, Entry(scaled)) <= total ==> cut == scaled
    ensures Sum(threats, Entry(scaled)) > total ==>
              CutLastFirst(SortBy(threats, CutOrder(specials)), scaled, cut) && Sum(threats, Entry(cut)) == total
  {
    var order := SortBy(threats, CutOrder(specials));
    CutOrdering(specials);
    SortKeeps(threats, CutOrder(specials));
    SortCorrect(threats, CutOrder(specials));
    SumPermutation(order, threats, Entry(scaled));
    if Sum(threats, Entry(scaled)) <= total {
      return scaled;
    }
    cut := CutThreats(scaled, order, total);
    SumPermutation(order, threats, Entry(cut));
  }

  lemma Assembled(cut: Tally, threats: seq<string>, stationary: int, fodder: int)
    requires Distinct(threats) && FODDER !in threats && STATIONARY !in threats
    requires forall k | k in cut :: k in threats || k == FODDER || k == STATIONARY
    requires forall k | k in threats :: k in cut
    ensures TallyTotal(cut[STATIONARY := stationary][FODDER := fodder]) == Sum(threats, Entry(cut)) + stationary + fodder
  {
    var result := cut[STATIONARY := stationary][FODDER := fodder];
    var names := Members(threats);
    assert result.Keys - {FODDER} - {STATIONARY} == names;
    SetSumSplit(result.Keys, Entry(result), FODDER);
    SetSumSplit(result.Keys - {FODDER}, Entry(result), STATIONARY);
    SumIsSetSum(threats, Entry(cut));
    SetSumSame(names, Entry(cut), Entry(result));
  }

  /** A threat that lost bodies stands before only such threats as have lost all: special species stand first, then the
    * order is by name. */
  ghost predicate CutByRank(threats: seq<string>, wanted: Tally, cut: Tally, specials: set<string>) {
    forall a, b | a in threats && b in threats && a != b && At(cut, a) < At(wanted, a)
                  && ((a in specials && b !in specials) || ((a in specials <==> b in specials) && TextLeq(a, b))) ::
      At(cut, b) == 0
  }

  lemma OnlyOneFirst(a: string, b: string, specials: set<string>)
    requires a != b && CutOrder(specials)(a, b)
    ensures !CutOrder(specials)(b, a)
  {
    TextTotal(a, b);
  }

  lemma CutRanks(threats: seq<string>, wanted: Tally, cut: Tally, specials: set<string>)
    requires CutLastFirst(SortBy(threats, CutOrder(specials)), wanted, cut)
    ensures CutByRank(threats, wanted, cut, specials)
  {
    var less := CutOrder(specials);
    CutOrdering(specials);
    SortKeeps(threats, less);
    SortCorrect(threats, less);
    forall a, b | a in threats && b in threats && a != b && At(cut, a) < At(wanted, a) && less(a, b) ensures At(cut, b) == 0 {
      OnlyOneFirst(a, b, specials);
      var i, j := StandBefore(SortBy(threats, less), less, a, b);
    }
  }

  lemma CutCarriesOver(order: seq<string>, wanted: Tally, cut: Tally, result: Tally, threats: seq<string>, specials: set<string>)
    requires order == SortBy(threats, CutOrder(specials))
    requires forall k | k in threats :: At(result, k) == At(cut, k)
    ensures CutLastFirst(order, wanted, cut) ==> CutLastFirst(order, wanted, result)
  {
    CutOrdering(specials);
    SortKeeps(threats, CutOrder(specials));
    assert forall i | 0 <= i < |order| :: order[i] in order && order[i] in threats;
  }

  /** The scaled budget has exactly `total` bodies: threats as scaled, cut from the least special last name
    * backwards if they are too many, then stationary bodies as far as they go, then fodder. */
  method ModifiedBudget(counts: Tally, threats: seq<string>, factor: real, total: nat, specials: set<string>)
    returns (result: Tally, ghost wanted: Tally)
    requires 0.0 <= factor && ThreatNames(counts, threats) && forall k | k in counts :: 0 <= At(counts, k)
    ensures TallyTotal(result) == total
    ensures forall k :: 0 <= At(result, k)
    ensures forall k | k in threats :: At(wanted, k) == Scaled(At(counts, k), factor)
    ensures Sum(threats, Entry(wanted)) <= total ==> forall k | k in threats :: At(result, k) == At(wanted, k)
    ensures Sum(threats, Entry(wanted)) > total ==>
              && CutLastFirst(SortBy(threats, CutOrder(specials)), wanted, result)
              && At(result, STATIONARY) == 0 && At(result, FODDER) == 0
    ensures Sum(threats, Entry(wanted)) > total ==> CutByRank(threats, wanted, result, specials)
    ensures At(result, STATIONARY) <= At(counts, STATIONARY)
    ensures 0 < At(result, FODDER) ==> At(result, STATIONARY) == At(counts, STATIONARY)
  {
    var scaled := ScaleThreats(counts, threats, factor);
    wanted := scaled;
    var cut := LimitThreats(scaled, threats, total, specials);
    var kept := Sum(threats, Entry(cut));
    SumNonNegative(threats, Entry(cut));
    var stationary := Min(At(cut, STATIONARY), Max(0, total - kept));
    var fodder := Max(0, total - stationary - kept);
    Assembled(cut, threats, stationary, fodder);
    result := cut[STATIONARY := stationary][FODDER := fodder];
    CutCarriesOver(SortBy(threats, CutOrder(specials)), wanted, cut, result, threats, specials);
    if kept == total && Sum(threats, Entry(wanted)) > total {
      CutRanks(threats, wanted, result, specials);
    }
  }

  // ---------------------------------------------------------------- making room for fodder

  /** The same bodies, `moved` of them now fodder; threats only shrink. */
  ghost predicate Moved(before: Tally, after: Tally, threats: seq<string>) {
    && after.Keys == before.Keys + {FODDER}
    && (forall k | k in threats :: 0 <= At(after, k) <= At(before, k))
    && (forall k | k !in threats && k != FODDER :: At(after, k) == At(before, k))
    && At(after, FODDER) + Sum(threats, Entry(after)) == At(before, FODDER) + Sum(threats, Entry(before))
  }

  /** `removed` bodies of `k` become fodder. */
  function ToFodder(tally: Tally, k: string, removed: int): Tally {
    var less := tally[k := At(tally, k) - removed];
    less[FODDER := At(less, FODDER) + removed]
  }

  function Spare(desired: Tally, native: Tally, k: string, surplusOnly: bool): int {
    if surplusOnly then Max(0, At(desired, k) - At(native, k)) else At(desired, k)
  }

  /** The first `i` threats have had their turn in this pass. */
  ghost predicate PassUpTo(desired: Tally, native: Tally, order: seq<string>, i: nat, after: Tally, surplusOnly: bool) {
    && i <= |order| && Moved(desired, after, order) && At(desired, FODDER) <= At(after, FODDER)
    && (forall j | i <= j < |order| :: At(after, order[j]) == At(desired, order[j]))
    && (surplusOnly ==> forall j | 0 <= j < i :: At(after, order[j]) == At(desired, order[j]) || At(native, order[j]) <= At(after, order[j]))
  }

  ghost predicate Drained(native: Tally, order: seq<string>, i: nat, after: Tally, surplusOnly: bool) {
    i <= |order| && forall j | 0 <= j < i :: Spare(after, native, order[j], surplusOnly) == 0
  }

  lemma TakeOne(before: Tally, after: Tally, order: seq<string>, i: nat, removed: int)
    requires Distinct(order) && FODDER !in order && i < |order| && Moved(before, after, order) && order[i] in before
    requires 0 <= removed <= At(after, order[i])
    ensures Moved(before, ToFodder(after, order[i], removed), order)
  {
    var k := order[i];
    var next := after[k := At(after, k) - removed];
    SumUpdated(order, after, k, At(after, k) - removed);
    SumUpdated(order, next, FODDER, At(next, FODDER) + removed);
  }

  lemma PassStep(desired: Tally, native: Tally, order: seq<string>, i: nat, after: Tally, surplusOnly: bool, removed: int)
    requires Distinct(order) && FODDER !in order && i < |order| && order[i] in desired && 0 <= At(native, order[i])
    requires PassUpTo(desired, native, order, i, after, surplusOnly)
    requires 0 <= removed <= Spare(after, native, order[i], surplusOnly)
    ensures PassUpTo(desired, native, order, i + 1, ToFodder(after, order[i], removed), surplusOnly)
  {
    TakeOne(desired, after, order, i, removed);
    var last := ToFodder(after, order[i], removed);
    assert forall j | 0 <= j < |order| && j != i :: order[j] in order && At(last, order[j]) == At(after, order[j]);
  }

  lemma DrainStep(native: Tally, order: seq<string>, i: nat, after: Tally, surplusOnly: bool, removed: int)
    requires Distinct(order) && FODDER !in order && i < |order|
    requires Drained(native, order, i, after, surplusOnly)
    requires removed == Spare(after, native, order[i], surplusOnly)
    ensures Drained(native, order, i + 1, ToFodder(after, order[i], removed), surplusOnly)
  {
    var last := ToFodder(after, order[i], removed);
    assert order[i] in order;
    assert forall j | 0 <= j < i :: order[j] in order && At(last, order[j]) == At(after, order[j]);
  }

  /** Among the first `n` threats, one gives only after every earlier one has given all it may. */
  ghost predicate GivesInTurn(desired: Tally, native: Tally, order: seq<string>, n: nat, after: Tally, surplusOnly: bool) {
    n <= |order| && forall a, b | 0 <= a < b < n && At(after, order[b]) < At(desired, order[b]) :: Spare(after, native, order[a], surplusOnly) == 0
  }

  lemma TurnStep(desired: Tally, native: Tally, order: seq<string>, i: nat, after: Tally, surplusOnly: bool, removed: int)
    requires Distinct(order) && FODDER !in order && i < |order|
    requires At(after, order[i]) == At(desired, order[i]) && GivesInTurn(desired, native, order, i, after, surplusOnly)
    requires removed == 0 || Drained(native, order, i, after, surplusOnly)
    ensures GivesInTurn(desired, native, order, i + 1, ToFodder(after, order[i], removed), surplusOnly)
  {
    var last := ToFodder(after, order[i], removed);
    assert forall j | 0 <= j < i :: order[j] in order && At(last, order[j]) == At(after, order[j]);
    assert order[i] in order && At(last, order[i]) == At(after, order[i]) - removed;
  }

  lemma PassStart(desired: Tally, native: Tally, order: seq<string>, surplusOnly: bool)
    requires Distinct(order) && FODDER !in order && forall k | k in order :: 0 <= At(desired, k)
    ensures PassUpTo(desired, native, order, 0, desired[FODDER := At(desired, FODDER)], surplusOnly)
  {
    SumUpdated(order, desired, FODDER, At(desired, FODDER));
  }

  /** One pass over the threats in their order. */
  method TakePass(desired: Tally, native: Tally, order: seq<string>, shortfall: nat, surplusOnly: bool) returns (after: Tally, left: nat)
    requires Distinct(order) && FODDER !in order && forall k | k in order :: k in desired && 0 <= At(desired, k)
    requires forall k :: 0 <= At(native, k)
    ensures PassUpTo(desired, native, order, |order|, after, surplusOnly)
    ensures left <= shortfall && At(after, FODDER) == At(desired, FODDER) + shortfall - left
    ensures left > 0 ==> Drained(native, order, |order|, after, surplusOnly)
    ensures GivesInTurn(desired, native, order, |order|, after, surplusOnly)
  {
    after, left := desired[FODDER := At(desired, FODDER)], shortfall;
    PassStart(desired, native, order, surplusOnly);
    for i := 0 to |order|
      invariant PassUpTo(desired, native, order, i, after, surplusOnly) && GivesInTurn(desired, native, order, i, after, surplusOnly)
      invariant left <= shortfall && At(after, FODDER) == At(desired, FODDER) + shortfall - left
      invariant left > 0 ==> Drained(native, order, i, after, surplusOnly)
    {
      assert order[i] in order && At(after, order[i]) >= 0;
      var removed := Min(left, Spare(after, native, order[i], surplusOnly));
      PassStep(desired, native, order, i, after, surplusOnly, removed);
      TurnStep(desired, native, order, i, after, surplusOnly, removed);
      if removed < left {
        DrainStep(native, order, i, after, surplusOnly, removed);
      }
      after := ToFodder(after, order[i], removed);
      left := left - removed;
    }
  }

  /** Only when every surplus is gone does a threat go below its native share. */
  ghost predicate SurplusFirst(desired: Tally, native: Tally, after: Tally, threats: seq<string>) {
    (exists k | k in threats :: At(after, k) < Min(At(desired, k), At(native, k))) ==>
      forall k | k in threats :: At(after, k) <= At(native, k)
  }

  lemma NameOrder(threats: seq<string>)
    ensures var order := SortBy(threats, (a, b) => TextLeq(a, b));
            SortedBy(order, (a, b) => TextLeq(a, b)) && multiset(order) == multiset(threats) && (forall k :: k in order <==> k in threats)
            && (Distinct(threats) ==> Distinct(order))
  {
    var less := (a, b) => TextLeq(a, b);
    forall x, y ensures less(x, y) || less(y, x) { TextTotal(x, y); }
    forall x, y, z | less(x, y) && less(y, z) ensures less(x, z) { TextTransitive(x, y, z); }
    SortCorrect(threats, less);
    SortKeeps(threats, less);
  }

  lemma MovedTwice(a: Tally, b: Tally, c: Tally, names: seq<string>)
    requires Moved(a, b, names) && Moved(b, c, names)
    ensures Moved(a, c, names)
  {}

  lemma SamePermutation(a: Tally, b: Tally, order: seq<string>, names: seq<string>)
    requires Moved(a, b, order) && multiset(order) == multiset(names) && forall k :: k in order <==> k in names
    ensures Moved(a, b, names)
  {
    SumPermutation(order, names, Entry(a));
    SumPermutation(order, names, Entry(b));
  }

  lemma NothingLeft(native: Tally, order: seq<string>, after: Tally)
    requires Drained(native, order, |order|, after, false)
    ensures Sum(order, Entry(after)) == 0
  {
    forall k | k in order ensures Entry(after)(k) == 0 {
      var j :| 0 <= j < |order| && order[j] == k;
      assert Spare(after, native, order[j], false) == 0;
    }
    SumZero(order, Entry(after));
  }

  /** A move that adds nothing to fodder takes nothing from any threat. */
  lemma UnmovedWhenEqual(before: Tally, after: Tally, names: seq<string>)
    requires Moved(before, after, names) && At(after, FODDER) == At(before, FODDER)
    ensures forall k | k in names :: At(after, k) == At(before, k)
  {
    var drop := (k: string) => At(before, k) - At(after, k);
    SumPlus(names, Entry(after), drop, Entry(before));
    SumNonNegative(names, drop);
    forall k | k in names ensures At(after, k) == At(before, k) {
      assert 0 <= drop(k) <= Sum(names, drop);
    }
  }

  lemma SurplusWentFirst(desired: Tally, native: Tally, order: seq<string>, first: Tally, second: Tally, shortfall: nat, left: nat, threats: seq<string>)
    requires left <= shortfall && PassUpTo(desired, native, order, |order|, first, true)
    requires left > 0 ==> Drained(native, order, |order|, first, true)
    requires Moved(first, second, order) && (forall k :: k in order <==> k in threats)
    requires left == 0 ==> At(second, FODDER) == At(first, FODDER)
    ensures SurplusFirst(desired, native, second, threats)
  {
    if left == 0 {
      UnmovedWhenEqual(first, second, order);
      forall k | k in threats ensures At(second, k) >= Min(At(desired, k), At(native, k)) {
        var j :| 0 <= j < |order| && order[j] == k;
        assert At(first, order[j]) == At(desired, order[j]) || At(native, order[j]) <= At(first, order[j]);
      }
    } else {
      forall k | k in threats ensures At(second, k) <= At(native, k) {
        var j :| 0 <= j < |order| && order[j] == k;
        assert Spare(first, native, order[j], true) == 0;
      }
    }
  }

  /** A threat gives only after every threat before it by name has given all it may: down to its native share in the first
    * pass, down to nothing in the second. */
  ghost predicate TakenByName(threats: seq<string>, before: Tally, native: Tally, after: Tally, surplusOnly: bool) {
    forall a, b | a in threats && b in threats && a != b && TextLeq(a, b) && At(after, b) < At(before, b) ::
      At(after, a) <= if surplusOnly then At(native, a) else 0
  }

  lemma TurnsByName(threats: seq<string>, before: Tally, native: Tally, after: Tally, surplusOnly: bool)
    requires var order := SortBy(threats, (a, b) => TextLeq(a, b));
             GivesInTurn(before, native, order, |order|, after, surplusOnly)
    ensures TakenByName(threats, before, native, after, surplusOnly)
  {
    var less := (a, b) => TextLeq(a, b);
    var order := SortBy(threats, less);
    NameOrder(threats);
    forall a, b | a in threats && b in threats && a != b && TextLeq(a, b) && At(after, b) < At(before, b)
      ensures At(after, a) <= if surplusOnly then At(native, a) else 0
    {
      TextTotal(a, b);
      var i, j := StandBefore(order, less, a, b);
      assert Spare(after, native, order[i], surplusOnly) == 0;
    }
  }

  /** Moves threats to fodder until the requirement is met: first only what exceeds the native share, up to
    * `between`, then the rest, each time in name order. It fails exactly when all threats together do not suffice. */
  method RequireFodder(desired: Tally, native: Tally, threats: seq<string>, required: nat)
    returns (r: Option<Tally>, ghost between: Tally)
    requires ThreatNames(desired, threats) && (forall k :: 0 <= At(desired, k)) && forall k :: 0 <= At(native, k)
    ensures r.Some? <==> required <= At(desired, FODDER) + Sum(threats, Entry(desired))
    ensures r.Some? ==>
              && Moved(desired, r.value, threats)
              && At(r.value, FODDER) == Max(At(desired, FODDER), required)
              && SurplusFirst(desired, native, r.value, threats)
              && var order := SortBy(threats, (a, b) => TextLeq(a, b));
                 && GivesInTurn(desired, native, order, |order|, between, true)
                 && GivesInTurn(between, native, order, |order|, r.value, false)
    ensures r.Some? ==> TakenByName(threats, desired, native, between, true) && TakenByName(threats, between, native, r.value, false)
  {
    var order := SortBy(threats, (a, b) => TextLeq(a, b));
    NameOrder(threats);
    var shortfall := Max(0, required - At(desired, FODDER));
    var first, left := TakePass(desired, native, order, shortfall, true);
    var second, still := TakePass(first, native, order, left, false);
    MovedTwice(desired, first, second, order);
    SamePermutation(desired, second, order, threats);
    if still > 0 {
      NothingLeft(native, order, second);
      SumPermutation(order, threats, Entry(second));
      return None, first;
    }
    SumNonNegative(threats, Entry(second));
    SurplusWentFirst(desired, native, order, first, second, shortfall, left, threats);
    TurnsByName(threats, desired, native, first, true);
    TurnsByName(threats, first, native, second, false);
    r, between := Some(second), first;
  }

  // ---------------------------------------------------------------- making room at compatible sources

  function Fit(sources: seq<Source>, compatible: set<string>, wanted: bool): seq<Source> {
    if sources == [] then []
    else (if (sources[0].id in compatible) == wanted then [sources[0]] else []) + Fit(sources[1..], compatible, wanted)
  }

  lemma {:induction false} FitMembers(sources: seq<Source>, compatible: set<string>, wanted: bool)
    ensures forall s :: s in Fit(sources, compatible, wanted) <==> s in sources && (s.id in compatible) == wanted
    ensures DistinctIds(sources) ==> DistinctIds(Fit(sources, compatible, wanted))
  {
    if sources != [] {
      FitMembers(sources[1..], compatible, wanted);
      if DistinctIds(sources) {
        forall s | s in sources[1..] ensures s.id != sources[0].id {
          var i :| 0 <= i < |sources[1..]| && sources[1..][i] == s;
          assert sources[i + 1] == s;
        }
      }
    }
  }

  lemma {:induction false} FitSum(sources: seq<Source>, compatible: set<string>, f: Source -> int)
    ensures Sum(sources, f) == Sum(Fit(sources, compatible, true), f) + Sum(Fit(sources, compatible, false), f)
  {
    if sources != [] {
      FitSum(sources[1..], compatible, f);
      SumAppend(if sources[0].id in compatible then [sources[0]] else [], Fit(sources[1..], compatible, true), f);
      SumAppend(if sources[0].id in compatible then [] else [sources[0]], Fit(sources[1..], compatible, false), f);
      assert Sum([sources[0]], f) == f(sources[0]) + Sum([sources[0]][1..], f);
    }
  }

  /** Supply sources first, then the larger logical count, then the identity. */
  predicate Prefers(a: Source, b: Source, supplies: set<string>) {
    || (a.id in supplies && b.id !in supplies)
    || ((a.id in supplies <==> b.id in supplies)
        && (a.logicalCount > b.logicalCount || (a.logicalCount == b.logicalCount && TextLeq(a.id, b.id))))
  }

  method Favourite(sources: seq<Source>, supplies: set<string>) returns (chosen: Source)
    requires sources != []
    ensures chosen in sources && forall s | s in sources :: Prefers(chosen, s, supplies)
  {
    chosen := sources[0];
    TextTotal(chosen.id, chosen.id);
    for i := 1 to |sources|
      invariant chosen in sources && forall j | 0 <= j < i :: Prefers(chosen, sources[j], supplies)
    {
      TextTotal(chosen.id, sources[i].id);
      TextTotal(sources[i].id, sources[i].id);
      if !Prefers(chosen, sources[i], supplies) {
        forall j | 0 <= j < i ensures Prefers(sources[i], sources[j], supplies) {
          if TextLeq(sources[i].id, chosen.id) && TextLeq(chosen.id, sources[j].id) {
            TextTransitive(sources[i].id, chosen.id, sources[j].id);
          }
        }
        chosen := sources[i];
      }
    }
  }

  function LargestFirst(counts: Counts): (Source, Source) -> bool {
    (a: Source, b: Source) => Get(counts, a.id) > Get(counts, b.id) || (Get(counts, a.id) == Get(counts, b.id) && TextLeq(a.id, b.id))
  }

  lemma LargestOrdering(counts: Counts)
    ensures Ordering(LargestFirst(counts))
  {
    var less := LargestFirst(counts);
    forall x, y ensures less(x, y) || less(y, x) { TextTotal(x.id, y.id); }
    forall x, y, z | less(x, y) && less(y, z) ensures less(x, z) {
      if TextLeq(x.id, y.id) && TextLeq(y.id, z.id) { TextTransitive(x.id, y.id, z.id); }
    }
  }

  /** Bodies have only moved from `donors` to the chosen source. */
  ghost predicate Donated(before: Counts, after: Counts, donors: seq<Source>, chosen: Source) {
    && after.Keys == before.Keys && Get(before, chosen.id) <= Get(after, chosen.id)
    && (forall s | s in donors :: 0 <= Get(after, s.id) <= Get(before, s.id))
    && (forall id | id != chosen.id && !(exists s | s in donors :: s.id == id) :: Get(after, id) == Get(before, id))
    && Get(after, chosen.id) + Sum(donors, Bodies(after)) == Get(before, chosen.id) + Sum(donors, Bodies(before))
  }

  /** `part` bodies leave one source and arrive at another. */
  function Give(counts: Counts, donor: string, chosen: string, part: nat): Counts
    requires part <= Get(counts, donor)
  {
    var less := counts[donor := Get(counts, donor) - part];
    less[chosen := Get(less, chosen) + part]
  }

  lemma DonateStep(before: Counts, after: Counts, donors: seq<Source>, chosen: Source, i: nat, part: nat)
    requires DistinctIds(donors) && (forall s | s in donors :: s.id != chosen.id && s.id in before) && chosen.id in before
    requires i < |donors| && Donated(before, after, donors, chosen) && part <= Get(after, donors[i].id)
    ensures Donated(before, Give(after, donors[i].id, chosen.id, part), donors, chosen)
    ensures Get(Give(after, donors[i].id, chosen.id, part), chosen.id) == Get(after, chosen.id) + part
  {
    var x := donors[i];
    assert x in donors;
    var last := Give(after, x.id, chosen.id, part);
    DistinctSources(donors);
    forall y | y in donors && y != x ensures Bodies(after)(y) == Bodies(last)(y) {
      assert y.id != x.id && y.id != chosen.id;
    }
    SumPoint(donors, Bodies(after), Bodies(last), x);
  }

  ghost predicate Untouched(before: Counts, after: Counts, donors: seq<Source>, i: nat) {
    forall j | i <= j < |donors| :: Get(after, donors[j].id) == Get(before, donors[j].id)
  }

  ghost predicate Emptied(after: Counts, donors: seq<Source>, i: nat) {
    i <= |donors| && forall j | 0 <= j < i :: Get(after, donors[j].id) == 0
  }

  /** A donor gives only after every earlier one has given everything. */
  ghost predicate DonatedInTurn(before: Counts, after: Counts, donors: seq<Source>) {
    forall a, b | 0 <= a < b < |donors| && Get(after, donors[b].id) < Get(before, donors[b].id) :: Get(after, donors[a].id) == 0
  }

  lemma DonorStep(before: Counts, counts: Counts, donors: seq<Source>, i: nat, chosen: Source, part: nat)
    requires DistinctIds(donors) && (forall s | s in donors :: s.id != chosen.id)
    requires i < |donors| && Untouched(before, counts, donors, i) && Emptied(counts, donors, i) && part <= Get(counts, donors[i].id)
    ensures var last := Give(counts, donors[i].id, chosen.id, part);
            && Untouched(before, last, donors, i + 1) && DonatedInTurn(before, last, donors)
            && (part == Get(counts, donors[i].id) ==> Emptied(last, donors, i + 1))
  {
    var last := Give(counts, donors[i].id, chosen.id, part);
    forall j | 0 <= j < |donors| && j != i ensures Get(last, donors[j].id) == Get(counts, donors[j].id) {
      assert donors[j] in donors;
    }
    assert donors[i] in donors;
  }

  lemma {:induction false} DonorsEmpty(donors: seq<Source>, counts: Counts)
    requires forall j | 0 <= j < |donors| :: Get(counts, donors[j].id) == 0
    ensures Sum(donors, Bodies(counts)) == 0
  {
    if donors != [] { DonorsEmpty(donors[1..], counts); }
  }

  /** Takes bodies from the donors, in order, until nothing is missing. */
  method Donate(counts: Counts, donors: seq<Source>, chosen: Source, missing: nat) returns (after: Counts)
    requires DistinctIds(donors) && (forall s | s in donors :: s.id != chosen.id && s.id in counts) && chosen.id in counts
    requires missing <= Sum(donors, Bodies(counts))
    ensures Donated(counts, after, donors, chosen) && DonatedInTurn(counts, after, donors)
    ensures Get(after, chosen.id) == Get(counts, chosen.id) + missing
  {
    after := counts;
    var left: nat := missing;
    var i := 0;
    while i < |donors| && left > 0
      invariant 0 <= i <= |donors| && Donated(counts, after, donors, chosen)
      invariant Get(after, chosen.id) == Get(counts, chosen.id) + missing - left
      invariant Untouched(counts, after, donors, i) && DonatedInTurn(counts, after, donors)
      invariant left > 0 ==> Emptied(after, donors, i)
      decreases |donors| - i
    {
      assert donors[i] in donors;
      var part := Min(left, Get(after, donors[i].id));
      DonateStep(counts, after, donors, chosen, i, part);
      DonorStep(counts, after, donors, i, chosen, part);
      after := Give(after, donors[i].id, chosen.id, part);
      left := left - part;
      i := i + 1;
    }
    if left > 0 {
      DonorsEmpty(donors, after);
    }
  }

  /** The incompatible sources, the one with most bodies first. */
  function DonorsOf(sources: seq<Source>, counts: Counts, compatible: set<string>): seq<Source> {
    SortBy(Fit(sources, compatible, false), LargestFirst(counts))
  }

  lemma DonorOrder(donors: seq<Source>, counts: Counts)
    requires DistinctIds(donors)
    ensures var order := SortBy(donors, LargestFirst(counts));
            SortedBy(order, LargestFirst(counts)) && multiset(order) == multiset(donors) && DistinctIds(order) && forall s :: s in order <==> s in donors
  {
    LargestOrdering(counts);
    DistinctSources(donors);
    SortCorrect(donors, LargestFirst(counts));
    SortKeeps(donors, LargestFirst(counts));
    var order := SortBy(donors, LargestFirst(counts));
    forall i, j | 0 <= i < j < |order| ensures order[i].id != order[j].id {
      assert order[i] in order && order[j] in order;
    }
  }

  /** The required bodies at compatible sources, from the largest donors to the favourite source. */
  method MoveToCompatible(sources: seq<Source>, counts: Counts, missing: nat, compatible: set<string>, supplies: set<string>)
    returns (after: Counts, ghost chosen: Source)
    requires DistinctIds(sources) && counts.Keys == Ids(sources) && Fit(sources, compatible, true) != []
    requires missing <= Sum(Fit(sources, compatible, false), Bodies(counts))
    ensures chosen in Fit(sources, compatible, true) && forall t | t in Fit(sources, compatible, true) :: Prefers(chosen, t, supplies)
    ensures var donors := DonorsOf(sources, counts, compatible);
            Donated(counts, after, donors, chosen) && DonatedInTurn(counts, after, donors)
    ensures Get(after, chosen.id) == Get(counts, chosen.id) + missing
  {
    var fit, unfit := Fit(sources, compatible, true), Fit(sources, compatible, false);
    FitMembers(sources, compatible, true);
    FitMembers(sources, compatible, false);
    var favourite := Favourite(fit, supplies);
    var order := DonorsOf(sources, counts, compatible);
    DonorOrder(unfit, counts);
    SumPermutation(order, unfit, Bodies(counts));
    assert favourite.id in Ids(sources) && forall s | s in order :: s in unfit && s.id in Ids(sources);
    after := Donate(counts, order, favourite, missing);
    chosen := favourite;
  }

  /** What a reservation keeps and what it reaches. */
  ghost predicate Reserved(sources: seq<Source>, before: Counts, after: Counts, required: nat, compatible: set<string>, supplies: set<string>) {
    && after.Keys == before.Keys
    && Sum(sources, Bodies(after)) == Sum(sources, Bodies(before))
    && Sum(Fit(sources, compatible, true), Bodies(after)) == Max(Sum(Fit(sources, compatible, true), Bodies(before)), required)
    && (forall s | s in sources && s.id !in compatible :: Get(after, s.id) <= Get(before, s.id))
    && (forall s | s in sources && s.id in compatible && Get(after, s.id) != Get(before, s.id) ::
          && Get(after, s.id) > Get(before, s.id)
          && forall t | t in sources && t.id in compatible :: Prefers(s, t, supplies))
    && DonatedInTurn(before, after, DonorsOf(sources, before, compatible))
  }

  lemma ChosenGains(fit: seq<Source>, before: Counts, after: Counts, donors: seq<Source>, chosen: Source, moved: int)
    requires DistinctIds(fit) && chosen in fit && Donated(before, after, donors, chosen)
    requires Get(after, chosen.id) == Get(before, chosen.id) + moved
    requires forall s, t | s in fit && t in donors :: s.id != t.id
    ensures Sum(fit, Bodies(after)) == Sum(fit, Bodies(before)) + moved
    ensures forall s | s in fit && s != chosen :: Get(after, s.id) == Get(before, s.id)
  {
    DistinctSources(fit);
    SumPoint(fit, Bodies(before), Bodies(after), chosen);
  }

  lemma MovedIsReserved(sources: seq<Source>, before: Counts, after: Counts, donors: seq<Source>, chosen: Source, moved: nat,
                        required: nat, compatible: set<string>, supplies: set<string>)
    requires DistinctIds(sources) && chosen in Fit(sources, compatible, true)
    requires forall t | t in Fit(sources, compatible, true) :: Prefers(chosen, t, supplies)
    requires donors == DonorsOf(sources, before, compatible)
    requires Donated(before, after, donors, chosen) && DonatedInTurn(before, after, donors)
    requires Get(after, chosen.id) == Get(before, chosen.id) + moved
    requires 0 < moved == required - Sum(Fit(sources, compatible, true), Bodies(before))
    ensures Reserved(sources, before, after, required, compatible, supplies)
  {
    var fit, unfit := Fit(sources, compatible, true), Fit(sources, compatible, false);
    FitMembers(sources, compatible, true);
    FitMembers(sources, compatible, false);
    DistinctSources(sources);
    DonorOrder(unfit, before);
    ChosenGains(fit, before, after, donors, chosen, moved);
    SumPermutation(donors, unfit, Bodies(before));
    SumPermutation(donors, unfit, Bodies(after));
    FitSum(sources, compatible, Bodies(before));
    FitSum(sources, compatible, Bodies(after));
  }

  /** Bodies leave an incompatible source only when every one with more of them, or as many and an earlier name, is empty. */
  ghost predicate LeftByRank(sources: seq<Source>, before: Counts, after: Counts, compatible: set<string>) {
    forall s, t | s in sources && t in sources && s != t && s.id !in compatible && t.id !in compatible
                  && Get(after, t.id) < Get(before, t.id)
                  && (Get(before, s.id) > Get(before, t.id) || (Get(before, s.id) == Get(before, t.id) && TextLeq(s.id, t.id))) ::
      Get(after, s.id) == 0
  }

  /** They arrive at the compatible source that is a supply, the largest of those, the first by name. */
  ghost predicate ArrivedAtFirst(sources: seq<Source>, before: Counts, after: Counts, compatible: set<string>, supplies: set<string>) {
    forall s, t | s in sources && t in sources && s.id in compatible && t.id in compatible && Get(after, s.id) != Get(before, s.id) ::
      || (s.id in supplies && t.id !in supplies)
      || ((s.id in supplies <==> t.id in supplies)
          && (s.logicalCount > t.logicalCount || (s.logicalCount == t.logicalCount && TextLeq(s.id, t.id))))
  }

  lemma OnlyOneLarger(s: Source, t: Source, counts: Counts)
    requires s.id != t.id && LargestFirst(counts)(s, t)
    ensures !LargestFirst(counts)(t, s)
  {
    TextTotal(s.id, t.id);
  }

  lemma DonorsByRank(sources: seq<Source>, before: Counts, after: Counts, compatible: set<string>, s: Source, t: Source)
    requires DistinctIds(sources) && DonatedInTurn(before, after, DonorsOf(sources, before, compatible))
    requires s in sources && t in sources && s != t && s.id !in compatible && t.id !in compatible
    requires Get(after, t.id) < Get(before, t.id) && LargestFirst(before)(s, t)
    ensures Get(after, s.id) == 0
  {
    FitMembers(sources, compatible, false);
    DonorOrder(Fit(sources, compatible, false), before);
    DistinctSources(sources);
    OnlyOneLarger(s, t, before);
    var i, j := StandBefore(DonorsOf(sources, before, compatible), LargestFirst(before), s, t);
  }

  lemma LeavesByRank(sources: seq<Source>, before: Counts, after: Counts, compatible: set<string>)
    requires DistinctIds(sources) && DonatedInTurn(before, after, DonorsOf(sources, before, compatible))
    ensures LeftByRank(sources, before, after, compatible)
  {
    forall s, t | s in sources && t in sources && s != t && s.id !in compatible && t.id !in compatible
                  && Get(after, t.id) < Get(before, t.id) && LargestFirst(before)(s, t)
      ensures Get(after, s.id) == 0
    {
      DonorsByRank(sources, before, after, compatible, s, t);
    }
  }

  lemma ArrivesAtFirst(sources: seq<Source>, before: Counts, after: Counts, compatible: set<string>, supplies: set<string>)
    requires forall s | s in sources && s.id in compatible && Get(after, s.id) != Get(before, s.id) ::
               forall t | t in sources && t.id in compatible :: Prefers(s, t, supplies)
    ensures ArrivedAtFirst(sources, before, after, compatible, supplies)
  {}

  lemma ReservedByRank(sources: seq<Source>, before: Counts, after: Counts, required: nat, compatible: set<string>, supplies: set<string>)
    requires DistinctIds(sources) && Reserved(sources, before, after, required, compatible, supplies)
    ensures LeftByRank(sources, before, after, compatible) && ArrivedAtFirst(sources, before, after, compatible, supplies)
  {
    LeavesByRank(sources, before, after, compatible);
    ArrivesAtFirst(sources, before, after, compatible, supplies);
  }

  /** Moves bodies to a compatible source until the ammunition requirement fits. It fails exactly when there
    * is no compatible source or not enough bodies at all; otherwise the compatible sources end with exactly
    * what they had or what is required, and no body is lost. */
  method ReserveAmmoCounts(sources: seq<Source>, counts: Counts, required: nat, compatible: set<string>, supplies: set<string>)
    returns (r: Option<Counts>)
    requires DistinctIds(sources) && counts.Keys == Ids(sources)
    ensures r.None? <==> required > 0 && (Fit(sources, compatible, true) == [] || required > Sum(sources, Bodies(counts)))
    ensures r.Some? ==> Reserved(sources, counts, r.value, required, compatible, supplies)
    ensures r.Some? ==>
              LeftByRank(sources, counts, r.value, compatible) && ArrivedAtFirst(sources, counts, r.value, compatible, supplies)
  {
    var fit := Fit(sources, compatible, true);
    FitSum(sources, compatible, Bodies(counts));
    SumNonNegative(fit, Bodies(counts));
    if required == 0 {
      return Some(counts);
    }
    if fit == [] || required > Sum(sources, Bodies(counts)) {
      return None;
    }
    var missing := Max(0, required - Sum(fit, Bodies(counts)));
    if missing == 0 {
      return Some(counts);
    }
    var after;
    ghost var chosen;
    after, chosen := MoveToCompatible(sources, counts, missing, compatible, supplies);
    MovedIsReserved(sources, counts, after, DonorsOf(sources, counts, compatible), chosen, missing, required, compatible, supplies);
    ReservedByRank(sources, counts, after, required, compatible, supplies);
    r := Some(after);
  }
}
