/** Results, finite sums and sorting, shared by the component models. */
module Foundations {
  datatype Option<+T> = None | Some(value: T)

  datatype Result<+T, +E> = Ok(value: T) | Err(error: E)

  /** An ideal content digest: equal digests mean equal contents. */
  datatype Digest = Sha256(content: string)

  type pos = n: int | 0 < n witness 1

  function Min(a: int, b: int): int {
    if a <= b then a else b
  }

  function Max(a: int, b: int): int {
    if a >= b then a else b
  }

  predicate Distinct<T(==)>(s: seq<T>) {
    forall i, j | 0 <= i < j < |s| :: s[i] != s[j]
  }

  function Members<T(==)>(s: seq<T>): set<T> {
    set x | x in s
  }

  method Largest(keys: seq<nat>) returns (m: nat)
    requires keys != []
    ensures m in keys && forall k | k in keys :: k <= m
  {
    m := keys[0];
    for i := 1 to |keys|
      invariant m in keys && forall j | 0 <= j < i :: keys[j] <= m
    {
      if keys[i] > m { m := keys[i]; }
    }
  }

  // ---------------------------------------------------------------- sums

  function Sum<T>(s: seq<T>, f: T -> int): int {
    if s == [] then 0 else f(s[0]) + Sum(s[1..], f)
  }

  lemma {:induction false} SumAppend<T>(a: seq<T>, b: seq<T>, f: T -> int)
    ensures Sum(a + b, f) == Sum(a, f) + Sum(b, f)
  {
    if a == [] {
      assert a + b == b;
    } else {
      assert (a + b)[1..] == a[1..] + b;
      SumAppend(a[1..], b, f);
    }
  }

  lemma SumSnoc<T>(s: seq<T>, x: T, f: T -> int)
    ensures Sum(s + [x], f) == Sum(s, f) + f(x)
  {
    SumAppend(s, [x], f);
    assert [x][1..] == [];
    assert Sum([x], f) == f(x) + Sum([x][1..], f);
  }

  lemma SumTake<T>(s: seq<T>, i: nat, f: T -> int)
    requires i < |s|
    ensures Sum(s[..i + 1], f) == Sum(s[..i], f) + f(s[i])
  {
    assert s[..i + 1] == s[..i] + [s[i]];
    SumSnoc(s[..i], s[i], f);
  }

  lemma {:induction false} SumLeq<T>(s: seq<T>, f: T -> int, g: T -> int)
    requires forall x | x in s :: f(x) <= g(x)
    ensures Sum(s, f) <= Sum(s, g)
  {
    if s != [] {
      SumLeq(s[1..], f, g);
    }
  }

  lemma SumSame<T>(s: seq<T>, f: T -> int, g: T -> int)
    requires forall x | x in s :: f(x) == g(x)
    ensures Sum(s, f) == Sum(s, g)
  {
    SumLeq(s, f, g);
    SumLeq(s, g, f);
  }

  lemma {:induction false} SumZero<T>(s: seq<T>, f: T -> int)
    requires forall x | x in s :: f(x) == 0
    ensures Sum(s, f) == 0
  {
    if s != [] { SumZero(s[1..], f); }
  }

  lemma {:induction false} SumNonNegative<T>(s: seq<T>, f: T -> int)
    requires forall x | x in s :: 0 <= f(x)
    ensures 0 <= Sum(s, f)
    ensures forall x | x in s :: f(x) <= Sum(s, f)
  {
    if s != [] {
      SumNonNegative(s[1..], f);
      forall x | x in s ensures f(x) <= Sum(s, f) {
        if x != s[0] { assert x in s[1..]; }
      }
    }
  }

  lemma {:induction false} SumPlus<T>(s: seq<T>, f: T -> int, g: T -> int, h: T -> int)
    requires forall x | x in s :: h(x) == f(x) + g(x)
    ensures Sum(s, h) == Sum(s, f) + Sum(s, g)
  {
    if s != [] {
      SumPlus(s[1..], f, g, h);
    }
  }

  lemma {:induction false} SumScale<T>(s: seq<T>, k: int, f: T -> int, h: T -> int)
    requires forall x | x in s :: h(x) == k * f(x)
    ensures Sum(s, h) == k * Sum(s, f)
  {
    if s != [] {
      SumScale(s[1..], k, f, h);
    }
  }

  /** Two functions that differ at one element of a duplicate-free sequence. */
  lemma {:induction false} SumPoint<T>(s: seq<T>, f: T -> int, g: T -> int, x: T)
    requires Distinct(s) && x in s
    requires forall y | y in s && y != x :: f(y) == g(y)
    ensures Sum(s, g) == Sum(s, f) - f(x) + g(x)
  {
    if s[0] == x {
      SumSame(s[1..], f, g);
    } else {
      SumPoint(s[1..], f, g, x);
    }
  }

  lemma MultisetWithout<T>(s: seq<T>, j: nat)
    requires j < |s|
    ensures multiset(s[..j] + s[j + 1..]) == multiset(s) - multiset{s[j]}
  {
    var front, back := s[..j], s[j + 1..];
    assert s == front + ([s[j]] + back);
    assert multiset(front + ([s[j]] + back)) == multiset(front) + multiset([s[j]] + back);
    assert multiset([s[j]] + back) == multiset{s[j]} + multiset(back);
    assert multiset(front + back) == multiset(front) + multiset(back);
  }

  lemma RemoveOne<T>(a: seq<T>, b: seq<T>) returns (j: nat)
    requires a != [] && multiset(a) == multiset(b)
    ensures j < |b| && b[j] == a[0]
    ensures multiset(a[1..]) == multiset(b[..j] + b[j + 1..])
  {
    MultisetWithout(a, 0);
    assert a[..0] + a[0 + 1..] == a[1..];
    assert a[0] in multiset(b);
    j :| 0 <= j < |b| && b[j] == a[0];
    MultisetWithout(b, j);
  }

  lemma SumRemoved<T>(b: seq<T>, j: nat, f: T -> int)
    requires j < |b|
    ensures Sum(b, f) == Sum(b[..j], f) + f(b[j]) + Sum(b[j + 1..], f)
  {
    SumAppend(b[..j], b[j..], f);
    assert b == b[..j] + b[j..];
    assert b[j..][1..] == b[j + 1..];
  }

  lemma {:induction false} SumPermutation<T>(a: seq<T>, b: seq<T>, f: T -> int)
    requires multiset(a) == multiset(b)
    ensures Sum(a, f) == Sum(b, f)
  {
    if a == [] {
      assert |multiset(b)| == 0;
    } else {
      var j := RemoveOne(a, b);
      SumPermutation(a[1..], b[..j] + b[j + 1..], f);
      SumAppend(b[..j], b[j + 1..], f);
      SumRemoved(b, j, f);
    }
  }

  /** A plain sum of numbers, in which the main results are stated again without the functions they are computed by. */
  ghost function Added(xs: seq<int>): int {
    if xs == [] then 0 else Added(xs[..|xs| - 1]) + xs[|xs| - 1]
  }

  lemma {:induction false} SumIsAdded<T>(s: seq<T>, f: T -> int, xs: seq<int>)
    requires |xs| == |s| && forall i | 0 <= i < |s| :: xs[i] == f(s[i])
    ensures Sum(s, f) == Added(xs)
  {
    if s != [] {
      var n := |s| - 1;
      SumTake(s, n, f);
      assert s[..n + 1] == s;
      SumIsAdded(s[..n], f, xs[..n]);
    }
  }

  // ---------------------------------------------------------------- sums over sets

  ghost function SetSum<T>(keys: set<T>, f: T -> int): int {
    if keys == {} then 0
    else var k :| k in keys; f(k) + SetSum(keys - {k}, f)
  }

  lemma {:induction false} SetSumSplit<T>(keys: set<T>, f: T -> int, x: T)
    requires x in keys
    ensures SetSum(keys, f) == f(x) + SetSum(keys - {x}, f)
  {
    var k :| k in keys && SetSum(keys, f) == f(k) + SetSum(keys - {k}, f);
    if k != x {
      SetSumSplit(keys - {k}, f, x);
      SetSumSplit(keys - {x}, f, k);
      assert keys - {k} - {x} == keys - {x} - {k};
    }
  }

  lemma {:induction false} SetSumSame<T>(keys: set<T>, f: T -> int, g: T -> int)
    requires forall k | k in keys :: f(k) == g(k)
    ensures SetSum(keys, f) == SetSum(keys, g)
  {
    if keys != {} {
      var x :| x in keys;
      SetSumSplit(keys, f, x);
      SetSumSplit(keys, g, x);
      SetSumSame(keys - {x}, f, g);
    }
  }

  lemma {:induction false} SetSumUnion<T>(a: set<T>, b: set<T>, f: T -> int)
    requires a !! b
    ensures SetSum(a + b, f) == SetSum(a, f) + SetSum(b, f)
  {
    if a == {} {
      assert a + b == b;
    } else {
      var x :| x in a;
      SetSumSplit(a + b, f, x);
      SetSumSplit(a, f, x);
      assert a + b - {x} == (a - {x}) + b;
      SetSumUnion(a - {x}, b, f);
    }
  }

  lemma {:induction false} SetSumNonNegative<T>(keys: set<T>, f: T -> int)
    requires forall k | k in keys :: 0 <= f(k)
    ensures 0 <= SetSum(keys, f)
  {
    if keys != {} {
      var x :| x in keys;
      SetSumSplit(keys, f, x);
      SetSumNonNegative(keys - {x}, f);
    }
  }

  /** The members of a duplicate-free sequence sum to what the sequence does. */
  lemma {:induction false} SumIsSetSum<T>(s: seq<T>, f: T -> int)
    requires Distinct(s)
    ensures Sum(s, f) == SetSum(Members(s), f)
  {
    if s == [] {
      assert Members(s) == {};
    } else {
      SetSumSplit(Members(s), f, s[0]);
      assert Members(s) - {s[0]} == Members(s[1..]);
      SumIsSetSum(s[1..], f);
    }
  }

  lemma {:induction false} MembersCount<T>(s: seq<T>)
    requires Distinct(s)
    ensures |Members(s)| == |s|
  {
    if s == [] {
      assert Members(s) == {};
    } else {
      MembersCount(s[1..]);
      assert Members(s) == Members(s[1..]) + {s[0]};
    }
  }

  // ---------------------------------------------------------------- tallies

  /** A counter; an entry that is missing counts as zero. */
  type Tally = map<string, int>

  function At(tally: Tally, key: string): int {
    if key in tally then tally[key] else 0
  }

  function Entry(tally: Tally): string -> int {
    (k: string) => At(tally, k)
  }

  ghost function TallyTotal(tally: Tally): int {
    SetSum(tally.Keys, Entry(tally))
  }

  /** Setting one entry moves the total by the difference. */
  lemma TallyUpdate(tally: Tally, x: string, value: int)
    ensures TallyTotal(tally[x := value]) == TallyTotal(tally) - At(tally, x) + value
  {
    var after := tally[x := value];
    SetSumSplit(after.Keys, Entry(after), x);
    SetSumSame(after.Keys - {x}, Entry(tally), Entry(after));
    if x in tally {
      SetSumSplit(tally.Keys, Entry(tally), x);
      assert tally.Keys == after.Keys;
    } else {
      assert after.Keys - {x} == tally.Keys;
    }
  }

  // ---------------------------------------------------------------- sorting

  /** A comparison that decides a total preorder: `less(x, y)` means x may stand before y. */
  ghost predicate Ordering<T(!new)>(less: (T, T) -> bool) {
    && (forall x, y :: less(x, y) || less(y, x))
    && (forall x, y, z :: less(x, y) && less(y, z) ==> less(x, z))
  }

  ghost predicate SortedBy<T>(s: seq<T>, less: (T, T) -> bool) {
    forall i, j | 0 <= i < j < |s| :: less(s[i], s[j])
  }

  function Insert<T>(x: T, s: seq<T>, less: (T, T) -> bool): seq<T> {
    if s == [] || less(x, s[0]) then [x] + s else [s[0]] + Insert(x, s[1..], less)
  }

  /** A stable insertion sort, standing for the library sort. */
  function SortBy<T>(s: seq<T>, less: (T, T) -> bool): seq<T> {
    if s == [] then [] else Insert(s[0], SortBy(s[1..], less), less)
  }

  lemma {:induction false} InsertMembers<T>(x: T, s: seq<T>, less: (T, T) -> bool)
    ensures multiset(Insert(x, s, less)) == multiset(s) + multiset{x}
  {
    if s != [] && !less(x, s[0]) {
      InsertMembers(x, s[1..], less);
      assert s == [s[0]] + s[1..];
    }
  }

  lemma InsertedFrom<T(!new)>(x: T, s: seq<T>, less: (T, T) -> bool, y: T)
    requires y in Insert(x, s, less)
    ensures y == x || y in s
  {
    InsertMembers(x, s, less);
    assert y in multiset(Insert(x, s, less));
  }

  lemma ConsSorted<T>(x: T, s: seq<T>, less: (T, T) -> bool)
    requires SortedBy(s, less) && forall y | y in s :: less(x, y)
    ensures SortedBy([x] + s, less)
  {}

  lemma {:induction false} InsertCorrect<T(!new)>(x: T, s: seq<T>, less: (T, T) -> bool)
    requires Ordering(less) && SortedBy(s, less)
    ensures SortedBy(Insert(x, s, less), less)
    ensures multiset(Insert(x, s, less)) == multiset(s) + multiset{x}
  {
    InsertMembers(x, s, less);
    if s == [] {
    } else if less(x, s[0]) {
      forall y | y in s ensures less(x, y) {
        assert y == s[0] || less(s[0], y);
      }
      ConsSorted(x, s, less);
    } else {
      InsertCorrect(x, s[1..], less);
      var rest := Insert(x, s[1..], less);
      forall y | y in rest ensures less(s[0], y) {
        InsertedFrom(x, s[1..], less, y);
      }
      ConsSorted(s[0], rest, less);
    }
  }

  lemma {:induction false} SortCorrect<T(!new)>(s: seq<T>, less: (T, T) -> bool)
    requires Ordering(less)
    ensures SortedBy(SortBy(s, less), less)
    ensures multiset(SortBy(s, less)) == multiset(s)
  {
    if s != [] {
      SortCorrect(s[1..], less);
      InsertCorrect(s[0], SortBy(s[1..], less), less);
      assert s == [s[0]] + s[1..];
    }
  }

  lemma {:induction false} DistinctMultiset<T(!new)>(s: seq<T>)
    requires Distinct(s)
    ensures forall x :: multiset(s)[x] <= 1
  {
    if s != [] {
      DistinctMultiset(s[1..]);
      assert s == [s[0]] + s[1..];
      assert s[0] !in s[1..];
      assert multiset(s) == multiset{s[0]} + multiset(s[1..]);
    }
  }

  lemma {:induction false} MultisetDistinct<T(!new)>(s: seq<T>)
    requires forall x :: multiset(s)[x] <= 1
    ensures Distinct(s)
  {
    if s != [] {
      assert s == [s[0]] + s[1..];
      assert multiset(s) == multiset{s[0]} + multiset(s[1..]);
      assert multiset(s)[s[0]] == 1 + multiset(s[1..])[s[0]];
      forall x ensures multiset(s[1..])[x] <= 1 {
        assert multiset(s)[x] >= multiset(s[1..])[x];
      }
      MultisetDistinct(s[1..]);
      assert s[0] !in s[1..];
    }
  }

  /** Sorting a duplicate-free sequence keeps its elements, its length and its distinctness. */
  lemma SortKeeps<T(!new)>(s: seq<T>, less: (T, T) -> bool)
    requires Ordering(less)
    ensures |SortBy(s, less)| == |s|
    ensures forall x :: x in SortBy(s, less) <==> x in s
    ensures Distinct(s) ==> Distinct(SortBy(s, less))
  {
    SortCorrect(s, less);
    var t := SortBy(s, less);
    assert |multiset(t)| == |multiset(s)|;
    forall x ensures x in t <==> x in s {
      assert x in t <==> x in multiset(t);
      assert x in s <==> x in multiset(s);
    }
    if Distinct(s) {
      DistinctMultiset(s);
      MultisetDistinct(t);
    }
  }

  /** Where two elements stand whose order the comparison decides. */
  lemma StandBefore<T(!new)>(s: seq<T>, less: (T, T) -> bool, a: T, b: T) returns (i: nat, j: nat)
    requires SortedBy(s, less) && a in s && b in s && a != b && !less(b, a)
    ensures i < j < |s| && s[i] == a && s[j] == b
  {
    i :| 0 <= i < |s| && s[i] == a;
    j :| 0 <= j < |s| && s[j] == b;
  }

  // ---------------------------------------------------------------- text order

  /** Code-point order of identities, the order of the language's string comparison. */
  predicate TextLeq(a: string, b: string) {
    a == [] || (b != [] && (a[0] < b[0] || (a[0] == b[0] && TextLeq(a[1..], b[1..]))))
  }

  lemma {:induction false} TextTotal(a: string, b: string)
    ensures TextLeq(a, b) || TextLeq(b, a)
    ensures TextLeq(a, b) && TextLeq(b, a) ==> a == b
  {
    if a != [] && b != [] && a[0] == b[0] {
      TextTotal(a[1..], b[1..]);
      assert a == [a[0]] + a[1..] && b == [b[0]] + b[1..];
    }
  }

  lemma {:induction false} TextTransitive(a: string, b: string, c: string)
    requires TextLeq(a, b) && TextLeq(b, c)
    ensures TextLeq(a, c)
  {
    if a != [] && a[0] == b[0] == c[0] {
      TextTransitive(a[1..], b[1..], c[1..]);
    }
  }

  /** The texts agree up to `k` and there the first has the smaller character. */
  ghost predicate SmallerAt(a: string, b: string, k: nat) {
    k < |a| && k < |b| && a[..k] == b[..k] && a[k] < b[k]
  }

  lemma SmallerBehind(a: string, b: string, k: nat)
    requires a != [] && b != [] && a[0] == b[0]
    ensures SmallerAt(a, b, k + 1) <==> SmallerAt(a[1..], b[1..], k)
  {
    if k < |a[1..]| && k < |b[1..]| {
      assert a[..k + 1] == [a[0]] + a[1..][..k] && b[..k + 1] == [b[0]] + b[1..][..k];
      assert a[..k + 1][1..] == a[1..][..k] && b[..k + 1][1..] == b[1..][..k];
    }
  }

  lemma SmallerInFront(a: string, b: string, k: nat)
    requires SmallerAt(a, b, k)
    ensures k > 0 ==> a[0] == b[0]
    ensures k == 0 ==> a[0] < b[0]
  {
    if k > 0 {
      assert a[..k][0] == a[0] && b[..k][0] == b[0];
    }
  }

  /** A text stands before another when it begins the other, or where they first differ it has the smaller character. */
  lemma {:induction false} TextLeqMeans(a: string, b: string)
    ensures TextLeq(a, b) <==> a <= b || exists k: nat :: SmallerAt(a, b, k)
  {
    if a != [] && b != [] && a[0] == b[0] {
      TextLeqMeans(a[1..], b[1..]);
      assert a == [a[0]] + a[1..] && b == [b[0]] + b[1..];
      if k: nat :| SmallerAt(a, b, k) {
        SmallerInFront(a, b, k);
        SmallerBehind(a, b, k - 1);
      }
      if k: nat :| SmallerAt(a[1..], b[1..], k) {
        SmallerBehind(a, b, k);
      }
    } else {
      if a != [] && b != [] && a[0] < b[0] {
        assert SmallerAt(a, b, 0);
      }
      forall k: nat | SmallerAt(a, b, k) ensures k == 0 && a[0] < b[0] {
        SmallerInFront(a, b, k);
      }
    }
  }
}
