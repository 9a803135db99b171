/** The bounded cache in front of recipe validation, which rebuilds a plan to compare it. */
module ValidationCache {
  import opened Foundations

  /** A frozen plan, or the compact descriptor that stands for one. */
  datatype Plan =
    | Full(revision: int, seed: string, campaign: string, contents: string)
    | Compact(revision: int, seed: string, campaign: string, fingerprint: string)

  /** One call: what is validated and everything the rebuild depends on. */
  datatype Request = Request(plan: Plan, enemies: string, campaign: string, catalog: string)

  /** The digest of a request; the digest is ideal, so it stands for the request itself. */
  datatype Key = KeyOf(request: Request)

  datatype Fault = SeedInvalid | DescriptorInvalid | BuildFailed | Differs

  /** The rebuild is a pure function of its inputs; it yields no plan when randomization is disabled. */
  type Builder = (string, string, string, string, int) -> Result<Option<Plan>, Fault>

  predicate Hexadecimal(s: string) {
    |s| == 64 && forall i | 0 <= i < |s| :: s[i] in "0123456789abcdef"
  }

  const CAPACITY := 8

  /** `order` lists the keys of `table`, each once. */
  ghost predicate Lists(order: seq<Key>, table: map<Key, Option<Plan>>) {
    Distinct(order) && forall k :: k in order <==> k in table
  }

  lemma ListsMore(order: seq<Key>, table: map<Key, Option<Plan>>, key: Key, entry: Option<Plan>)
    requires Lists(order, table) && key !in table
    ensures Lists(order + [key], table[key := entry])
  {
    assert forall i | 0 <= i < |order| :: order[i] in order;
  }

  lemma ListsFewer(order: seq<Key>, table: map<Key, Option<Plan>>)
    requires Lists(order, table) && order != []
    ensures Lists(order[1..], table - {order[0]})
  {
    forall k ensures k in order[1..] <==> k in table - {order[0]} {
      assert order == [order[0]] + order[1..];
      if k in order[1..] {
        var i :| 0 <= i < |order[1..]| && order[1..][i] == k;
        assert order[i + 1] == k;
      }
    }
  }

  lemma ListsMoved(order: seq<Key>, table: map<Key, Option<Plan>>, i: nat)
    requires Lists(order, table) && i < |order|
    ensures Lists(order[..i] + order[i + 1..] + [order[i]], table)
  {
    var moved := order[..i] + order[i + 1..] + [order[i]];
    forall k ensures k in moved <==> k in order {
      assert order == order[..i] + [order[i]] + order[i + 1..];
    }
    forall a, b | 0 <= a < b < |moved| ensures moved[a] != moved[b] {
      var at := (x: nat) => if x < i then x else if x < |order| - 1 then x + 1 else i;
      assert moved[a] == order[at(a)] && moved[b] == order[at(b)];
    }
  }

  function SeedOf(fingerprint: Plan -> string, plan: Option<Plan>): Option<Plan> {
    if plan.None? then None
    else Some(Compact(plan.value.revision, plan.value.seed, plan.value.campaign, fingerprint(plan.value)))
  }

  /** Validation without any cache: rebuild and compare. */
  function Rebuilt(build: Builder, fingerprint: Plan -> string, q: Request): Result<Plan, Fault> {
    if q.plan.seed == "" then Err(SeedInvalid)
    else if q.plan.Compact? && !Hexadecimal(q.plan.fingerprint) then Err(DescriptorInvalid)
    else
      var expected := build(q.enemies, q.campaign, q.plan.seed, q.catalog, q.plan.revision);
      if expected.Err? then Err(BuildFailed)
      else if (if q.plan.Compact? then SeedOf(fingerprint, expected.value) else expected.value) != Some(q.plan) then Err(Differs)
      else if q.plan.Compact? then Ok(expected.value.value)
      else Ok(q.plan)
  }

  /** What a validation answers, from the rebuild and the fingerprint alone: a full plan is accepted when it is itself
    * rebuilt, and is returned; a descriptor when the rebuilt plan has its revision, seed, campaign and fingerprint, and
    * that plan is returned. */
  ghost predicate Answered(build: Builder, fingerprint: Plan -> string, q: Request, r: Result<Plan, Fault>) {
    var built := build(q.enemies, q.campaign, q.plan.seed, q.catalog, q.plan.revision);
    match q.plan
    case Full(_, seed, _, _) =>
      if seed != "" && built == Ok(Some(q.plan)) then r == Ok(q.plan)
      else r == Err(if seed == "" then SeedInvalid else if built.Err? then BuildFailed else Differs)
    case Compact(revision, seed, campaign, digits) =>
      var formed := |digits| == 64 && forall i | 0 <= i < 64 :: '0' <= digits[i] <= '9' || 'a' <= digits[i] <= 'f';
      if seed == "" then r == Err(SeedInvalid)
      else if !formed then r == Err(DescriptorInvalid)
      else if built.Err? then r == Err(BuildFailed)
      else if built.value.Some? && built.value.value.revision == revision && built.value.value.seed == seed
              && built.value.value.campaign == campaign && fingerprint(built.value.value) == digits then
        r == Ok(built.value.value)
      else r == Err(Differs)
  }

  lemma PrintDigits(s: string)
    ensures Hexadecimal(s) <==> |s| == 64 && forall i | 0 <= i < 64 :: '0' <= s[i] <= '9' || 'a' <= s[i] <= 'f'
  {}

  lemma RebuiltAnswers(build: Builder, fingerprint: Plan -> string, q: Request)
    ensures Answered(build, fingerprint, q, Rebuilt(build, fingerprint, q))
  {
    if q.plan.Compact? { PrintDigits(q.plan.fingerprint); }
  }

  /** A cached entry tells the truth about its request, and expands it only for a descriptor. */
  ghost predicate Truthful(build: Builder, fingerprint: Plan -> string, key: Key, entry: Option<Plan>) {
    var r := Rebuilt(build, fingerprint, key.request);
    r.Ok? && entry == if key.request.plan.Compact? then Some(r.value) else None
  }

  /** The other keys in their order, then this one. */
  ghost function Used(order: seq<Key>, key: Key): seq<Key> {
    if order == [] then [key]
    else if order[0] == key then order[1..] + [key]
    else [order[0]] + Used(order[1..], key)
  }

  lemma Shifted(order: seq<Key>, i: nat)
    requires 0 < i < |order|
    ensures order[..i] == [order[0]] + order[1..][..i - 1] && order[i + 1..] == order[1..][i..]
  {}

  lemma {:induction false} UsedAt(order: seq<Key>, key: Key, i: nat)
    requires Distinct(order) && i < |order| && order[i] == key
    ensures Used(order, key) == order[..i] + order[i + 1..] + [key]
  {
    if i == 0 {
      assert order[..0] + order[1..] == order[1..];
    } else {
      UsedAt(order[1..], key, i - 1);
      Shifted(order, i);
      assert [order[0]] + (order[1..][..i - 1] + order[1..][i..] + [key]) == [order[0]] + order[1..][..i - 1] + order[1..][i..] + [key];
    }
  }

  lemma UsedLast(kept: seq<Key>, key: Key)
    requires key !in kept
    ensures Used(kept + [key], key) == kept + [key]
  {
    if kept != [] {
      assert (kept + [key])[1..] == kept[1..] + [key];
      UsedLast(kept[1..], key);
    }
  }

  /** The keys without an expanded plan, in their order. */
  function Unexpanded(order: seq<Key>, table: map<Key, Option<Plan>>): (kept: seq<Key>)
    requires forall k | k in order :: k in table
    ensures forall k :: k in kept <==> k in order && table[k].None?
    ensures Distinct(order) ==> Distinct(kept)
  {
    if order == [] then []
    else
      var kept := Unexpanded(order[..|order| - 1], table);
      var last := order[|order| - 1];
      assert order == order[..|order| - 1] + [last];
      if table[last].None? then kept + [last] else kept
  }

  lemma UnexpandedNext(order: seq<Key>, table: map<Key, Option<Plan>>, i: nat)
    requires i < |order| && forall k | k in order :: k in table
    ensures order[i] in table
    ensures Unexpanded(order[..i + 1], table) == Unexpanded(order[..i], table) + if table[order[i]].None? then [order[i]] else []
  {
    var upTo := order[..i + 1];
    assert upTo[..i] == order[..i] && upTo[i] == order[i];
  }

  lemma {:induction false} UnexpandedLength(order: seq<Key>, table: map<Key, Option<Plan>>)
    requires forall k | k in order :: k in table
    ensures |Unexpanded(order, table)| <= |order|
  {
    if order != [] { UnexpandedLength(order[..|order| - 1], table); }
  }

  /** Kept keys stand in the order they stood in. */
  lemma {:induction false} UnexpandedOrder(order: seq<Key>, table: map<Key, Option<Plan>>, i: nat, j: nat) returns (a: nat, b: nat)
    requires (forall k | k in order :: k in table) && i < j < |order| && table[order[i]].None? && table[order[j]].None?
    ensures a < b < |Unexpanded(order, table)|
    ensures Unexpanded(order, table)[a] == order[i] && Unexpanded(order, table)[b] == order[j]
  {
    var n := |order| - 1;
    assert order[..n][i] == order[i];
    if j == n {
      var kept := Unexpanded(order[..n], table);
      assert order[i] in kept;
      a :| 0 <= a < |kept| && kept[a] == order[i];
      b := |kept|;
    } else {
      a, b := UnexpandedOrder(order[..n], table, i, j);
    }
  }

  method KeepUnexpanded(order: seq<Key>, table: map<Key, Option<Plan>>) returns (kept: seq<Key>)
    requires forall k | k in order :: k in table
    ensures kept == Unexpanded(order, table)
  {
    kept := [];
    for i := 0 to |order|
      invariant kept == Unexpanded(order[..i], table)
    {
      UnexpandedNext(order, table, i);
      if table[order[i]].None? {
        kept := kept + [order[i]];
      }
    }
    assert order[..|order|] == order;
  }

  class Validator {
    const build: Builder
    const fingerprint: Plan -> string
    /** Most recently used last. */
    var order: seq<Key>
    var table: map<Key, Option<Plan>>
    /** Keys recorded on disk, if a directory is configured. */
    var recorded: Option<set<Key>>

    ghost predicate EntryOk(key: Key, entry: Option<Plan>) {
      Truthful(build, fingerprint, key, entry)
    }

    /** Every entry is true, and at most one carries an expanded plan. */
    ghost predicate EntriesOk(entries: map<Key, Option<Plan>>) {
      && (forall k | k in entries :: EntryOk(k, entries[k]))
      && (forall j, k | j in entries && k in entries && entries[j].Some? && entries[k].Some? :: j == k)
    }

    ghost predicate Valid()
      reads this
    {
      && Lists(order, table) && |order| <= CAPACITY
      && EntriesOk(table)
      && (recorded.Some? ==> forall k | k in recorded.value :: EntryOk(k, None))
    }

    /** Starts empty, over the keys that earlier runs of the same compiler recorded: its fingerprint names their
      * directory. */
    constructor (build: Builder, fingerprint: Plan -> string, recorded: Option<set<Key>>)
      requires recorded.Some? ==> forall k | k in recorded.value :: Truthful(build, fingerprint, k, None)
      ensures this.build == build && this.fingerprint == fingerprint && this.recorded == recorded
      ensures Valid() && order == []
    {
      this.build, this.fingerprint, this.recorded := build, fingerprint, recorded;
      order, table := [], map[];
    }

    function Rebuild(q: Request): Result<Plan, Fault> {
      Rebuilt(build, fingerprint, q)
    }

    lemma EntriesMore(entries: map<Key, Option<Plan>>, key: Key, entry: Option<Plan>)
      requires EntriesOk(entries) && EntryOk(key, entry)
      requires entry.Some? ==> forall k | k in entries :: entries[k].None?
      ensures EntriesOk(entries[key := entry])
    {}

    lemma EntriesFewer(entries: map<Key, Option<Plan>>, kept: seq<Key>)
      requires EntriesOk(entries) && forall k | k in kept :: k in entries && entries[k].None?
      ensures EntriesOk(map k | k in kept :: None)
    {}

    /** Rebuilds unless the disk records this very request, and records it for the next time. */
    method Verify(q: Request) returns (entry: Result<Option<Plan>, Fault>)
      requires Valid() && q.plan.seed != "" && (q.plan.Compact? ==> Hexadecimal(q.plan.fingerprint))
      modifies this`recorded
      ensures Valid()
      ensures entry.Ok? <==> Rebuild(q).Ok?
      ensures entry.Ok? ==> EntryOk(KeyOf(q), entry.value)
      ensures entry.Err? ==> Rebuild(q) == Err(entry.error)
    {
      var key := KeyOf(q);
      if !q.plan.Compact? && recorded.Some? && key in recorded.value {
        return Ok(None);
      }
      var expected := build(q.enemies, q.campaign, q.plan.seed, q.catalog, q.plan.revision);
      if expected.Err? {
        return Err(BuildFailed);
      }
      if (if q.plan.Compact? then SeedOf(fingerprint, expected.value) else expected.value) != Some(q.plan) {
        return Err(Differs);
      }
      var written: bool := *;
      if written && recorded.Some? && !q.plan.Compact? {
        recorded := Some(recorded.value + {key});
      }
      entry := Ok(if q.plan.Compact? then expected.value else None);
    }

    /** Removes every expanded plan; the other entries stay in their order. */
    method DropExpanded()
      requires Valid()
      modifies this`order, this`table
      ensures Valid() && order == Unexpanded(old(order), old(table))
      ensures forall k :: k in table <==> k in old(table) && old(table)[k].None?
      ensures forall k | k in table :: table[k].None?
    {
      var kept := KeepUnexpanded(order, table);
      UnexpandedLength(order, table);
      EntriesFewer(table, kept);
      order, table := kept, map k | k in kept :: None;
    }

    /** Adds an entry, evicting the least recently used one if there are too many. */
    method Store(key: Key, entry: Option<Plan>)
      requires Valid() && key !in table && EntryOk(key, entry)
      requires entry.Some? ==> forall k | k in table :: table[k].None?
      modifies this`order, this`table
      ensures Valid() && key in table && table[key] == entry
      ensures order == (if |old(order)| < 8 then old(order) else old(order)[1..]) + [key]
      ensures forall k :: k in table <==> k in order
    {
      ListsMore(order, table, key, entry);
      EntriesMore(table, key, entry);
      var keys, entries := order + [key], table[key := entry];
      if |keys| > CAPACITY {
        ListsFewer(keys, entries);
        assert keys[1..] == order[1..] + [key] && keys[0] == order[0] && order[0] in order;
        keys, entries := keys[1..], entries - {keys[0]};
      }
      order, table := keys, entries;
    }

    method MoveToEnd(key: Key)
      requires Valid() && key in table
      modifies this`order
      ensures Valid() && |order| == |old(order)| && order != [] && order[|order| - 1] == key
      ensures order == Used(old(order), key)
    {
      assert key in order;
      var i :| 0 <= i < |order| && order[i] == key;
      ListsMoved(order, table, i);
      UsedAt(order, key, i);
      order := order[..i] + order[i + 1..] + [key];
    }

    /** Verifies a request without an entry and adds one, last in the order. */
    method Admit(q: Request) returns (fault: Option<Fault>)
      requires Valid() && KeyOf(q) !in table && q.plan.seed != "" && (q.plan.Compact? ==> Hexadecimal(q.plan.fingerprint))
      modifies this
      ensures Valid()
      ensures fault.Some? ==> Rebuild(q) == Err(fault.value) && order == old(order) && table == old(table)
      ensures fault.None? ==>
                var kept := if q.plan.Compact? then Unexpanded(old(order), old(table)) else old(order);
                && KeyOf(q) in table && order == (if |kept| < 8 then kept else kept[1..]) + [KeyOf(q)]
    {
      var entry := Verify(q);
      if entry.Err? {
        return Some(entry.error);
      }
      if q.plan.Compact? {
        DropExpanded();
      }
      Store(KeyOf(q), entry.value);
      fault := None;
    }

    /** Accepts, rejects and returns exactly what a rebuild would, for any history of calls. */
    method Validate(q: Request) returns (r: Result<Plan, Fault>)
      requires Valid()
      modifies this
      ensures Valid() && r == Rebuild(q) && Answered(build, fingerprint, q, r)
      ensures |order| <= 8
      ensures r.Ok? && KeyOf(q) in old(table) ==> table == old(table) && order == Used(old(order), KeyOf(q))
      ensures r.Ok? && KeyOf(q) !in old(table) ==>
                var kept := if q.plan.Compact? then Unexpanded(old(order), old(table)) else old(order);
                order == (if |kept| < 8 then kept else kept[1..]) + [KeyOf(q)]
      ensures r.Ok? ==> order != [] && order[|order| - 1] == KeyOf(q)
      ensures r.Err? ==> order == old(order) && table == old(table)
    {
      RebuiltAnswers(build, fingerprint, q);
      var key := KeyOf(q);
      if q.plan.seed == "" {
        return Err(SeedInvalid);
      }
      if q.plan.Compact? && !Hexadecimal(q.plan.fingerprint) {
        return Err(DescriptorInvalid);
      }
      if key !in table {
        var fault := Admit(q);
        if fault.Some? {
          return Err(fault.value);
        }
        UsedLast(order[..|order| - 1], key);
      }
      MoveToEnd(key);
      r := Ok(if q.plan.Compact? then table[key].value else q.plan);
    }

    /** Any sequence of calls answers as if there were no cache. */
    method ValidateAll(requests: seq<Request>) returns (results: seq<Result<Plan, Fault>>)
      requires Valid()
      modifies this
      ensures Valid() && |results| == |requests|
      ensures forall i | 0 <= i < |requests| ::
                results[i] == Rebuild(requests[i]) && Answered(build, fingerprint, requests[i], results[i])
    {
      results := [];
      for i := 0 to |requests|
        invariant Valid() && |results| == i
        invariant forall j | 0 <= j < i ::
                    results[j] == Rebuild(requests[j]) && Answered(build, fingerprint, requests[j], results[j])
      {
        var r := Validate(requests[i]);
        results := results + [r];
      }
    }
  }
}
