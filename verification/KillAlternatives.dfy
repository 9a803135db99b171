/** Collapsing alternative kill sources to the fewest kills that every way through them guarantees. */
module KillAlternatives {
  import opened Foundations

  /** A finite source: its identity, its kills, and everything that decides who can reach it. */
  datatype Row = Row(sourceId: string, count: nat, access: string)
  type Rows = map<string, Row>

  datatype Group = Group(identity: string, branches: seq<seq<string>>)

  function Concat(branches: seq<seq<string>>): seq<string> {
    if branches == [] then [] else branches[0] + Concat(branches[1..])
  }

  function CountIn(rows: Rows): string -> int {
    (id: string) => if id in rows then rows[id].count else 0
  }

  function BranchCount(rows: Rows, branch: seq<string>): int {
    Sum(branch, CountIn(rows))
  }

  /** What a group must satisfy against the rows that are left when its turn comes. */
  predicate Accepts(rows: Rows, g: Group) {
    && g.identity != "" && g.identity !in rows
    && |g.branches| >= 2 && (forall b | b in g.branches :: b != [])
    && var members := Concat(g.branches);
       && (forall m | m in members :: m in rows)
       && Distinct(members)
       && (forall m | m in members :: rows[m].access == rows[members[0]].access)
  }

  /** The same in terms of the branches: at least two, none empty, no source twice, every source a row of one access. */
  ghost predicate GroupFits(rows: Rows, g: Group) {
    && g.identity != "" && g.identity !in rows && |g.branches| >= 2 && (forall i | 0 <= i < |g.branches| :: |g.branches[i]| > 0)
    && (forall i, m | 0 <= i < |g.branches| && m in g.branches[i] :: m in rows)
    && (forall i | 0 <= i < |g.branches| :: Distinct(g.branches[i]))
    && (forall i, j, m | 0 <= i < j < |g.branches| && m in g.branches[i] :: m !in g.branches[j])
    && (forall i, j, m, n | 0 <= i < |g.branches| && 0 <= j < |g.branches| && m in g.branches[i] && n in g.branches[j] ::
          rows[m].access == rows[n].access)
  }

  lemma {:induction false} ConcatMembers(branches: seq<seq<string>>)
    ensures forall m :: m in Concat(branches) <==> exists i | 0 <= i < |branches| :: m in branches[i]
  {
    if branches != [] {
      var rest := branches[1..];
      ConcatMembers(rest);
      forall m ensures m in Concat(branches) <==> exists i | 0 <= i < |branches| :: m in branches[i] {
        if m in Concat(rest) {
          var i :| 0 <= i < |rest| && m in rest[i];
          assert m in branches[i + 1];
        }
        if i :| 0 <= i < |branches| && m in branches[i] {
          if i > 0 { assert m in rest[i - 1]; }
        }
      }
    }
  }

  lemma DistinctJoined(a: seq<string>, b: seq<string>)
    ensures Distinct(a + b) <==> Distinct(a) && Distinct(b) && forall m | m in a :: m !in b
  {
    var c := a + b;
    if Distinct(c) {
      forall i, j | 0 <= i < j < |a| ensures a[i] != a[j] {
        assert c[i] == a[i] && c[j] == a[j];
      }
      forall i, j | 0 <= i < j < |b| ensures b[i] != b[j] {
        assert c[|a| + i] == b[i] && c[|a| + j] == b[j];
      }
      forall i, j | 0 <= i < |a| && 0 <= j < |b| ensures a[i] != b[j] {
        assert c[i] == a[i] && c[|a| + j] == b[j];
      }
      forall m | m in a ensures m !in b {
        var i :| 0 <= i < |a| && a[i] == m;
        assert forall j | 0 <= j < |b| :: a[i] != b[j];
      }
    }
    if Distinct(a) && Distinct(b) && forall m | m in a :: m !in b {
      forall i, j | 0 <= i < j < |c| ensures c[i] != c[j] {
        if i < |a| <= j { assert a[i] in a && b[j - |a|] in b; }
      }
    }
  }

  ghost predicate Separate(branches: seq<seq<string>>) {
    && (forall i | 0 <= i < |branches| :: Distinct(branches[i]))
    && (forall i, j, m | 0 <= i < j < |branches| && m in branches[i] :: m !in branches[j])
  }

  lemma SeparateRest(branches: seq<seq<string>>)
    requires branches != []
    ensures Separate(branches) <==>
              Distinct(branches[0]) && Separate(branches[1..]) && forall m | m in branches[0] :: m !in Concat(branches[1..])
  {
    var rest := branches[1..];
    ConcatMembers(rest);
    if Separate(branches) {
      forall i | 0 <= i < |rest| ensures Distinct(rest[i]) {
        assert rest[i] == branches[i + 1];
      }
      forall m, i | m in branches[0] && 0 <= i < |rest| ensures m !in rest[i] {
        assert m !in branches[i + 1];
      }
      forall i, j, m | 0 <= i < j < |rest| && m in rest[i] ensures m !in rest[j] {
        assert m in branches[i + 1] && m !in branches[j + 1];
      }
    }
    if Distinct(branches[0]) && Separate(rest) && forall m | m in branches[0] :: m !in Concat(rest) {
      forall i | 0 <= i < |branches| ensures Distinct(branches[i]) {
        if i > 0 { assert Distinct(rest[i - 1]); }
      }
      forall i, j, m | 0 <= i < j < |branches| && m in branches[i] ensures m !in branches[j] {
        if i > 0 { assert m in rest[i - 1] && m !in rest[j - 1]; } else { assert m !in rest[j - 1]; }
      }
    }
  }

  lemma {:induction false} DistinctConcat(branches: seq<seq<string>>)
    ensures Distinct(Concat(branches)) <==> Separate(branches)
  {
    if branches != [] {
      DistinctConcat(branches[1..]);
      DistinctJoined(branches[0], Concat(branches[1..]));
      SeparateRest(branches);
    }
  }

  lemma AcceptedFits(rows: Rows, g: Group)
    requires Accepts(rows, g)
    ensures GroupFits(rows, g)
  {
    ConcatMembers(g.branches);
    DistinctConcat(g.branches);
    forall i | 0 <= i < |g.branches| ensures |g.branches[i]| > 0 {
      assert g.branches[i] in g.branches;
    }
    assert Separate(g.branches);
  }

  lemma FittingIsAccepted(rows: Rows, g: Group)
    requires GroupFits(rows, g)
    ensures Accepts(rows, g)
  {
    var branches, members := g.branches, Concat(g.branches);
    ConcatMembers(branches);
    DistinctConcat(branches);
    assert Separate(branches);
    assert branches[0][0] in branches[0] && branches[0][0] in members;
    assert members[0] in members;
    var k :| 0 <= k < |branches| && members[0] in branches[k];
    forall m | m in members ensures m in rows && rows[m].access == rows[members[0]].access {
      var i :| 0 <= i < |branches| && m in branches[i];
    }
  }

  lemma AcceptsMeans(rows: Rows, g: Group)
    ensures Accepts(rows, g) <==> GroupFits(rows, g)
  {
    if Accepts(rows, g) { AcceptedFits(rows, g); }
    if GroupFits(rows, g) { FittingIsAccepted(rows, g); }
  }

  /** `count` is the least branch total of the group. */
  ghost predicate LeastBranch(rows: Rows, g: Group, count: int) {
    && (forall b | b in g.branches :: count <= BranchCount(rows, b))
    && (exists i | 0 <= i < |g.branches| :: count == BranchCount(rows, g.branches[i]))
  }

  function MembersOf(g: Group): set<string> {
    set m | m in Concat(g.branches)
  }

  /** One group replaced: its members are gone, one row stands for the least of its branches. */
  ghost predicate Replaced(rows: Rows, g: Group, after: Rows) {
    && after.Keys == rows.Keys - MembersOf(g) + {g.identity}
    && (forall id | id in after && id != g.identity :: after[id] == rows[id])
    && after[g.identity].sourceId == g.identity
    && LeastBranch(rows, g, after[g.identity].count)
    && (forall m | m in Concat(g.branches) :: m in rows && rows[m].access == after[g.identity].access)
  }

  /** `stages` are the rows before the first group, after it, after the second, and so on. */
  ghost predicate Stages(groups: seq<Group>, stages: seq<Rows>)
    decreases |groups|
  {
    && |stages| == |groups| + 1
    && (groups != [] ==>
          var n := |groups| - 1;
          Stages(groups[..n], stages[..n + 1]) && Accepts(stages[n], groups[n]) && Replaced(stages[n], groups[n], stages[n + 1]))
  }

  lemma {:induction false} BranchMembers(branches: seq<seq<string>>, i: nat)
    requires i < |branches| && Distinct(Concat(branches))
    ensures Distinct(branches[i]) && forall m | m in branches[i] :: m in Concat(branches)
  {
    var rest := Concat(branches[1..]);
    var all := Concat(branches);
    assert all == branches[0] + rest;
    if i == 0 {
      assert forall j | 0 <= j < |branches[0]| :: all[j] == branches[0][j];
    } else {
      forall j, k | 0 <= j < k < |rest| ensures rest[j] != rest[k] {
        assert all[|branches[0]| + j] == rest[j] && all[|branches[0]| + k] == rest[k];
      }
      BranchMembers(branches[1..], i - 1);
    }
  }

  // ---------------------------------------------------------------- ways through the groups

  /** Undoes one group: where its row counts, the chosen branch counts instead. */
  function Unfold(ids: set<string>, g: Group, choice: nat): set<string>
    requires choice < |g.branches|
  {
    if g.identity in ids then ids - {g.identity} + Members(g.branches[choice]) else ids
  }

  /** A way through the groups: one branch of each. */
  ghost predicate Way(groups: seq<Group>, choices: seq<nat>) {
    |choices| == |groups| && forall i | 0 <= i < |groups| :: choices[i] < |groups[i].branches|
  }

  /** The original sources that count on a way through the groups, undone from the last to the first. */
  ghost function Alive(ids: set<string>, groups: seq<Group>, choices: seq<nat>): set<string>
    requires Way(groups, choices)
    decreases |groups|
  {
    if groups == [] then ids
    else
      var n := |groups| - 1;
      Alive(Unfold(ids, groups[n], choices[n]), groups[..n], choices[..n])
  }

  lemma UnfoldWeight(rows: Rows, g: Group, after: Rows, ids: set<string>, choice: nat)
    requires Accepts(rows, g) && Replaced(rows, g, after) && ids <= after.Keys && choice < |g.branches|
    ensures Unfold(ids, g, choice) <= rows.Keys
    ensures SetSum(ids, CountIn(after)) <= SetSum(Unfold(ids, g, choice), CountIn(rows))
    ensures after[g.identity].count == BranchCount(rows, g.branches[choice]) ==>
              SetSum(ids, CountIn(after)) == SetSum(Unfold(ids, g, choice), CountIn(rows))
  {
    var rest := ids - {g.identity};
    assert rest <= rows.Keys;
    SetSumSame(rest, CountIn(rows), CountIn(after));
    if g.identity in ids {
      var branch := g.branches[choice];
      BranchMembers(g.branches, choice);
      assert branch in g.branches && CountIn(after)(g.identity) == after[g.identity].count <= BranchCount(rows, branch);
      SetSumSplit(ids, CountIn(after), g.identity);
      SumIsSetSum(branch, CountIn(rows));
      assert rest !! Members(branch);
      SetSumUnion(rest, Members(branch), CountIn(rows));
    } else {
      assert rest == ids;
    }
  }

  /** No way through the groups has fewer kills than the collapsed rows say. */
  lemma {:induction false} EveryWayHasAtLeast(groups: seq<Group>, stages: seq<Rows>, choices: seq<nat>, ids: set<string>)
    requires Stages(groups, stages) && Way(groups, choices) && ids <= stages[|groups|].Keys
    ensures Alive(ids, groups, choices) <= stages[0].Keys
    ensures SetSum(ids, CountIn(stages[|groups|])) <= SetSum(Alive(ids, groups, choices), CountIn(stages[0]))
  {
    if groups != [] {
      var n := |groups| - 1;
      UnfoldWeight(stages[n], groups[n], stages[n + 1], ids, choices[n]);
      EveryWayHasAtLeast(groups[..n], stages[..n + 1], choices[..n], Unfold(ids, groups[n], choices[n]));
    }
  }

  lemma AliveLast(ids: set<string>, groups: seq<Group>, earlier: seq<nat>, c: nat)
    requires groups != [] && Way(groups[..|groups| - 1], earlier) && c < |groups[|groups| - 1].branches|
    ensures Way(groups, earlier + [c])
    ensures Alive(ids, groups, earlier + [c]) == Alive(Unfold(ids, groups[|groups| - 1], c), groups[..|groups| - 1], earlier)
  {
    assert (earlier + [c])[..|groups| - 1] == earlier;
    assert forall i | 0 <= i < |groups| - 1 :: groups[..|groups| - 1][i] == groups[i];
  }

  lemma FewestBranch(rows: Rows, g: Group, after: Rows, ids: set<string>) returns (c: nat)
    requires Accepts(rows, g) && Replaced(rows, g, after) && ids <= after.Keys
    ensures c < |g.branches| && Unfold(ids, g, c) <= rows.Keys && SetSum(ids, CountIn(after)) == SetSum(Unfold(ids, g, c), CountIn(rows))
  {
    c :| 0 <= c < |g.branches| && after[g.identity].count == BranchCount(rows, g.branches[c]);
    UnfoldWeight(rows, g, after, ids, c);
  }

  /** Some way through the groups has exactly that many. */
  lemma {:induction false} SomeWayHasExactly(groups: seq<Group>, stages: seq<Rows>, ids: set<string>) returns (choices: seq<nat>)
    requires Stages(groups, stages) && ids <= stages[|groups|].Keys
    ensures Way(groups, choices) && Alive(ids, groups, choices) <= stages[0].Keys
    ensures SetSum(ids, CountIn(stages[|groups|])) == SetSum(Alive(ids, groups, choices), CountIn(stages[0]))
    decreases |groups|
  {
    if groups == [] {
      choices := [];
    } else {
      var n := |groups| - 1;
      var c := FewestBranch(stages[n], groups[n], stages[n + 1], ids);
      var earlier := SomeWayHasExactly(groups[..n], stages[..n + 1], Unfold(ids, groups[n], c));
      AliveLast(ids, groups, earlier, c);
      choices := earlier + [c];
    }
  }

  /** The collapsed total is the minimum over all ways through the groups. */
  ghost predicate MinimumOverWays(rows: Rows, groups: seq<Group>, collapsed: Rows) {
    && (forall choices | Way(groups, choices) ::
          && Alive(collapsed.Keys, groups, choices) <= rows.Keys
          && SetSum(collapsed.Keys, CountIn(collapsed)) <= SetSum(Alive(collapsed.Keys, groups, choices), CountIn(rows)))
    && (exists choices | Way(groups, choices) ::
          && Alive(collapsed.Keys, groups, choices) <= rows.Keys
          && SetSum(collapsed.Keys, CountIn(collapsed)) == SetSum(Alive(collapsed.Keys, groups, choices), CountIn(rows)))
  }

  lemma CollapseIsMinimum(groups: seq<Group>, stages: seq<Rows>)
    requires Stages(groups, stages)
    ensures MinimumOverWays(stages[0], groups, stages[|groups|])
  {
    var collapsed := stages[|groups|];
    forall choices | Way(groups, choices)
      ensures Alive(collapsed.Keys, groups, choices) <= stages[0].Keys
      ensures SetSum(collapsed.Keys, CountIn(collapsed)) <= SetSum(Alive(collapsed.Keys, groups, choices), CountIn(stages[0]))
    {
      EveryWayHasAtLeast(groups, stages, choices, collapsed.Keys);
    }
    var best := SomeWayHasExactly(groups, stages, collapsed.Keys);
  }

  function AllMembers(groups: seq<Group>): set<string> {
    if groups == [] then {} else AllMembers(groups[..|groups| - 1]) + MembersOf(groups[|groups| - 1])
  }

  function Identities(groups: seq<Group>): set<string> {
    if groups == [] then {} else Identities(groups[..|groups| - 1]) + {groups[|groups| - 1].identity}
  }

  /** Rows that belong to no group stay as they are; every member is gone unless a later group brought its name back. */
  lemma {:induction false} OutsidersKept(groups: seq<Group>, stages: seq<Rows>, id: string)
    requires Stages(groups, stages) && id in stages[0] && id !in AllMembers(groups)
    ensures id !in Identities(groups) && id in stages[|groups|] && stages[|groups|][id] == stages[0][id]
  {
    if groups != [] {
      OutsidersKept(groups[..|groups| - 1], stages[..|groups|], id);
    }
  }

  /** What is left is an untouched original row or the row of a group. */
  lemma {:induction false} OnlyOutsidersAndGroups(groups: seq<Group>, stages: seq<Rows>, id: string)
    requires Stages(groups, stages) && id in stages[|groups|]
    ensures id in Identities(groups) || (id in stages[0] && id !in AllMembers(groups) && stages[|groups|][id] == stages[0][id])
  {
    if groups != [] {
      var n := |groups| - 1;
      if id != groups[n].identity {
        OnlyOutsidersAndGroups(groups[..n], stages[..n + 1], id);
      }
    }
  }

  // ---------------------------------------------------------------- the operation

  datatype Fault = NoSources | IdentityDiffers | BadGroup | MissingOrRepeated | AccessDiffers

  lemma OneMoreStage(groups: seq<Group>, stages: seq<Rows>, i: nat, after: Rows)
    requires i < |groups| && Stages(groups[..i], stages)
    requires Accepts(stages[i], groups[i]) && Replaced(stages[i], groups[i], after)
    ensures Stages(groups[..i + 1], stages + [after])
  {
    assert groups[..i + 1][..i] == groups[..i];
    assert (stages + [after])[..i + 1] == stages;
  }

  /** The kills of each source of a branch. */
  ghost function KillsOf(rows: Rows, branch: seq<string>): seq<int> {
    seq(|branch|, k requires 0 <= k < |branch| => if branch[k] in rows then rows[branch[k]].count else 0)
  }

  lemma BranchAdded(rows: Rows, branch: seq<string>)
    ensures BranchCount(rows, branch) == Added(KillsOf(rows, branch))
  {
    SumIsAdded(branch, CountIn(rows), KillsOf(rows, branch));
  }

  method LeastCount(rows: Rows, g: Group) returns (count: nat)
    requires Accepts(rows, g)
    ensures LeastBranch(rows, g, count)
    ensures forall i | 0 <= i < |g.branches| :: count <= Added(KillsOf(rows, g.branches[i]))
    ensures exists i | 0 <= i < |g.branches| :: count == Added(KillsOf(rows, g.branches[i]))
  {
    forall i | 0 <= i < |g.branches| ensures BranchCount(rows, g.branches[i]) == Added(KillsOf(rows, g.branches[i])) {
      BranchAdded(rows, g.branches[i]);
    }
    SumNonNegative(g.branches[0], CountIn(rows));
    count := BranchCount(rows, g.branches[0]);
    for i := 1 to |g.branches|
      invariant forall j | 0 <= j < i :: count <= BranchCount(rows, g.branches[j])
      invariant exists j | 0 <= j < i :: count == BranchCount(rows, g.branches[j])
    {
      SumNonNegative(g.branches[i], CountIn(rows));
      var total := BranchCount(rows, g.branches[i]);
      if total < count {
        count := total;
      }
    }
  }

  method CheckGroup(rows: Rows, g: Group) returns (fault: Option<Fault>)
    ensures fault.None? <==> Accepts(rows, g)
  {
    if g.identity == "" || g.identity in rows || |g.branches| < 2 || exists b | b in g.branches :: b == [] {
      return Some(BadGroup);
    }
    var members := Concat(g.branches);
    if (exists m | m in members :: m !in rows) || !Distinct(members) {
      return Some(MissingOrRepeated);
    }
    assert members != [] by { assert g.branches[0] in g.branches; }
    if exists m | m in members :: rows[m].access != rows[members[0]].access {
      return Some(AccessDiffers);
    }
    fault := None;
  }

  method RemoveMembers(rows: Rows, members: seq<string>) returns (after: Rows)
    ensures after.Keys == rows.Keys - Members(members) && forall id | id in after :: after[id] == rows[id]
  {
    after := rows;
    for i := 0 to |members|
      invariant after.Keys == rows.Keys - Members(members[..i])
      invariant forall id | id in after :: after[id] == rows[id]
    {
      assert members[..i + 1] == members[..i] + [members[i]];
      after := after - {members[i]};
    }
    assert members[..|members|] == members;
  }

  lemma SomeMember(rows: Rows, g: Group)
    requires Accepts(rows, g)
    ensures Concat(g.branches) != [] && Concat(g.branches)[0] in rows
  {
    assert g.branches[0] in g.branches;
  }

  lemma GroupReplaced(rows: Rows, g: Group, rest: Rows, count: nat)
    requires Accepts(rows, g) && LeastBranch(rows, g, count) && Concat(g.branches) != [] && Concat(g.branches)[0] in rows
    requires rest.Keys == rows.Keys - Members(Concat(g.branches)) && forall id | id in rest :: rest[id] == rows[id]
    ensures Replaced(rows, g, rest[g.identity := Row(g.identity, count, rows[Concat(g.branches)[0]].access)])
  {
    assert MembersOf(g) == Members(Concat(g.branches));
  }

  method CollapseGroup(rows: Rows, g: Group) returns (after: Rows)
    requires Accepts(rows, g)
    ensures Replaced(rows, g, after)
  {
    var members := Concat(g.branches);
    SomeMember(rows, g);
    var access := rows[members[0]].access;
    var count := LeastCount(rows, g);
    var rest := RemoveMembers(rows, members);
    GroupReplaced(rows, g, rest, count);
    after := rest[g.identity := Row(g.identity, count, access)];
  }

  /** The groups collapse in order, so a branch may name an earlier group. */
  method CollapseSourceAlternatives(rows: Rows, groups: seq<Group>) returns (r: Result<Rows, Fault>, ghost stages: seq<Rows>)
    ensures groups == [] ==> r == Ok(rows)
    ensures r.Ok? && groups != [] ==> rows != map[] && forall id | id in rows :: rows[id].sourceId == id
    ensures r.Ok? ==> Stages(groups, stages) && stages[0] == rows && stages[|groups|] == r.value
    ensures r.Ok? ==> MinimumOverWays(rows, groups, r.value)
    ensures r.Err? ==>
              || rows == map[] || (exists id | id in rows :: rows[id].sourceId != id)
              || exists i | 0 <= i < |groups| ::
                   |stages| == i + 1 && stages[0] == rows && Stages(groups[..i], stages) && !Accepts(stages[i], groups[i])
  {
    stages := [rows];
    if groups != [] {
      if rows == map[] {
        return Err(NoSources), stages;
      }
      if exists id | id in rows :: rows[id].sourceId != id {
        return Err(IdentityDiffers), stages;
      }
    }
    var current := rows;
    for i := 0 to |groups|
      invariant |stages| == i + 1 && stages[0] == rows && stages[i] == current
      invariant Stages(groups[..i], stages)
    {
      var fault := CheckGroup(current, groups[i]);
      if fault.Some? {
        return Err(fault.value), stages;
      }
      var after := CollapseGroup(current, groups[i]);
      OneMoreStage(groups, stages, i, after);
      stages := stages + [after];
      current := after;
    }
    assert groups[..|groups|] == groups;
    CollapseIsMinimum(groups, stages);
    r := Ok(current);
  }
}
