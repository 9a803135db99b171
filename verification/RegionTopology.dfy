/** Reachability of the declared regions from the menu. */
module RegionTopology {
  import opened Foundations

  datatype Connection = Connection(origin: string, target: string, entrance: string, conditions: set<string>)

  datatype Refusal = Undeclared | UnknownAssignment | IllegalConnection | DuplicateConnection | UnknownCondition | Unreachable

  const START := "Menu"

  predicate Joins(c: Connection, a: string, b: string) {
    c.origin == a && c.target == b
  }

  predicate Linked(connections: seq<Connection>, a: string, b: string) {
    exists i | 0 <= i < |connections| :: Joins(connections[i], a, b)
  }

  /** A walk: it starts at the menu and follows one connection after another. */
  ghost predicate Walk(connections: seq<Connection>, path: seq<string>) {
    && path != [] && path[0] == "Menu"
    && forall i | 0 <= i < |path| - 1 :: Linked(connections, path[i], path[i + 1])
  }

  ghost predicate WalkTo(connections: seq<Connection>, path: seq<string>, region: string) {
    Walk(connections, path) && path[|path| - 1] == region
  }

  ghost predicate HasPath(connections: seq<Connection>, region: string) {
    exists path :: WalkTo(connections, path, region)
  }

  function Targets(connections: seq<Connection>, from: set<string>): (r: set<string>)
    ensures forall b :: b in r <==> exists i | 0 <= i < |connections| :: connections[i].origin in from && connections[i].target == b
  {
    set i | 0 <= i < |connections| && connections[i].origin in from :: connections[i].target
  }

  lemma StartHasPath(connections: seq<Connection>)
    ensures HasPath(connections, START)
  {
    assert WalkTo(connections, [START], START);
  }

  lemma StepHasPath(connections: seq<Connection>, a: string, b: string)
    requires HasPath(connections, a) && Linked(connections, a, b)
    ensures HasPath(connections, b)
  {
    var path :| WalkTo(connections, path, a);
    assert WalkTo(connections, path + [b], b);
  }

  lemma TargetsHavePaths(connections: seq<Connection>, from: set<string>)
    requires forall r | r in from :: HasPath(connections, r)
    ensures forall r | r in Targets(connections, from) :: HasPath(connections, r)
  {
    forall r | r in Targets(connections, from) ensures HasPath(connections, r) {
      var i :| 0 <= i < |connections| && connections[i].origin in from && connections[i].target == r;
      assert Joins(connections[i], connections[i].origin, r);
      StepHasPath(connections, connections[i].origin, r);
    }
  }

  /** A set that holds the menu and is closed under connections holds the end of every walk. */
  lemma {:induction false} ClosedHoldsWalks(connections: seq<Connection>, closed: set<string>, path: seq<string>)
    requires START in closed && Targets(connections, closed) <= closed
    requires Walk(connections, path)
    ensures path[|path| - 1] in closed
  {
    if |path| > 1 {
      var front := path[..|path| - 1];
      assert Walk(connections, front) by {
        forall i | 0 <= i < |front| - 1 ensures Linked(connections, front[i], front[i + 1]) {
          assert Linked(connections, path[i], path[i + 1]);
        }
      }
      ClosedHoldsWalks(connections, closed, front);
      assert Linked(connections, path[|path| - 2], path[|path| - 1]);
    }
  }

  lemma ClosedHoldsPaths(connections: seq<Connection>, closed: set<string>, region: string)
    requires START in closed && Targets(connections, closed) <= closed
    requires HasPath(connections, region)
    ensures region in closed
  {
    var path :| WalkTo(connections, path, region);
    ClosedHoldsWalks(connections, closed, path);
  }

  lemma {:induction false} SubsetSize(a: set<string>, b: set<string>)
    requires a <= b
    ensures |a| <= |b|
  {
    if a != {} {
      var x :| x in a;
      SubsetSize(a - {x}, b - {x});
    }
  }

  lemma Shrinks(all: set<string>, small: set<string>, large: set<string>)
    requires small < large <= all
    ensures |all - large| < |all - small|
  {
    var x :| x in large && x !in small;
    assert all - large <= all - small - {x};
    SubsetSize(all - large, all - small - {x});
  }

  /** Grows the reached set until a round adds nothing. The rounds end, and what they end with is exactly
    * the set of regions that some walk from the menu reaches. */
  method Reachable(connections: seq<Connection>) returns (reachable: set<string>)
    ensures forall r :: r in reachable <==> HasPath(connections, r)
  {
    StartHasPath(connections);
    reachable := {START};
    ghost var all := {START} + set i | 0 <= i < |connections| :: connections[i].target;
    while true
      invariant START in reachable && reachable <= all
      invariant forall r | r in reachable :: HasPath(connections, r)
      decreases |all - reachable|
    {
      TargetsHavePaths(connections, reachable);
      var expanded := reachable + Targets(connections, reachable);
      assert Targets(connections, reachable) <= all;
      if expanded == reachable {
        break;
      }
      Shrinks(all, reachable, expanded);
      reachable := expanded;
    }
    forall r | HasPath(connections, r) ensures r in reachable {
      ClosedHoldsPaths(connections, reachable, r);
    }
  }

  predicate NoRepeats(connections: seq<Connection>) {
    forall i, j | 0 <= i < j < |connections| :: !Joins(connections[j], connections[i].origin, connections[i].target)
  }

  /** Every declared region and connection is in order, and the walks from the menu end in exactly the declared regions. */
  ghost predicate SoundTopology(regions: set<string>, metadata: set<string>, known: set<int>, assignments: map<int, string>, connections: seq<Connection>) {
    && regions == metadata && assignments.Keys == known
    && (forall id | id in assignments :: assignments[id] in regions)
    && (forall c | c in connections :: c.origin in regions && c.target in regions && c.origin != c.target)
    && NoRepeats(connections)
    && (forall c | c in connections :: c.conditions <= {"soft_capabilities"})
    && (forall r :: r in regions <==> HasPath(connections, r))
  }

  function Pairs(connections: seq<Connection>): (r: set<(string, string)>)
    ensures forall p :: p in r <==> exists i | 0 <= i < |connections| :: Joins(connections[i], p.0, p.1)
  {
    set i | 0 <= i < |connections| :: (connections[i].origin, connections[i].target)
  }

  lemma PairsOfOneMore(front: seq<Connection>, last: Connection)
    ensures Pairs(front + [last]) == Pairs(front) + {(last.origin, last.target)}
  {
    var whole := front + [last];
    forall p | p in Pairs(front) ensures p in Pairs(whole) {
      var i :| 0 <= i < |front| && Joins(front[i], p.0, p.1);
      assert whole[i] == front[i];
    }
    assert whole[|front|] == last;
    assert (last.origin, last.target) in Pairs(whole);
    forall p | p in Pairs(whole) ensures p in Pairs(front) + {(last.origin, last.target)} {
      var i :| 0 <= i < |whole| && Joins(whole[i], p.0, p.1);
      if i < |front| { assert Joins(front[i], p.0, p.1); }
    }
  }

  lemma NoRepeatsOfOneMore(front: seq<Connection>, last: Connection)
    ensures NoRepeats(front + [last]) <==> NoRepeats(front) && (last.origin, last.target) !in Pairs(front)
  {
    var whole := front + [last];
    assert forall i | 0 <= i < |front| :: whole[i] == front[i];
    if NoRepeats(whole) {
      forall i, j | 0 <= i < j < |front| ensures !Joins(front[j], front[i].origin, front[i].target) {
        assert !Joins(whole[j], whole[i].origin, whole[i].target);
      }
      forall i | 0 <= i < |front| ensures !Joins(front[i], last.origin, last.target) {
        assert !Joins(whole[|front|], whole[i].origin, whole[i].target);
      }
    }
    if NoRepeats(front) && (last.origin, last.target) !in Pairs(front) {
      forall i, j | 0 <= i < j < |whole| ensures !Joins(whole[j], whole[i].origin, whole[i].target) {
        if j < |front| {
          assert !Joins(front[j], front[i].origin, front[i].target);
        } else {
          assert !Joins(front[i], last.origin, last.target);
        }
      }
    }
  }

  /** Counting the distinct pairs finds every repeated connection. */
  lemma {:induction false} RepeatsShortenPairs(connections: seq<Connection>)
    ensures |Pairs(connections)| <= |connections|
    ensures |Pairs(connections)| == |connections| <==> NoRepeats(connections)
  {
    if connections == [] {
      assert Pairs(connections) == {};
    } else {
      var front, last := connections[..|connections| - 1], connections[|connections| - 1];
      assert connections == front + [last];
      RepeatsShortenPairs(front);
      PairsOfOneMore(front, last);
      NoRepeatsOfOneMore(front, last);
    }
  }

  /** The region part of the catalogue check: it accepts exactly the sound topologies. */
  method ValidateTopology(regions: set<string>, metadata: set<string>, known: set<int>, assignments: map<int, string>, connections: seq<Connection>)
    returns (r: Option<Refusal>)
    ensures r.None? <==> SoundTopology(regions, metadata, known, assignments, connections)
    ensures r == Some(Unreachable) ==> exists region :: (region in regions) != HasPath(connections, region)
  {
    if regions != metadata || assignments.Keys != known {
      return Some(Undeclared);
    }
    if exists id | id in assignments :: assignments[id] !in regions {
      return Some(UnknownAssignment);
    }
    if exists c | c in connections :: c.origin !in regions || c.target !in regions || c.origin == c.target {
      return Some(IllegalConnection);
    }
    RepeatsShortenPairs(connections);
    if |Pairs(connections)| != |connections| {
      return Some(DuplicateConnection);
    }
    if exists c | c in connections :: c.conditions - {"soft_capabilities"} != {} {
      return Some(UnknownCondition);
    }
    var reachable := Reachable(connections);
    if reachable != regions {
      assert exists region :: (region in regions) != (region in reachable);
      return Some(Unreachable);
    }
    return None;
  }
}
