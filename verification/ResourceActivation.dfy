/** Activation of mapped containers: filtering the mapping, rewriting the mask and following its offsets. */
module ResourceActivation {
  import opened Foundations
  import opened ResourceMask

  /** One line of the mapping: a container name, its mask offset and the line ending. */
  datatype Line = Line(name: string, offset: int, ending: string)

  function Slashes(name: string): string {
    seq(|name|, i requires 0 <= i < |name| => if name[i] == '\\' then '/' else name[i])
  }

  function Normalized(name: string): string {
    var n := Slashes(name);
    if |n| >= 2 && n[..2] == "./" then n[2..] else n
  }

  /** A leftover line of a generated enemy bank: a fixed directory and a 64-digit hexadecimal name. */
  predicate Stale(name: string) {
    var n := Slashes(name);
    && |n| == 93 && n[..19] == "ap_enemy_resources/" && n[83..] == ".resources"
    && forall i | 19 <= i < 83 :: n[i] in "0123456789abcdef"
  }

  /** Text without slashes is the same before and after. */
  lemma PlainPart(name: string, at: nat, text: string)
    requires at + |text| <= |name| && Slashes(name)[at..at + |text|] == text && '/' !in text
    ensures name[at..at + |text|] == text
  {
    forall i | 0 <= i < |text| ensures name[at + i] == text[i] {
      assert Slashes(name)[at..at + |text|][i] == text[i];
    }
  }

  lemma HexDigit(ch: char)
    ensures ch in "0123456789abcdef" <==> '0' <= ch <= '9' || 'a' <= ch <= 'f'
  {}

  predicate HexDigits(digits: string) {
    |digits| == 64 && forall i | 0 <= i < 64 :: '0' <= digits[i] <= '9' || 'a' <= digits[i] <= 'f'
  }

  lemma StaleText(name: string, slash: char, digits: string)
    requires slash in "/\\" && HexDigits(digits) && name == "ap_enemy_resources" + [slash] + digits + ".resources"
    ensures Stale(name)
  {
    var n := Slashes(name);
    assert n[..19] == "ap_enemy_resources/";
    assert n[83..] == ".resources";
    forall i | 19 <= i < 83 ensures n[i] in "0123456789abcdef" {
      assert name[i] == digits[i - 19];
      HexDigit(n[i]);
    }
  }

  lemma StaleDigits(name: string)
    requires Stale(name)
    ensures |name| == 93 && HexDigits(name[19..83])
  {
    var digits := name[19..83];
    forall i | 0 <= i < 64 ensures '0' <= digits[i] <= '9' || 'a' <= digits[i] <= 'f' {
      assert Slashes(name)[19 + i] in "0123456789abcdef";
      HexDigit(Slashes(name)[19 + i]);
    }
  }

  lemma StaleEnds(name: string)
    requires Stale(name)
    ensures |name| == 93 && name[..18] == "ap_enemy_resources" && name[18] in "/\\" && name[83..] == ".resources"
  {
    var n := Slashes(name);
    PlainPart(name, 0, "ap_enemy_resources");
    PlainPart(name, 83, ".resources");
    assert n[18] == n[..19][18];
  }

  lemma FourPieces(name: string)
    requires |name| == 93
    ensures name == name[..18] + [name[18]] + name[19..83] + name[83..]
  {}

  /** The name of a leftover line in either kind of slashes: the fixed directory, sixty-four digits, the suffix. */
  lemma StaleMeans(name: string)
    ensures Stale(name) <==>
              exists slash, digits | slash in "/\\" && HexDigits(digits) ::
                name == "ap_enemy_resources" + [slash] + digits + ".resources"
  {
    if Stale(name) {
      StaleEnds(name);
      StaleDigits(name);
      FourPieces(name);
    }
    forall slash, digits | slash in "/\\" && HexDigits(digits) && name == "ap_enemy_resources" + [slash] + digits + ".resources"
      ensures Stale(name)
    {
      StaleText(name, slash, digits);
    }
  }

  /** Backslashes become slashes, and one leading "./" is dropped. */
  lemma NormalizedMeans(name: string)
    ensures var n := Normalized(name);
            var from := if |name| >= 2 && name[0] == '.' && name[1] in "/\\" then 2 else 0;
            |n| == |name| - from && forall i | 0 <= i < |n| :: n[i] == if name[from + i] == '\\' then '/' else name[from + i]
  {
    var n := Slashes(name);
    assert |n| >= 2 && n[..2] == "./" <==> |n| >= 2 && n[0] == '.' && n[1] == '/';
  }

  datatype Fault = Compressed | Truncated | BadBoundary | BadMapping | DuplicateMapping | Unmapped | Ambiguous | Oversize

  /** The lines whose offset starts a table. */
  function Kept(lines: seq<Line>, starts: set<int>): seq<Line> {
    if lines == [] then []
    else (if lines[0].offset in starts then [lines[0]] else []) + Kept(lines[1..], starts)
  }

  lemma {:induction false} KeptSnoc(lines: seq<Line>, x: Line, starts: set<int>)
    ensures Kept(lines + [x], starts) == Kept(lines, starts) + (if x.offset in starts then [x] else [])
  {
    if lines == [] {
      assert lines + [x] == [x] && [x][1..] == [];
      assert Kept([], starts) == [];
    } else {
      var more := lines + [x];
      assert more[0] == lines[0] && more[1..] == lines[1..] + [x];
      KeptSnoc(lines[1..], x, starts);
      assert Kept(more, starts) == (if more[0].offset in starts then [more[0]] else []) + Kept(more[1..], starts);
    }
  }

  lemma {:induction false} KeptMembers(lines: seq<Line>, starts: set<int>)
    ensures forall x :: x in Kept(lines, starts) <==> x in lines && x.offset in starts
    ensures (forall x | x in lines :: x.offset in starts) ==> Kept(lines, starts) == lines
  {
    if lines != [] {
      KeptMembers(lines[1..], starts);
      assert lines == [lines[0]] + lines[1..];
    }
  }

  predicate Mappable(mask: Bytes, lines: seq<Line>) {
    && |mask| >= 8
    && var ts := Parse(mask[8..], U32(mask, 4));
       && ts.Some?
       && forall x | x in lines :: x.offset in OffsetSet(ts.value) || Stale(x.name)
  }

  /** Drops the leftover lines that point at no table; any other such line is an error. */
  method MappingLines(mask: Bytes, lines: seq<Line>) returns (r: Result<seq<Line>, Fault>, ghost ts: seq<Table>)
    ensures r.Ok? <==> Mappable(mask, lines)
    ensures r.Ok? ==> Holds(mask, ts) && r.value == Kept(lines, OffsetSet(ts))
    ensures r.Err? ==> r.error != Oversize
  {
    if |mask| < 8 {
      return Err(Truncated), [];
    }
    var starts;
    starts, ts := TableOffsets(mask);
    if starts.None? {
      return Err(BadBoundary), [];
    }
    HoldsIsParse(mask, ts);
    var kept: seq<Line> := [];
    for i := 0 to |lines|
      invariant kept == Kept(lines[..i], OffsetSet(ts))
      invariant forall j | 0 <= j < i :: lines[j].offset in OffsetSet(ts) || Stale(lines[j].name)
    {
      assert lines[..i + 1] == lines[..i] + [lines[i]];
      KeptSnoc(lines[..i], lines[i], OffsetSet(ts));
      if lines[i].offset !in starts.value {
        if !Stale(lines[i].name) {
          assert lines[i] in lines;
          return Err(BadMapping), [];
        }
      } else {
        kept := kept + [lines[i]];
      }
    }
    assert lines[..|lines|] == lines;
    r := Ok(kept);
  }

  // ---------------------------------------------------------------- choosing the tables

  function Names(lines: seq<Line>): seq<string> {
    seq(|lines|, k requires 0 <= k < |lines| => Normalized(lines[k].name))
  }

  ghost predicate Selects(selected: map<string, int>, names: seq<string>, lines: seq<Line>, count: nat)
    requires count <= |lines| == |names|
  {
    && (forall k | 0 <= k < count :: names[k] in selected && selected[names[k]] == lines[k].offset)
    && (forall n | n in selected :: exists k | 0 <= k < count :: names[k] == n)
  }

  lemma SelectsFurther(selected: map<string, int>, names: seq<string>, lines: seq<Line>, i: nat)
    requires |lines| == |names| && i < |lines| && Selects(selected, names, lines, i) && names[i] !in selected
    ensures Selects(selected[names[i] := lines[i].offset], names, lines, i + 1)
  {
    var more := selected[names[i] := lines[i].offset];
    forall n | n in more ensures exists k | 0 <= k < i + 1 :: names[k] == n {
      if n != names[i] {
        var k :| 0 <= k < i && names[k] == n;
      }
    }
  }

  method SelectNamed(names: seq<string>, lines: seq<Line>) returns (selected: Option<map<string, int>>)
    requires |names| == |lines|
    ensures selected.Some? <==> Distinct(names)
    ensures selected.Some? ==> Selects(selected.value, names, lines, |lines|)
  {
    var table: map<string, int> := map[];
    for i := 0 to |lines|
      invariant Selects(table, names, lines, i) && Distinct(names[..i])
    {
      if names[i] in table {
        ghost var k :| 0 <= k < i && names[k] == names[i];
        return None;
      }
      SelectsFurther(table, names, lines, i);
      assert names[..i + 1] == names[..i] + [names[i]];
      table := table[names[i] := lines[i].offset];
    }
    assert names[..|lines|] == names;
    selected := Some(table);
  }

  method Select(lines: seq<Line>) returns (selected: Option<map<string, int>>)
    ensures selected.Some? <==> Distinct(Names(lines))
    ensures selected.Some? ==> Selects(selected.value, Names(lines), lines, |lines|)
  {
    selected := SelectNamed(Names(lines), lines);
  }

  type Targets = map<string, set<nat>>

  predicate Unambiguous(targets: Targets, selected: map<string, int>)
    requires targets.Keys <= selected.Keys
  {
    forall m, n | m in targets && n in targets && m != n :: selected[m] != selected[n]
  }

  ghost predicate Chosen(requests: Requests, targets: Targets, selected: map<string, int>) {
    && targets.Keys <= selected.Keys
    && (forall n | n in targets :: selected[n] in requests && requests[selected[n]] == targets[n])
    && (forall o | o in requests :: exists n | n in targets :: selected[n] == o)
  }

  method Choose(targets: Targets, selected: map<string, int>) returns (requests: Option<Requests>)
    requires targets.Keys <= selected.Keys
    ensures requests.Some? <==> Unambiguous(targets, selected)
    ensures requests.Some? ==> Chosen(requests.value, targets, selected)
  {
    var todo := targets.Keys;
    var chosen: Requests := map[];
    while todo != {}
      invariant todo <= targets.Keys
      invariant forall n | n in targets && n !in todo :: selected[n] in chosen && chosen[selected[n]] == targets[n]
      invariant forall o | o in chosen :: exists n | n in targets && n !in todo :: selected[n] == o
      invariant forall m, n | m in targets && n in targets && m !in todo && n !in todo && m != n :: selected[m] != selected[n]
      decreases |todo|
    {
      var n :| n in todo;
      if selected[n] in chosen {
        ghost var m :| m in targets && m !in todo && selected[m] == selected[n];
        assert m != n;
        return None;
      }
      todo := todo - {n};
      chosen := chosen[selected[n] := targets[n]];
    }
    requests := Some(chosen);
  }

  // ---------------------------------------------------------------- the whole activation

  datatype Activation = Activation(container: Container, lines: seq<Line>, reports: map<nat, Report>)

  ghost predicate Shared(kept: seq<Line>, names: seq<string>, targets: Targets)
    requires |names| == |kept|
  {
    exists i, j | 0 <= i < j < |kept| :: names[i] in targets && names[j] in targets && kept[i].offset == kept[j].offset
  }

  ghost predicate Plannable(lines: seq<Line>, targets: Targets) {
    && Distinct(Names(lines)) && (forall n | n in targets :: n in Names(lines))
    && !Shared(lines, Names(lines), targets)
  }

  /** What the launcher accepts: an uncompressed well-formed mask, a mapping that fits it, and requests that
    * name distinct tables. */
  ghost predicate Acceptable(c: Container, lines: seq<Line>, targets: Targets)
    requires c.row + 24 <= |c.bytes| && c.At() + c.Size() <= |c.bytes|
  {
    var mask := c.bytes[c.At()..c.At() + c.Size()];
    && c.flags == 0 && Mappable(mask, lines)
    && var kept := Kept(lines, OffsetSet(Parse(mask[8..], U32(mask, 4)).value));
       && Plannable(kept, targets)
  }

  /** A line that pointed at a table points at the same table's new place. */
  ghost predicate Follows(line: Line, moved: Line, ts: seq<Table>, us: seq<Table>)
    requires |us| == |ts|
  {
    exists i | 0 <= i < |ts| :: line.offset == Offsets(ts)[i] && moved == line.(offset := Offsets(us)[i])
  }

  ghost predicate LinesFollow(kept: seq<Line>, lines: seq<Line>, ts: seq<Table>, us: seq<Table>) {
    && |us| == |ts| && |lines| == |kept|
    && forall k | 0 <= k < |kept| :: Follows(kept[k], lines[k], ts, us)
  }

  method Renumber(kept: seq<Line>, offsets: map<nat, nat>, ghost ts: seq<Table>, ghost us: seq<Table>) returns (lines: seq<Line>)
    requires |us| == |ts| && Relocates(offsets, Offsets(ts), Offsets(us))
    requires forall x | x in kept :: x.offset in OffsetSet(ts)
    ensures LinesFollow(kept, lines, ts, us)
    ensures us == ts ==> lines == kept
  {
    lines := [];
    for k := 0 to |kept|
      invariant LinesFollow(kept[..k], lines, ts, us)
      invariant us == ts ==> lines == kept[..k]
    {
      assert kept[k] in kept;
      OffsetSetHas(ts, kept[k].offset);
      ghost var i :| 0 <= i < |ts| && Offsets(ts)[i] == kept[k].offset;
      lines := lines + [kept[k].(offset := offsets[kept[k].offset])];
      assert kept[..k + 1] == kept[..k] + [kept[k]];
      assert Follows(kept[k], lines[k], ts, us);
    }
    assert kept[..|kept|] == kept;
  }

  ghost predicate Requested(kept: seq<Line>, targets: Targets, offset: int) {
    exists k | 0 <= k < |kept| :: kept[k].offset == offset && Names(kept)[k] in targets
  }

  /** The tables before and after: requested records are enabled in addition, all else is as it was. */
  ghost predicate Meaning(kept: seq<Line>, targets: Targets, ts: seq<Table>, us: seq<Table>) {
    && |us| == |ts|
    && (forall i | 0 <= i < |ts| :: us[i].head == ts[i].head)
    && (forall i, k | 0 <= i < |ts| && 0 <= k < |kept| && kept[k].offset == Offsets(ts)[i] && Names(kept)[k] in targets ::
          Enables(ts[i].bits, us[i].bits, targets[Names(kept)[k]]))
    && (forall i | 0 <= i < |ts| && !Requested(kept, targets, Offsets(ts)[i]) :: us[i] == ts[i])
  }

  lemma RequestedGain(kept: seq<Line>, targets: Targets, selected: map<string, int>, requests: Requests,
                      ts: seq<Table>, us: seq<Table>, reports: map<nat, Report>, i: nat, k: nat)
    requires |us| == |ts| && Rewritten(ts, us, Offsets(ts), requests, reports)
    requires Selects(selected, Names(kept), kept, |kept|) && Chosen(requests, targets, selected)
    requires i < |ts| && k < |kept| && kept[k].offset == Offsets(ts)[i] && Names(kept)[k] in targets
    ensures Enables(ts[i].bits, us[i].bits, targets[Names(kept)[k]])
  {
    var n := Names(kept)[k];
    assert selected[n] == kept[k].offset && requests[selected[n]] == targets[n];
    assert Served(ts[i], us[i], Offsets(ts)[i], requests, reports[Offsets(ts)[i]]);
  }

  lemma OthersKept(kept: seq<Line>, targets: Targets, selected: map<string, int>, requests: Requests,
                   ts: seq<Table>, us: seq<Table>, reports: map<nat, Report>, i: nat)
    requires |us| == |ts| && Rewritten(ts, us, Offsets(ts), requests, reports)
    requires Selects(selected, Names(kept), kept, |kept|) && Chosen(requests, targets, selected)
    requires i < |ts|
    ensures us[i].head == ts[i].head && (!Requested(kept, targets, Offsets(ts)[i]) ==> us[i] == ts[i])
  {
    var at := Offsets(ts)[i];
    assert Served(ts[i], us[i], at, requests, reports[at]);
    if at in requests {
      var n :| n in targets && selected[n] == at;
      var k :| 0 <= k < |kept| && Names(kept)[k] == n;
      assert kept[k].offset == at;
    }
  }

  lemma MeaningOfRewrite(kept: seq<Line>, targets: Targets, selected: map<string, int>, requests: Requests,
                         ts: seq<Table>, us: seq<Table>, reports: map<nat, Report>)
    requires |us| == |ts| && Rewritten(ts, us, Offsets(ts), requests, reports)
    requires Selects(selected, Names(kept), kept, |kept|) && Chosen(requests, targets, selected)
    ensures Meaning(kept, targets, ts, us)
  {
    forall i | 0 <= i < |ts|
      ensures us[i].head == ts[i].head && (!Requested(kept, targets, Offsets(ts)[i]) ==> us[i] == ts[i])
    {
      OthersKept(kept, targets, selected, requests, ts, us, reports, i);
    }
    forall i, k | 0 <= i < |ts| && 0 <= k < |kept| && kept[k].offset == Offsets(ts)[i] && Names(kept)[k] in targets
      ensures Enables(ts[i].bits, us[i].bits, targets[Names(kept)[k]])
    {
      RequestedGain(kept, targets, selected, requests, ts, us, reports, i, k);
    }
  }

  lemma AmbiguousIsShared(kept: seq<Line>, names: seq<string>, targets: Targets, selected: map<string, int>)
    requires |names| == |kept| && Selects(selected, names, kept, |kept|) && targets.Keys <= selected.Keys
    requires !Unambiguous(targets, selected)
    ensures Shared(kept, names, targets)
  {
    var m, n :| m in targets && n in targets && m != n && selected[m] == selected[n];
    var i :| 0 <= i < |kept| && names[i] == m;
    var j :| 0 <= j < |kept| && names[j] == n;
    if i < j {
      assert names[i] in targets && names[j] in targets && kept[i].offset == kept[j].offset;
    } else {
      assert names[j] in targets && names[i] in targets && kept[j].offset == kept[i].offset;
    }
  }

  lemma SharedIsAmbiguous(kept: seq<Line>, names: seq<string>, targets: Targets, selected: map<string, int>)
    requires |names| == |kept| && Selects(selected, names, kept, |kept|) && targets.Keys <= selected.Keys
    requires Distinct(names) && Shared(kept, names, targets)
    ensures !Unambiguous(targets, selected)
  {
    var i, j :| 0 <= i < j < |kept| && names[i] in targets && names[j] in targets && kept[i].offset == kept[j].offset;
    assert selected[names[i]] == selected[names[j]];
  }

  /** The index row does not fall on the new mask. */
  ghost predicate Clear(c: Container, d: Container)
    requires c.Valid() && d.Valid()
  {
    c.Apart() || d.At() != c.At()
  }

  /** What becomes of container and lines; where the index row falls on the mask, it need not hold the tables. */
  ghost predicate Carried(c: Container, kept: seq<Line>, out: Activation, ts: seq<Table>, us: seq<Table>)
    requires c.Valid() && Holds(c.Mask(), ts)
  {
    && out.container.Valid() && out.container.row == c.row && out.container.flags == c.flags
    && out.container.At() == Destination(c, 8 + Extent(us)) && out.container.Size() == 8 + Extent(us)
    && (Clear(c, out.container) ==> Holds(out.container.Mask(), us) && out.container.Mask()[..8] == c.Mask()[..8])
    && LinesFollow(kept, out.lines, ts, us)
  }

  /** Everything one activation promises. */
  ghost predicate Activated(c: Container, kept: seq<Line>, targets: Targets, out: Activation, ts: seq<Table>, us: seq<Table>)
    requires c.Valid()
  {
    Holds(c.Mask(), ts) && Meaning(kept, targets, ts, us) && Carried(c, kept, out, ts, us)
  }

  ghost predicate OnlyPayloadMoved(c: Container, d: Container)
    requires c.Valid() && d.Valid()
  {
    && |c.bytes| <= |d.bytes| && (d.At() == c.At() || |c.bytes| <= d.At())
    && forall k | 0 <= k < |c.bytes| && !(c.row <= k < c.row + 24) && !(d.At() <= k < d.At() + d.Size()) ::
         d.bytes[k] == c.bytes[k]
  }

  lemma SameTablesSameMask(mask: Bytes, updated: Bytes, ts: seq<Table>)
    requires Holds(mask, ts) && Holds(updated, ts) && updated[..8] == mask[..8]
    ensures updated == mask
  {
    assert mask == mask[..8] + mask[8..] && updated == updated[..8] + updated[8..];
  }

  method Plan(lines: seq<Line>, targets: Targets) returns (r: Result<Requests, Fault>, ghost selected: map<string, int>)
    ensures r.Ok? <==> Plannable(lines, targets)
    ensures r.Ok? ==> Selects(selected, Names(lines), lines, |lines|) && Chosen(r.value, targets, selected)
    ensures r.Err? ==> r.error != Oversize
  {
    var names := Select(lines);
    if names.None? {
      return Err(DuplicateMapping), map[];
    }
    selected := names.value;
    if !(targets.Keys <= names.value.Keys) {
      return Err(Unmapped), map[];
    }
    var requests := Choose(targets, names.value);
    if requests.None? {
      AmbiguousIsShared(lines, Names(lines), targets, names.value);
      return Err(Ambiguous), map[];
    }
    if Shared(lines, Names(lines), targets) {
      SharedIsAmbiguous(lines, Names(lines), targets, names.value);
    }
    r := Ok(requests.value);
  }

  ghost predicate Uncountable(targets: Targets) {
    exists n | n in targets :: !Countable(targets[n])
  }

  /** The tables outgrow their 32-bit word counts, or the container its 64-bit index row. */
  ghost predicate TooBig(c: Container, targets: Targets, us: seq<Table>)
    requires c.Valid()
  {
    Uncountable(targets) || !Placeable(c, 8 + Extent(us))
  }

  /** Every chosen table is one of the mask's, so the requests are countable if and only if the targets are. */
  lemma CountableTargets(kept: seq<Line>, targets: Targets, selected: map<string, int>, requests: Requests, ts: seq<Table>)
    requires Selects(selected, Names(kept), kept, |kept|) && Chosen(requests, targets, selected)
    requires forall x | x in kept :: x.offset in OffsetSet(ts)
    ensures AllCountable(Offsets(ts), requests) <==> !Uncountable(targets)
  {
    if Uncountable(targets) {
      var n :| n in targets && !Countable(targets[n]);
      var k :| 0 <= k < |kept| && Names(kept)[k] == n;
      assert kept[k] in kept;
      OffsetSetHas(ts, kept[k].offset);
      var i :| 0 <= i < |ts| && Offsets(ts)[i] == kept[k].offset;
      assert !CountableAt(Offsets(ts)[i], requests);
    }
  }

  /** Puts the rewritten mask into the container and renumbers the mapping. */
  method Carry(c: Container, kept: seq<Line>, draft: Draft, ghost ts: seq<Table>, ghost us: seq<Table>) returns (out: Activation)
    requires c.Valid() && Holds(c.Mask(), ts) && forall x | x in kept :: x.offset in OffsetSet(ts)
    requires |us| == |ts| && Holds(draft.updated, us) && draft.updated[..8] == c.Mask()[..8]
    requires Relocates(draft.offsets, Offsets(ts), Offsets(us)) && Placeable(c, |draft.updated|)
    ensures out.reports == draft.reports && Carried(c, kept, out, ts, us) && OnlyPayloadMoved(c, out.container)
    ensures us == ts ==> out.container == c && out.lines == kept
  {
    LastOffset(draft.updated, us);
    if us == ts {
      SameTablesSameMask(c.Mask(), draft.updated, ts);
    }
    var container := PlaceMask(c, draft.updated);
    var lines := Renumber(kept, draft.offsets, ts, us);
    out := Activation(container, lines, draft.reports);
  }

  method Rewrite(c: Container, kept: seq<Line>, requests: Requests, ghost ts: seq<Table>)
    returns (r: Option<Activation>, ghost us: seq<Table>, ghost reports: map<nat, Report>)
    requires c.Valid() && Holds(c.Mask(), ts) && forall x | x in kept :: x.offset in OffsetSet(ts)
    ensures AllCountable(Offsets(ts), requests) ==> |us| == |ts| && Rewritten(ts, us, Offsets(ts), requests, reports)
    ensures r.Some? <==> AllCountable(Offsets(ts), requests) && Placeable(c, 8 + Extent(us))
    ensures r.Some? ==> r.value.reports == reports && Carried(c, kept, r.value, ts, us) && OnlyPayloadMoved(c, r.value.container)
    ensures r.Some? && us == ts ==> r.value.container == c && r.value.lines == kept
  {
    var draft, fits;
    draft, fits, us := RewriteMask(c.Mask(), ts, requests);
    reports := draft.reports;
    if !fits {
      return None, us, reports;
    }
    LastOffset(draft.updated, us);
    if !Placeable(c, |draft.updated|) {
      return None, us, reports;
    }
    var out := Carry(c, kept, draft, ts, us);
    r := Some(out);
  }

  /** Reads the mapping and chooses the tables to rewrite; accepts exactly the acceptable input. */
  method Accept(c: Container, lines: seq<Line>, targets: Targets)
    returns (r: Result<(seq<Line>, Requests), Fault>, ghost ts: seq<Table>, ghost selected: map<string, int>)
    requires c.Valid()
    ensures r.Ok? <==> Acceptable(c, lines, targets)
    ensures r.Err? ==> r.error != Oversize
    ensures r.Ok? ==>
              && Holds(c.Mask(), ts) && r.value.0 == Kept(lines, OffsetSet(ts))
              && (forall x | x in r.value.0 :: x.offset in OffsetSet(ts))
              && Selects(selected, Names(r.value.0), r.value.0, |r.value.0|) && Chosen(r.value.1, targets, selected)
  {
    ts, selected := [], map[];
    if c.flags != 0 {
      return Err(Compressed), ts, selected;
    }
    var kept;
    kept, ts := MappingLines(c.Mask(), lines);
    if kept.Err? {
      return Err(kept.error), ts, selected;
    }
    HoldsIsParse(c.Mask(), ts);
    KeptMembers(lines, OffsetSet(ts));
    var requests;
    requests, selected := Plan(kept.value, targets);
    if requests.Err? {
      return Err(requests.error), ts, selected;
    }
    r := Ok((kept.value, requests.value));
  }

  /** Carries the chosen requests out, unless the result cannot be stored. */
  method Finish(c: Container, kept: seq<Line>, requests: Requests, ghost targets: Targets, ghost ts: seq<Table>, ghost selected: map<string, int>)
    returns (r: Option<Activation>, ghost us: seq<Table>)
    requires c.Valid() && Holds(c.Mask(), ts) && forall x | x in kept :: x.offset in OffsetSet(ts)
    requires Selects(selected, Names(kept), kept, |kept|) && Chosen(requests, targets, selected)
    ensures r.Some? <==> !TooBig(c, targets, us)
    ensures !Uncountable(targets) ==> Meaning(kept, targets, ts, us)
    ensures r.Some? ==> Activated(c, kept, targets, r.value, ts, us) && OnlyPayloadMoved(c, r.value.container)
    ensures r.Some? && us == ts ==> r.value.container == c && r.value.lines == kept
  {
    CountableTargets(kept, targets, selected, requests, ts);
    ghost var reports;
    r, us, reports := Rewrite(c, kept, requests, ts);
    if !Uncountable(targets) {
      MeaningOfRewrite(kept, targets, selected, requests, ts, us, reports);
    }
  }

  lemma AcceptedPlan(c: Container, lines: seq<Line>, targets: Targets, ts: seq<Table>)
    requires c.Valid() && Acceptable(c, lines, targets) && Holds(c.Mask(), ts)
    ensures Plannable(Kept(lines, OffsetSet(ts)), targets)
  {
    HoldsIsParse(c.Mask(), ts);
  }

  /** Whether the table that starts at byte `at` of a mask has record `v` enabled, read from the bytes: the
    * count of the words stands at 8, the words start at 12, each byte has eight records, the first with value 1. */
  ghost predicate TableHas(mask: Bytes, at: int, v: nat) {
    && 0 <= at && at + 12 + v / 8 < |mask| && v / 8 < 8 * U32(mask, at + 8)
    && mask[at + 12 + v / 8] / [1, 2, 4, 8, 16, 32, 64, 128][v % 8] % 2 == 1
  }

  ghost predicate RecordOn(c: Container, at: int, v: nat)
    requires c.Valid()
  {
    TableHas(c.bytes[U64(c.bytes, c.row)..U64(c.bytes, c.row) + U64(c.bytes, c.row + 8)], at, v)
  }

  lemma SliceAt(mask: Bytes, from: nat, to: nat, k: nat)
    requires from <= to <= |mask| && k < to - from
    ensures mask[from..to][k] == mask[from + k]
  {}

  lemma HasIsBit(mask: Bytes, ts: seq<Table>, i: nat, v: nat)
    requires Holds(mask, ts) && i < |ts|
    ensures TableHas(mask, Offsets(ts)[i], v) <==> BitAt(ts[i].bits, v)
  {
    var at, bits := OffsetOf(ts, i), ts[i].bits;
    OffsetsAre(ts, i);
    TableAt(mask, ts, i);
    EnabledIsBit(bits, v);
    if v / 8 < |bits| {
      SliceAt(mask, at + 12, at + 12 + |bits|, v / 8);
    }
  }

  lemma RowNames(c: Container)
    requires c.Valid()
    ensures U64(c.bytes, c.row) == c.At() && U64(c.bytes, c.row + 8) == c.Size()
    ensures c.bytes[c.At()..c.At() + c.Size()] == c.Mask()
  {}

  lemma RecordReads(c: Container, at: int, v: nat)
    requires c.Valid()
    ensures RecordOn(c, at, v) == TableHas(c.Mask(), at, v)
  {
    RowNames(c);
  }

  lemma RecordIsBit(c: Container, ts: seq<Table>, i: nat, v: nat)
    requires c.Valid() && Holds(c.Mask(), ts) && i < |ts|
    ensures RecordOn(c, Offsets(ts)[i], v) <==> BitAt(ts[i].bits, v)
  {
    RecordReads(c, Offsets(ts)[i], v);
    HasIsBit(c.Mask(), ts, i, v);
  }

  /** Some kept line names a target that asks for the record, and points at the offset. */
  ghost predicate AskedFor(kept: seq<Line>, targets: Targets, offset: int, v: nat) {
    exists j | 0 <= j < |kept| ::
      kept[j].offset == offset && Normalized(kept[j].name) in targets && v in targets[Normalized(kept[j].name)]
  }

  /** Through every line of the mapping the game sees, in the table the line points at, exactly the records it saw there
    * before and the requested ones. */
  ghost predicate SeenThroughLines(c: Container, kept: seq<Line>, targets: Targets, out: Activation)
    requires c.Valid() && out.container.Valid()
  {
    && |out.lines| == |kept|
    && forall k, v: nat | 0 <= k < |kept| ::
         && out.lines[k].name == kept[k].name && out.lines[k].ending == kept[k].ending
         && (RecordOn(out.container, out.lines[k].offset, v)
             <==> RecordOn(c, kept[k].offset, v) || AskedFor(kept, targets, kept[k].offset, v))
  }

  lemma OneTargetLine(kept: seq<Line>, names: seq<string>, targets: Targets, j: nat, k: nat)
    requires |names| == |kept| && j < |kept| && k < |kept| && names[j] in targets && names[k] in targets
    requires kept[j].offset == kept[k].offset
    ensures j != k ==> Shared(kept, names, targets)
  {}

  lemma UnaskedTable(kept: seq<Line>, targets: Targets, at: int, v: nat)
    requires !Requested(kept, targets, at)
    ensures !AskedFor(kept, targets, at, v)
  {
    forall j | 0 <= j < |kept| && kept[j].offset == at ensures Normalized(kept[j].name) !in targets {
      assert Names(kept)[j] == Normalized(kept[j].name);
    }
  }

  lemma AskedThrough(kept: seq<Line>, targets: Targets, k: nat, v: nat)
    requires !Shared(kept, Names(kept), targets) && k < |kept| && Names(kept)[k] in targets
    ensures AskedFor(kept, targets, kept[k].offset, v) <==> v in targets[Names(kept)[k]]
  {
    assert Names(kept)[k] == Normalized(kept[k].name);
    forall j | 0 <= j < |kept| && kept[j].offset == kept[k].offset && Normalized(kept[j].name) in targets ensures j == k {
      assert Names(kept)[j] == Normalized(kept[j].name);
      OneTargetLine(kept, Names(kept), targets, j, k);
    }
  }

  lemma TableGains(kept: seq<Line>, targets: Targets, ts: seq<Table>, us: seq<Table>, i: nat, v: nat)
    requires Meaning(kept, targets, ts, us) && Plannable(kept, targets) && i < |ts|
    ensures BitAt(us[i].bits, v) <==> BitAt(ts[i].bits, v) || AskedFor(kept, targets, Offsets(ts)[i], v)
  {
    var at := Offsets(ts)[i];
    if Requested(kept, targets, at) {
      var k :| 0 <= k < |kept| && kept[k].offset == at && Names(kept)[k] in targets;
      assert Enables(ts[i].bits, us[i].bits, targets[Names(kept)[k]]);
      AskedThrough(kept, targets, k, v);
    } else {
      UnaskedTable(kept, targets, at, v);
    }
  }

  lemma LineSees(c: Container, kept: seq<Line>, targets: Targets, out: Activation, ts: seq<Table>, us: seq<Table>, k: nat, v: nat)
    requires c.Valid() && Activated(c, kept, targets, out, ts, us) && Clear(c, out.container) && Plannable(kept, targets)
    requires k < |kept|
    ensures out.lines[k].name == kept[k].name && out.lines[k].ending == kept[k].ending
    ensures RecordOn(out.container, out.lines[k].offset, v)
            <==> RecordOn(c, kept[k].offset, v) || AskedFor(kept, targets, kept[k].offset, v)
  {
    assert Follows(kept[k], out.lines[k], ts, us);
    var i :| 0 <= i < |ts| && kept[k].offset == Offsets(ts)[i] && out.lines[k] == kept[k].(offset := Offsets(us)[i]);
    RecordIsBit(c, ts, i, v);
    RecordIsBit(out.container, us, i, v);
    TableGains(kept, targets, ts, us, i, v);
  }

  lemma ActivationSeen(c: Container, kept: seq<Line>, targets: Targets, out: Activation, ts: seq<Table>, us: seq<Table>)
    requires c.Valid() && Activated(c, kept, targets, out, ts, us) && Clear(c, out.container) && Plannable(kept, targets)
    ensures SeenThroughLines(c, kept, targets, out)
  {
    forall k, v: nat | 0 <= k < |kept|
      ensures out.lines[k].name == kept[k].name && out.lines[k].ending == kept[k].ending
      ensures RecordOn(out.container, out.lines[k].offset, v)
              <==> RecordOn(c, kept[k].offset, v) || AskedFor(kept, targets, kept[k].offset, v)
    {
      LineSees(c, kept, targets, out, ts, us, k, v);
    }
  }

  /** An activation succeeds exactly for acceptable input whose result can be stored. */
  method Prepare(c: Container, lines: seq<Line>, targets: Targets)
    returns (r: Result<Activation, Fault>, ghost ts: seq<Table>, ghost us: seq<Table>)
    requires c.Valid()
    ensures r.Ok? <==> Acceptable(c, lines, targets) && !TooBig(c, targets, us)
    ensures r.Err? && r.error == Oversize <==> Acceptable(c, lines, targets) && TooBig(c, targets, us)
    ensures Acceptable(c, lines, targets) ==> Holds(c.Mask(), ts)
    ensures Acceptable(c, lines, targets) && !Uncountable(targets) ==> Meaning(Kept(lines, OffsetSet(ts)), targets, ts, us)
    ensures r.Ok? ==> Activated(c, Kept(lines, OffsetSet(ts)), targets, r.value, ts, us)
    ensures r.Ok? ==> OnlyPayloadMoved(c, r.value.container)
    ensures r.Ok? && us == ts ==> r.value.container == c && r.value.lines == Kept(lines, OffsetSet(ts))
    ensures r.Ok? && Clear(c, r.value.container) ==> SeenThroughLines(c, Kept(lines, OffsetSet(ts)), targets, r.value)
  {
    us := [];
    var accepted;
    ghost var selected;
    accepted, ts, selected := Accept(c, lines, targets);
    if accepted.Err? {
      return Err(accepted.error), ts, us;
    }
    var finished;
    finished, us := Finish(c, accepted.value.0, accepted.value.1, targets, ts, selected);
    AcceptedPlan(c, lines, targets, ts);
    if finished.Some? && Clear(c, finished.value.container) {
      ActivationSeen(c, accepted.value.0, targets, finished.value, ts, us);
    }
    r := if finished.None? then Err(Oversize) else Ok(finished.value);
  }

  // ---------------------------------------------------------------- a second activation

  lemma HoldsOnce(mask: Bytes, ts: seq<Table>, us: seq<Table>)
    requires Holds(mask, ts) && Holds(mask, us)
    ensures ts == us
  {
    HoldsIsParse(mask, ts);
    HoldsIsParse(mask, us);
  }

  /** The activated mapping keeps its names, and every line still starts a table. */
  lemma FollowedLines(kept: seq<Line>, lines: seq<Line>, ts: seq<Table>, us: seq<Table>)
    requires LinesFollow(kept, lines, ts, us)
    ensures Names(lines) == Names(kept)
    ensures forall x | x in lines :: x.offset in OffsetSet(us)
    ensures Kept(lines, OffsetSet(us)) == lines
  {
    forall k | 0 <= k < |kept| ensures lines[k].offset in OffsetSet(us) && lines[k].name == kept[k].name {
      assert Follows(kept[k], lines[k], ts, us);
      var i :| 0 <= i < |ts| && kept[k].offset == Offsets(ts)[i] && lines[k] == kept[k].(offset := Offsets(us)[i]);
      assert lines[k].offset == Offsets(us)[i];
      OffsetSetHas(us, lines[k].offset);
      assert lines[k].name == kept[k].name;
    }
    KeptMembers(lines, OffsetSet(us));
  }

  lemma SameTable(us: seq<Table>, i: nat, j: nat)
    requires i < |us| && j < |us| && Offsets(us)[i] == Offsets(us)[j]
    ensures i == j
  {
    OffsetsDistinct(us);
  }

  /** Activating what is already active finds every requested record enabled. */
  lemma NothingLeftToEnable(kept: seq<Line>, lines: seq<Line>, targets: Targets, ts: seq<Table>, us: seq<Table>, vs: seq<Table>, i: nat)
    requires Meaning(kept, targets, ts, us) && LinesFollow(kept, lines, ts, us) && Meaning(lines, targets, us, vs)
    requires i < |us|
    ensures vs[i] == us[i]
  {
    if Requested(lines, targets, Offsets(us)[i]) {
      var k :| 0 <= k < |lines| && lines[k].offset == Offsets(us)[i] && Names(lines)[k] in targets;
      FollowedLines(kept, lines, ts, us);
      assert Follows(kept[k], lines[k], ts, us);
      var j :| 0 <= j < |ts| && kept[k].offset == Offsets(ts)[j] && lines[k] == kept[k].(offset := Offsets(us)[j]);
      SameTable(us, i, j);
      assert Names(kept)[k] == Names(lines)[k];
      assert Enables(ts[i].bits, us[i].bits, targets[Names(kept)[k]]);
      assert Enables(us[i].bits, vs[i].bits, targets[Names(lines)[k]]);
      assert vs[i].head == us[i].head;
    }
  }

  /** A container that already holds the tables keeps its mask where it is. */
  lemma StaysPlaced(c: Container, d: Container, length: nat)
    requires c.Valid() && d.Valid() && d.Size() == length
    ensures Destination(d, length) == d.At() && Placeable(d, length)
  {
    U64Packs(d.bytes, d.row);
    U64Packs(d.bytes, d.row + 8);
  }

  lemma NothingLeft(kept: seq<Line>, lines: seq<Line>, targets: Targets, ts: seq<Table>, us: seq<Table>, vs: seq<Table>)
    requires Meaning(kept, targets, ts, us) && LinesFollow(kept, lines, ts, us) && Meaning(lines, targets, us, vs)
    ensures vs == us
  {
    forall i | 0 <= i < |us| ensures vs[i] == us[i] {
      NothingLeftToEnable(kept, lines, targets, ts, us, vs, i);
    }
  }

  /** Lines that share a table afterwards shared it before. */
  lemma SharedBefore(kept: seq<Line>, lines: seq<Line>, ts: seq<Table>, us: seq<Table>, i: nat, j: nat)
    requires LinesFollow(kept, lines, ts, us) && i < |kept| && j < |kept| && lines[i].offset == lines[j].offset
    ensures kept[i].offset == kept[j].offset
  {
    assert Follows(kept[i], lines[i], ts, us) && Follows(kept[j], lines[j], ts, us);
    var m :| 0 <= m < |ts| && kept[i].offset == Offsets(ts)[m] && lines[i] == kept[i].(offset := Offsets(us)[m]);
    var n :| 0 <= n < |ts| && kept[j].offset == Offsets(ts)[n] && lines[j] == kept[j].(offset := Offsets(us)[n]);
    SameTable(us, m, n);
  }

  lemma StillPlannable(kept: seq<Line>, lines: seq<Line>, targets: Targets, ts: seq<Table>, us: seq<Table>)
    requires LinesFollow(kept, lines, ts, us) && Plannable(kept, targets)
    ensures Plannable(lines, targets)
  {
    FollowedLines(kept, lines, ts, us);
    var names := Names(kept);
    if Shared(lines, names, targets) {
      var i, j :| 0 <= i < j < |lines| && names[i] in targets && names[j] in targets && lines[i].offset == lines[j].offset;
      SharedBefore(kept, lines, ts, us, i, j);
      assert Shared(kept, names, targets);
    }
  }

  lemma StillAcceptable(c: Container, lines: seq<Line>, targets: Targets, out: Activation, ts: seq<Table>, us: seq<Table>)
    requires c.Valid() && Acceptable(c, lines, targets)
    requires Activated(c, Kept(lines, OffsetSet(ts)), targets, out, ts, us) && Clear(c, out.container)
    ensures Acceptable(out.container, out.lines, targets)
  {
    var kept := Kept(lines, OffsetSet(ts));
    HoldsIsParse(c.Mask(), ts);
    HoldsIsParse(out.container.Mask(), us);
    FollowedLines(kept, out.lines, ts, us);
    StillPlannable(kept, out.lines, targets, ts, us);
  }

  /** What a second activation reads and rewrites. */
  lemma SecondFindsAll(c: Container, lines: seq<Line>, targets: Targets, out: Activation,
                       ts: seq<Table>, us: seq<Table>, read: seq<Table>, vs: seq<Table>)
    requires c.Valid() && Acceptable(c, lines, targets) && !Uncountable(targets)
    requires Activated(c, Kept(lines, OffsetSet(ts)), targets, out, ts, us) && Clear(c, out.container)
    requires Acceptable(out.container, out.lines, targets) ==>
               Holds(out.container.Mask(), read) && Meaning(Kept(out.lines, OffsetSet(read)), targets, read, vs)
    ensures Acceptable(out.container, out.lines, targets) && vs == read && !TooBig(out.container, targets, vs)
    ensures Kept(out.lines, OffsetSet(read)) == out.lines
  {
    var kept, d := Kept(lines, OffsetSet(ts)), out.container;
    StillAcceptable(c, lines, targets, out, ts, us);
    HoldsOnce(d.Mask(), us, read);
    FollowedLines(kept, out.lines, ts, us);
    NothingLeft(kept, out.lines, targets, ts, us, vs);
    StaysPlaced(c, d, 8 + Extent(us));
  }

  /** Repeating an activation succeeds and changes nothing, unless the index row falls on the mask. */
  method ActivateTwice(c: Container, lines: seq<Line>, targets: Targets) returns (first: Result<Activation, Fault>, second: Result<Activation, Fault>)
    requires c.Valid()
    ensures first.Ok? ==> first.value.container.Valid()
    ensures first.Ok? && Clear(c, first.value.container) ==>
              second.Ok? && second.value.container == first.value.container && second.value.lines == first.value.lines
  {
    ghost var ts, us, read, vs;
    first, ts, us := Prepare(c, lines, targets);
    if first.Err? {
      return first, first;
    }
    second, read, vs := Prepare(first.value.container, first.value.lines, targets);
    if Clear(c, first.value.container) {
      SecondFindsAll(c, lines, targets, first.value, ts, us, read, vs);
    }
  }
}
