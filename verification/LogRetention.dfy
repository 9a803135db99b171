/** Bounded excerpts of oversized logs: event queues of the support log and windows of the console. */
module LogRetention {
  import opened Foundations

  type byte = b: int | 0 <= b < 256
  type Bytes = seq<byte>

  const TAIL_BYTES := 262144
  const MAX_BYTES := 1048576
  const LINE_BYTES := 32768
  const NEWLINE: byte := 10

  function Ascii(text: string): (r: Bytes)
    ensures |r| == |text|
  {
    seq(|text|, i requires 0 <= i < |text| => text[i] as int % 256)
  }

  // ---------------------------------------------------------------- lines

  /** Where a read of one line ends: after the first newline, or at the read limit, or at the end. */
  function LineEnd(data: Bytes, at: nat, from: nat): (end: nat)
    requires from <= at < |data| && at < from + LINE_BYTES
    ensures at < end <= |data| && end <= from + 32768
    ensures forall i | at <= i < end - 1 :: data[i] != 10
    ensures data[end - 1] == 10 || end == |data| || end == from + 32768
    decreases |data| - at
  {
    if data[at] == NEWLINE || at + 1 == |data| || at + 1 == from + LINE_BYTES then at + 1 else LineEnd(data, at + 1, from)
  }

  function Lines(data: Bytes, from: nat): seq<Bytes>
    requires from <= |data|
    decreases |data| - from
  {
    if from == |data| then [] else var end := LineEnd(data, from, from); [data[from..end]] + Lines(data, end)
  }

  function Concat(lines: seq<Bytes>): Bytes {
    if lines == [] then [] else lines[0] + Concat(lines[1..])
  }

  /** Reading line by line loses no byte, and no line is longer than one read. */
  lemma {:induction false} LinesAreTheFile(data: Bytes, from: nat)
    requires from <= |data|
    ensures Concat(Lines(data, from)) == data[from..]
    ensures forall line | line in Lines(data, from) :: 0 < |line| <= 32768
    decreases |data| - from
  {
    if from < |data| {
      var end := LineEnd(data, from, from);
      LinesAreTheFile(data, end);
      assert data[from..] == data[from..end] + data[end..];
    }
  }

  // ---------------------------------------------------------------- classes of lines

  predicate Occurs(line: Bytes, marker: Bytes, at: nat) {
    at + |marker| <= |line| && line[at..at + |marker|] == marker
  }

  predicate Contains(line: Bytes, marker: string) {
    exists at | 0 <= at <= |line| :: Occurs(line, Ascii(marker), at)
  }

  ghost predicate Stands(line: Bytes, before: Bytes, text: string, after: Bytes) {
    && |line| == |before| + |text| + |after| && before <= line && line[|before| + |text|..] == after
    && forall i | 0 <= i < |text| :: line[|before| + i] == text[i] as int % 256
  }

  /** The text stands somewhere in the line. */
  ghost predicate Has(line: Bytes, text: string) {
    exists before, after :: Stands(line, before, text, after)
  }

  lemma ContainsMeans(line: Bytes, text: string)
    ensures Contains(line, text) <==> Has(line, text)
  {
    var marker := Ascii(text);
    if at :| 0 <= at <= |line| && Occurs(line, marker, at) {
      forall i | 0 <= i < |text| ensures line[at + i] == text[i] as int % 256 {
        assert line[at..at + |marker|][i] == marker[i];
      }
      assert Stands(line, line[..at], text, line[at + |text|..]);
    }
    if before, after :| Stands(line, before, text, after) {
      assert line[|before|..|before| + |marker|] == marker;
      assert Occurs(line, marker, |before|);
    }
  }

  datatype Class = Death | Event | Other

  const MARKERS := [" ERROR ", " WARNING ", "QUEUE_PUBLICATION_", "GATE_TRANSITION ", "MISSION_SNAPSHOT ",
                    "Game state transition:", "AP_STAGE_COMPLETE_"]

  function ClassOf(line: Bytes): Class {
    if Contains(line, "[DeathLink]") || Contains(line, "deathlink-kill") then Death
    else if (Contains(line, "DELIVERY_EVENT ") && !Contains(line, "PROBE_RESPONSE")) || exists m | m in MARKERS :: Contains(line, m) then Event
    else Other
  }

  lemma MarkersMean(line: Bytes)
    ensures (exists m | m in MARKERS :: Contains(line, m)) <==>
              || Has(line, " ERROR ") || Has(line, " WARNING ") || Has(line, "AP_STAGE_COMPLETE_")
              || Has(line, "QUEUE_PUBLICATION_") || Has(line, "GATE_TRANSITION ") || Has(line, "MISSION_SNAPSHOT ")
              || Has(line, "Game state transition:")
  {
    forall m | m in MARKERS ensures Contains(line, m) <==> Has(line, m) {
      ContainsMeans(line, m);
    }
    assert MARKERS[0] == " ERROR " && MARKERS[1] == " WARNING " && MARKERS[2] == "QUEUE_PUBLICATION_";
    assert MARKERS[3] == "GATE_TRANSITION " && MARKERS[4] == "MISSION_SNAPSHOT ";
    assert MARKERS[5] == "Game state transition:" && MARKERS[6] == "AP_STAGE_COMPLETE_";
  }

  /** A death line mentions a death link; any other line is an event for an error, a warning, a delivery that is not a
    * probe's, or one of the other transitions. */
  lemma ClassMeans(line: Bytes)
    ensures ClassOf(line) == Death <==> Has(line, "[DeathLink]") || Has(line, "deathlink-kill")
    ensures ClassOf(line) == Event <==>
              && !Has(line, "[DeathLink]") && !Has(line, "deathlink-kill")
              && (|| Has(line, " ERROR ") || Has(line, " WARNING ") || Has(line, "AP_STAGE_COMPLETE_")
                  || (Has(line, "DELIVERY_EVENT ") && !Has(line, "PROBE_RESPONSE"))
                  || Has(line, "QUEUE_PUBLICATION_") || Has(line, "GATE_TRANSITION ") || Has(line, "MISSION_SNAPSHOT ")
                  || Has(line, "Game state transition:"))
  {
    ContainsMeans(line, "[DeathLink]");
    ContainsMeans(line, "deathlink-kill");
    ContainsMeans(line, "DELIVERY_EVENT ");
    ContainsMeans(line, "PROBE_RESPONSE");
    MarkersMean(line);
  }

  function OfClass(lines: seq<Bytes>, class_: Class): seq<Bytes> {
    if lines == [] then []
    else
      var n := |lines| - 1;
      OfClass(lines[..n], class_) + if ClassOf(lines[n]) == class_ then [lines[n]] else []
  }

  lemma OfClassSnoc(lines: seq<Bytes>, line: Bytes, class_: Class)
    ensures OfClass(lines + [line], class_) == OfClass(lines, class_) + if ClassOf(line) == class_ then [line] else []
  {
    assert (lines + [line])[..|lines|] == lines;
  }

  lemma {:induction false} OfClassMembers(lines: seq<Bytes>, class_: Class)
    ensures forall line :: line in OfClass(lines, class_) <==> line in lines && ClassOf(line) == class_
  {
    if lines != [] {
      var n := |lines| - 1;
      OfClassMembers(lines[..n], class_);
      assert lines == lines[..n] + [lines[n]];
    }
  }

  /** The lines of a class stand in the order of the file. */
  lemma {:induction false} OfClassOrder(lines: seq<Bytes>, class_: Class, i: nat, j: nat) returns (a: nat, b: nat)
    requires i < j < |lines| && ClassOf(lines[i]) == class_ && ClassOf(lines[j]) == class_
    ensures a < b < |OfClass(lines, class_)| && OfClass(lines, class_)[a] == lines[i] && OfClass(lines, class_)[b] == lines[j]
  {
    var n := |lines| - 1;
    var earlier := OfClass(lines[..n], class_);
    if j == n {
      OfClassMembers(lines[..n], class_);
      assert lines[..n][i] == lines[i] && lines[i] in earlier;
      a :| 0 <= a < |earlier| && earlier[a] == lines[i];
      b := |earlier|;
    } else {
      a, b := OfClassOrder(lines[..n], class_, i, j);
    }
  }

  // ---------------------------------------------------------------- bounded queues

  function SizeOf(lines: seq<Bytes>): nat {
    if lines == [] then 0 else |lines[0]| + SizeOf(lines[1..])
  }

  lemma {:induction false} SizeIsLength(lines: seq<Bytes>)
    ensures |Concat(lines)| == SizeOf(lines)
  {
    if lines != [] { SizeIsLength(lines[1..]); }
  }

  lemma {:induction false} SizeSnoc(lines: seq<Bytes>, line: Bytes)
    ensures SizeOf(lines + [line]) == SizeOf(lines) + |line|
  {
    if lines == [] {
      assert [] + [line] == [line] && [line][1..] == [];
    } else {
      assert (lines + [line])[0] == lines[0] && (lines + [line])[1..] == lines[1..] + [line];
      SizeSnoc(lines[1..], line);
    }
  }

  /** What is kept is the longest suffix of all the lines that fits the limit. */
  ghost predicate LongestSuffix(all: seq<Bytes>, kept: seq<Bytes>, limit: nat) {
    && |kept| <= |all| && kept == all[|all| - |kept|..]
    && SizeOf(kept) <= limit
    && (|kept| < |all| ==> SizeOf(all[|all| - |kept| - 1..]) > limit)
  }

  lemma SuffixOfOneMore(all: seq<Bytes>, from: nat, line: Bytes)
    requires from <= |all|
    ensures (all + [line])[from..] == all[from..] + [line]
    ensures SizeOf((all + [line])[from..]) == SizeOf(all[from..]) + |line|
  {
    assert (all + [line])[from..] == all[from..] + [line];
    SizeSnoc(all[from..], line);
  }

  /** No longer suffix fits. */
  lemma {:induction false} LongestIsMaximal(all: seq<Bytes>, kept: seq<Bytes>, limit: nat, from: nat)
    requires LongestSuffix(all, kept, limit) && from < |all| - |kept|
    ensures SizeOf(all[from..]) > limit
    decreases |all| - from
  {
    if from < |all| - |kept| - 1 {
      LongestIsMaximal(all, kept, limit, from + 1);
      assert all[from..][1..] == all[from + 1..];
    }
  }

  /** A suffix of all lines such that no longer one fits; it may itself still be too long. */
  ghost predicate SuffixFrom(all: seq<Bytes>, kept: seq<Bytes>, limit: nat) {
    && |kept| <= |all| && kept == all[|all| - |kept|..]
    && (|kept| < |all| ==> SizeOf(all[|all| - |kept| - 1..]) > limit)
  }

  lemma DropOldest(all: seq<Bytes>, kept: seq<Bytes>, limit: nat)
    requires SuffixFrom(all, kept, limit) && SizeOf(kept) > limit
    ensures kept != [] && SuffixFrom(all, kept[1..], limit) && SizeOf(kept[1..]) == SizeOf(kept) - |kept[0]|
  {
    assert kept != [];
    assert kept[1..] == all[|all| - |kept| + 1..];
  }

  lemma PushedFrom(all: seq<Bytes>, kept: seq<Bytes>, line: Bytes, limit: nat)
    requires LongestSuffix(all, kept, limit)
    ensures SuffixFrom(all + [line], kept + [line], limit) && SizeOf(kept + [line]) == SizeOf(kept) + |line|
  {
    SuffixOfOneMore(all, |all| - |kept|, line);
    if |kept| < |all| { SuffixOfOneMore(all, |all| - |kept| - 1, line); }
  }

  /** Drops lines at the front until the queue fits. */
  method DropUntilFits(queue: seq<Bytes>, total: nat, limit: nat, ghost all: seq<Bytes>) returns (after: seq<Bytes>, size: nat)
    requires SuffixFrom(all, queue, limit) && total == SizeOf(queue)
    ensures SuffixFrom(all, after, limit) && size == SizeOf(after) <= limit
  {
    after, size := queue, total;
    while size > limit
      invariant SuffixFrom(all, after, limit) && size == SizeOf(after)
      decreases |after|
    {
      DropOldest(all, after, limit);
      size := size - |after[0]|;
      after := after[1..];
    }
  }

  /** Adds a line at the back and drops lines at the front until the queue fits again. */
  method Push(kept: seq<Bytes>, retained: nat, line: Bytes, limit: nat, ghost all: seq<Bytes>) returns (after: seq<Bytes>, size: nat)
    requires LongestSuffix(all, kept, limit) && retained == SizeOf(kept)
    ensures LongestSuffix(all + [line], after, limit) && size == SizeOf(after)
  {
    PushedFrom(all, kept, line, limit);
    after, size := DropUntilFits(kept + [line], retained + |line|, limit, all + [line]);
  }

  /** The newest line of a class is always among the retained ones. */
  lemma NewestIsKept(all: seq<Bytes>, kept: seq<Bytes>, limit: nat)
    requires LongestSuffix(all, kept, limit) && all != [] && |all[|all| - 1]| <= limit
    ensures kept != [] && kept[|kept| - 1] == all[|all| - 1]
  {
    var last := all[|all| - 1];
    SizeSnoc([], last);
    assert all[|all| - 1..] == [] + [last];
  }

  // ---------------------------------------------------------------- the support log

  const DEATH_LIMIT: nat := Min(131072, (MAX_BYTES - TAIL_BYTES - 256) / 4)
  const EVENT_LIMIT: nat := MAX_BYTES - TAIL_BYTES - 256 - DEATH_LIMIT

  const EVENTS_TITLE := "\n\n[... RETAINED TRANSITION/ERROR EVENTS ...]\n\n"
  const DEATHS_TITLE := "\n\n[... DEATHLINK EVENTS ...]\n\n"
  const TAIL_TITLE := "\n\n[... CURRENT TAIL ...]\n\n"

  /** Both queues hold the longest suffixes of what has been read, and their sizes are known. */
  ghost predicate Queued(read: seq<Bytes>, events: seq<Bytes>, retained: nat, deaths: seq<Bytes>, deathRetained: nat) {
    && LongestSuffix(OfClass(read, Event), events, EVENT_LIMIT) && retained == SizeOf(events)
    && LongestSuffix(OfClass(read, Death), deaths, DEATH_LIMIT) && deathRetained == SizeOf(deaths)
  }

  /** One line enters the queue of its class, if it has one. */
  method Enqueue(events: seq<Bytes>, retained: nat, deaths: seq<Bytes>, deathRetained: nat, line: Bytes, ghost read: seq<Bytes>)
    returns (events': seq<Bytes>, retained': nat, deaths': seq<Bytes>, deathRetained': nat)
    requires Queued(read, events, retained, deaths, deathRetained)
    ensures Queued(read + [line], events', retained', deaths', deathRetained')
  {
    events', retained', deaths', deathRetained' := events, retained, deaths, deathRetained;
    OfClassSnoc(read, line, Event);
    OfClassSnoc(read, line, Death);
    var class_ := ClassOf(line);
    if class_ == Death {
      deaths', deathRetained' := Push(deaths, deathRetained, line, DEATH_LIMIT, OfClass(read, Death));
      assert OfClass(read, Event) + [] == OfClass(read, Event);
    } else if class_ == Event {
      events', retained' := Push(events, retained, line, EVENT_LIMIT, OfClass(read, Event));
      assert OfClass(read, Death) + [] == OfClass(read, Death);
    } else {
      assert OfClass(read, Event) + [] == OfClass(read, Event);
      assert OfClass(read, Death) + [] == OfClass(read, Death);
    }
  }

  /** The lines read so far and those still ahead are the lines of the file. */
  ghost predicate ReadUpTo(data: Bytes, at: nat, read: seq<Bytes>) {
    at <= |data| && read + Lines(data, at) == Lines(data, 0)
  }

  lemma ReadingStarts(data: Bytes)
    ensures ReadUpTo(data, 0, []) && Queued([], [], 0, [], 0)
  {
    assert [] + Lines(data, 0) == Lines(data, 0);
    assert OfClass([], Event) == [] && OfClass([], Death) == [];
  }

  lemma ReadingEnds(data: Bytes, read: seq<Bytes>)
    requires ReadUpTo(data, |data|, read)
    ensures read == Lines(data, 0)
  {
    assert Lines(data, |data|) == [];
    assert read + [] == read;
  }

  /** One line off the front of the file, with at most `LINE_BYTES` bytes. */
  method ReadLine(data: Bytes, at: nat, ghost read: seq<Bytes>) returns (line: Bytes, next: nat)
    requires ReadUpTo(data, at, read) && at < |data|
    ensures ReadUpTo(data, next, read + [line]) && at < next && line == data[at..next]
  {
    next := LineEnd(data, at, at);
    line := data[at..next];
    assert Lines(data, at) == [line] + Lines(data, next);
    assert read + Lines(data, at) == read + [line] + Lines(data, next);
  }

  /** Reads the log line by line into its two queues. */
  method RetainEvents(data: Bytes) returns (events: seq<Bytes>, deaths: seq<Bytes>)
    ensures LongestSuffix(OfClass(Lines(data, 0), Event), events, EVENT_LIMIT)
    ensures LongestSuffix(OfClass(Lines(data, 0), Death), deaths, DEATH_LIMIT)
  {
    events, deaths := [], [];
    var retained: nat, deathRetained: nat, at: nat := 0, 0, 0;
    ghost var read: seq<Bytes> := [];
    ReadingStarts(data);
    while at < |data|
      invariant ReadUpTo(data, at, read)
      invariant Queued(read, events, retained, deaths, deathRetained)
      decreases |data| - at
    {
      var line, next := ReadLine(data, at, read);
      events, retained, deaths, deathRetained := Enqueue(events, retained, deaths, deathRetained, line, read);
      read, at := read + [line], next;
    }
    ReadingEnds(data, read);
  }

  function Titled(title: string, lines: seq<Bytes>): Bytes {
    Ascii(title) + Concat(lines)
  }

  function Composed(data: Bytes, events: seq<Bytes>, deaths: seq<Bytes>): Bytes
    requires |data| > MAX_BYTES
  {
    data[..TAIL_BYTES / 2] + Titled(EVENTS_TITLE, events) + Titled(DEATHS_TITLE, deaths) + Titled(TAIL_TITLE, [])
    + data[|data| - TAIL_BYTES / 2..]
  }

  /** The text, then the lines, from a place on. */
  ghost predicate Section(payload: Bytes, at: nat, title: string, lines: seq<Bytes>) {
    && at + |title| + SizeOf(lines) <= |payload|
    && (forall i | 0 <= i < |title| :: payload[at + i] == title[i] as int % 256)
    && payload[at + |title|..at + |title| + SizeOf(lines)] == Concat(lines)
  }

  /** An oversized log: its first 131072 bytes, the events, the deaths and its last 131072 bytes, under their titles. */
  ghost predicate InSections(data: Bytes, events: seq<Bytes>, deaths: seq<Bytes>, payload: Bytes)
    requires |data| > 1048576
  {
    && |payload| == 262144 + 46 + SizeOf(events) + 30 + SizeOf(deaths) + 26
    && payload[..131072] == data[..131072] && payload[|payload| - 131072..] == data[|data| - 131072..]
    && Section(payload, 131072, "\n\n[... RETAINED TRANSITION/ERROR EVENTS ...]\n\n", events)
    && Section(payload, 131072 + 46 + SizeOf(events), "\n\n[... DEATHLINK EVENTS ...]\n\n", deaths)
    && Section(payload, 131072 + 46 + SizeOf(events) + 30 + SizeOf(deaths), "\n\n[... CURRENT TAIL ...]\n\n", [])
  }

  lemma TitledSize(title: string, lines: seq<Bytes>)
    ensures |Titled(title, lines)| == |title| + SizeOf(lines)
  {
    SizeIsLength(lines);
  }

  lemma SectionAt(payload: Bytes, at: nat, title: string, lines: seq<Bytes>)
    requires at + |Titled(title, lines)| <= |payload| && payload[at..at + |Titled(title, lines)|] == Titled(title, lines)
    ensures Section(payload, at, title, lines)
  {
    var piece := payload[at..at + |Titled(title, lines)|];
    TitledSize(title, lines);
    SizeIsLength(lines);
    forall i | 0 <= i < |title| ensures payload[at + i] == title[i] as int % 256 {
      assert payload[at + i] == piece[i] == Ascii(title)[i];
    }
    assert payload[at + |title|..at + |title| + SizeOf(lines)] == piece[|title|..];
    assert piece[|title|..] == Concat(lines);
  }

  lemma PiecesOf(head: Bytes, a: Bytes, b: Bytes, c: Bytes, tail: Bytes)
    ensures var whole, one, two, three := head + a + b + c + tail, |head| + |a|, |head| + |a| + |b|, |head| + |a| + |b| + |c|;
            && |whole| == three + |tail| && whole[..|head|] == head && whole[|whole| - |tail|..] == tail
            && whole[|head|..one] == a && whole[one..two] == b && whole[two..three] == c
  {}

  lemma ComposedSections(data: Bytes, events: seq<Bytes>, deaths: seq<Bytes>)
    requires |data| > MAX_BYTES
    ensures InSections(data, events, deaths, Composed(data, events, deaths))
  {
    var payload, a, b := Composed(data, events, deaths), Titled(EVENTS_TITLE, events), Titled(DEATHS_TITLE, deaths);
    PiecesOf(data[..131072], a, b, Titled(TAIL_TITLE, []), data[|data| - 131072..]);
    TitledSize(EVENTS_TITLE, events);
    TitledSize(DEATHS_TITLE, deaths);
    TitledSize(TAIL_TITLE, []);
    SectionAt(payload, 131072, EVENTS_TITLE, events);
    SectionAt(payload, 131072 + |a|, DEATHS_TITLE, deaths);
    SectionAt(payload, 131072 + |a| + |b|, TAIL_TITLE, []);
  }

  /** A log that fits is kept whole; a larger one keeps its first and last bytes and, of each class of event
    * lines, the longest suffix that fits the budget of the class. The whole fits the maximum. */
  method ReadSupportLog(data: Bytes) returns (payload: Option<Bytes>, ghost events: seq<Bytes>, ghost deaths: seq<Bytes>)
    ensures payload.None? <==> data == []
    ensures payload.Some? && |data| <= 1048576 ==> payload.value == data
    ensures payload.Some? ==> |payload.value| <= 1048576
    ensures |data| > 1048576 ==>
              && payload == Some(Composed(data, events, deaths)) && InSections(data, events, deaths, payload.value)
              && LongestSuffix(OfClass(Lines(data, 0), Event), events, 655104)
              && LongestSuffix(OfClass(Lines(data, 0), Death), deaths, 131072)
  {
    events, deaths := [], [];
    if |data| == 0 {
      return None, events, deaths;
    }
    if |data| <= MAX_BYTES {
      return Some(data), events, deaths;
    }
    var kept, killed := RetainEvents(data);
    SizeIsLength(kept);
    SizeIsLength(killed);
    events, deaths := kept, killed;
    ComposedSections(data, kept, killed);
    payload := Some(Composed(data, kept, killed));
  }

  lemma NewestOfClassKept(lines: seq<Bytes>, kept: seq<Bytes>, class_: Class, limit: nat)
    requires forall line | line in lines :: |line| <= limit
    requires LongestSuffix(OfClass(lines, class_), kept, limit) && OfClass(lines, class_) != []
    ensures kept != [] && kept[|kept| - 1] == OfClass(lines, class_)[|OfClass(lines, class_)| - 1]
  {
    var all := OfClass(lines, class_);
    OfClassMembers(lines, class_);
    assert all[|all| - 1] in all;
    NewestIsKept(all, kept, limit);
  }

  /** Both budgets are larger than one line, so the newest event and the newest death are in every excerpt. */
  lemma NewestEventsSurvive(data: Bytes, kept: seq<Bytes>, class_: Class, limit: nat)
    requires limit == EVENT_LIMIT || limit == DEATH_LIMIT
    requires LongestSuffix(OfClass(Lines(data, 0), class_), kept, limit) && OfClass(Lines(data, 0), class_) != []
    ensures kept != [] && kept[|kept| - 1] == OfClass(Lines(data, 0), class_)[|OfClass(Lines(data, 0), class_)| - 1]
  {
    var lines := Lines(data, 0);
    LinesAreTheFile(data, 0);
    assert LINE_BYTES <= limit;
    NewestOfClassKept(lines, kept, class_, limit);
  }
}
