/** The bounded console excerpt: its first bytes, its last bytes and a window around the last encounter event. */
module ConsoleExcerpt {
  import opened Foundations
  import opened LogRetention

  // ---------------------------------------------------------------- the last event

  /** A line starts at `at` when reads that begin at `from` reach it. */
  predicate StartsAt(data: Bytes, from: nat, at: nat)
    requires from <= |data|
    decreases |data| - from
  {
    at == from || (from < |data| && StartsAt(data, LineEnd(data, from, from), at))
  }

  function LineAt(data: Bytes, at: nat): Bytes
    requires at < |data|
  {
    data[at..LineEnd(data, at, at)]
  }

  ghost predicate MatchesAt(data: Bytes, matches: Bytes -> bool, at: nat) {
    at < |data| && StartsAt(data, 0, at) && matches(LineAt(data, at))
  }

  /** The offset of the last line that matches among those that start before `bound`. */
  ghost predicate LastMatch(data: Bytes, matches: Bytes -> bool, bound: nat, last: Option<nat>) {
    && (last.Some? ==> last.value < bound && MatchesAt(data, matches, last.value))
    && forall at: nat | MatchesAt(data, matches, at) && at < bound :: last.Some? && at <= last.value
  }

  lemma {:induction false} StartsAfter(data: Bytes, from: nat, at: nat)
    requires from <= |data| && StartsAt(data, from, at)
    ensures from <= at <= |data|
    decreases |data| - from
  {
    if at != from { StartsAfter(data, LineEnd(data, from, from), at); }
  }

  lemma {:induction false} StartsFollow(data: Bytes, from: nat, at: nat, later: nat)
    requires from <= |data| && StartsAt(data, from, at) && StartsAt(data, from, later) && at < later && at < |data|
    ensures LineEnd(data, at, at) <= later
    decreases |data| - from
  {
    if from == at {
      StartsAfter(data, LineEnd(data, at, at), later);
    } else {
      StartsAfter(data, LineEnd(data, from, from), at);
      StartsFollow(data, LineEnd(data, from, from), at, later);
    }
  }

  lemma {:induction false} NextStart(data: Bytes, from: nat, at: nat)
    requires from <= |data| && StartsAt(data, from, at) && at < |data|
    ensures StartsAt(data, from, LineEnd(data, at, at))
    decreases |data| - from
  {
    if at != from { NextStart(data, LineEnd(data, from, from), at); }
  }

  lemma LastMatchStep(data: Bytes, matches: Bytes -> bool, at: nat, last: Option<nat>)
    requires at < |data| && StartsAt(data, 0, at) && LastMatch(data, matches, at, last)
    ensures LastMatch(data, matches, LineEnd(data, at, at), if matches(LineAt(data, at)) then Some(at) else last)
  {
    var end := LineEnd(data, at, at);
    forall o: nat | MatchesAt(data, matches, o) && o < end ensures o <= at && (o == at ==> matches(LineAt(data, at))) {
      if at < o { StartsFollow(data, 0, at, o); }
    }
  }

  method FindLastEvent(data: Bytes, matches: Bytes -> bool) returns (last: Option<nat>)
    ensures LastMatch(data, matches, |data|, last)
  {
    last := None;
    var at: nat := 0;
    assert LastMatch(data, matches, 0, None);
    while at < |data|
      invariant at <= |data| && StartsAt(data, 0, at) && LastMatch(data, matches, at, last)
      decreases |data| - at
    {
      var end := LineEnd(data, at, at);
      LastMatchStep(data, matches, at, last);
      NextStart(data, 0, at);
      if matches(data[at..end]) {
        last := Some(at);
      }
      at := end;
    }
  }

  // ---------------------------------------------------------------- merging spans

  datatype Span = Span(begin: nat, end: nat)

  predicate SpanLeq(a: Span, b: Span) {
    a.begin < b.begin || (a.begin == b.begin && a.end <= b.end)
  }

  ghost predicate Covers(spans: seq<Span>, at: nat) {
    exists i | 0 <= i < |spans| :: spans[i].begin <= at < spans[i].end
  }

  ghost predicate Inside(span: Span, spans: seq<Span>) {
    exists i | 0 <= i < |spans| :: spans[i].begin <= span.begin && span.end <= spans[i].end
  }

  /** Spans in order, with a gap between any two. */
  ghost predicate Separated(spans: seq<Span>) {
    && (forall i | 0 <= i < |spans| :: spans[i].begin <= spans[i].end)
    && forall i, j | 0 <= i < j < |spans| :: spans[i].end < spans[j].begin
  }

  ghost predicate IsEnd(end: nat, spans: seq<Span>) {
    exists j | 0 <= j < |spans| :: end == spans[j].end
  }

  /** Every part ends where one of the spans ends. */
  ghost predicate EndsLike(merged: seq<Span>, spans: seq<Span>) {
    forall i | 0 <= i < |merged| :: IsEnd(merged[i].end, spans)
  }

  ghost predicate AllInside(spans: seq<Span>, merged: seq<Span>) {
    forall i | 0 <= i < |spans| :: Inside(spans[i], merged)
  }

  ghost predicate AddsNothing(spans: seq<Span>, merged: seq<Span>) {
    forall at: nat | Covers(merged, at) :: Covers(spans, at)
  }

  function Width(span: Span): int {
    span.end - span.begin
  }

  /** `merged` stands for `spans`: separated, each span inside one of its parts, no position added, no wider in all. */
  ghost predicate Merges(spans: seq<Span>, merged: seq<Span>) {
    && Separated(merged) && |merged| <= |spans|
    && AllInside(spans, merged) && AddsNothing(spans, merged) && EndsLike(merged, spans)
    && Sum(merged, Width) <= Sum(spans, Width)
  }

  function MergeOne(merged: seq<Span>, span: Span): seq<Span> {
    var n := |merged|;
    if n > 0 && span.begin <= merged[n - 1].end
    then merged[..n - 1] + [Span(merged[n - 1].begin, Max(span.end, merged[n - 1].end))]
    else merged + [span]
  }

  lemma MergeOneSeparated(merged: seq<Span>, span: Span)
    requires Separated(merged) && span.begin <= span.end && (merged != [] ==> merged[|merged| - 1].begin <= span.begin)
    ensures Separated(MergeOne(merged, span)) && |MergeOne(merged, span)| <= |merged| + 1
    ensures MergeOne(merged, span) != [] && MergeOne(merged, span)[|MergeOne(merged, span)| - 1].begin <= span.begin
  {
    if merged != [] {
      var last := merged[|merged| - 1];
      forall i | 0 <= i < |merged| - 1 ensures merged[i].end < last.begin {}
    }
  }

  lemma MergeOneHolds(merged: seq<Span>, span: Span, inner: Span)
    requires merged != [] ==> merged[|merged| - 1].begin <= span.begin
    requires inner == span || Inside(inner, merged)
    ensures Inside(inner, MergeOne(merged, span))
  {
    var r := MergeOne(merged, span);
    if inner == span {
      assert r[|r| - 1].begin <= inner.begin && inner.end <= r[|r| - 1].end;
    } else {
      var i :| 0 <= i < |merged| && merged[i].begin <= inner.begin && inner.end <= merged[i].end;
      assert r[i].begin == merged[i].begin && merged[i].end <= r[i].end;
    }
  }

  lemma MergeOneAddsNothing(merged: seq<Span>, span: Span, at: nat)
    requires Covers(MergeOne(merged, span), at)
    requires merged != [] ==> merged[|merged| - 1].begin <= span.begin
    ensures Covers(merged, at) || span.begin <= at < span.end
  {
    var r := MergeOne(merged, span);
    var i :| 0 <= i < |r| && r[i].begin <= at < r[i].end;
    if i < |merged| && at < merged[i].end {
      assert r[i].begin == merged[i].begin;
    }
  }

  lemma EndInMore(spans: seq<Span>, span: Span, end: nat)
    requires IsEnd(end, spans) || end == span.end
    ensures IsEnd(end, spans + [span])
  {
    var more := spans + [span];
    if end == span.end {
      assert more[|spans|] == span;
    } else {
      var j :| 0 <= j < |spans| && end == spans[j].end;
      assert more[j] == spans[j];
    }
  }

  lemma MergeOneEnds(spans: seq<Span>, merged: seq<Span>, span: Span)
    requires EndsLike(merged, spans)
    ensures EndsLike(MergeOne(merged, span), spans + [span])
  {
    var after := MergeOne(merged, span);
    forall i | 0 <= i < |after| ensures IsEnd(after[i].end, spans + [span]) {
      if after[i].end != span.end {
        assert i < |merged| && after[i].end == merged[i].end;
      }
      EndInMore(spans, span, after[i].end);
    }
  }

  lemma AllInsideStep(spans: seq<Span>, merged: seq<Span>, span: Span)
    requires AllInside(spans, merged) && (merged != [] ==> merged[|merged| - 1].begin <= span.begin)
    ensures AllInside(spans + [span], MergeOne(merged, span))
  {
    var more := spans + [span];
    forall i | 0 <= i < |more| ensures Inside(more[i], MergeOne(merged, span)) {
      if i < |spans| { assert more[i] == spans[i] && Inside(spans[i], merged); }
      MergeOneHolds(merged, span, more[i]);
    }
  }

  lemma CoversMore(spans: seq<Span>, span: Span, at: nat)
    requires Covers(spans, at) || span.begin <= at < span.end
    ensures Covers(spans + [span], at)
  {
    var more := spans + [span];
    if Covers(spans, at) {
      var i :| 0 <= i < |spans| && spans[i].begin <= at < spans[i].end;
      assert more[i] == spans[i];
    } else {
      assert more[|spans|] == span;
    }
  }

  lemma AddsNothingStep(spans: seq<Span>, merged: seq<Span>, span: Span)
    requires AddsNothing(spans, merged) && (merged != [] ==> merged[|merged| - 1].begin <= span.begin)
    ensures AddsNothing(spans + [span], MergeOne(merged, span))
  {
    forall at: nat | Covers(MergeOne(merged, span), at) ensures Covers(spans + [span], at) {
      MergeOneAddsNothing(merged, span, at);
      CoversMore(spans, span, at);
    }
  }

  lemma JoinedWidth(front: seq<Span>, last: Span, span: Span)
    requires last.begin <= span.begin <= last.end && span.begin <= span.end
    ensures Sum(front + [Span(last.begin, Max(span.end, last.end))], Width) <= Sum(front + [last], Width) + Width(span)
  {
    SumSnoc(front, last, Width);
    SumSnoc(front, Span(last.begin, Max(span.end, last.end)), Width);
  }

  lemma MergedLastWidth(merged: seq<Span>, span: Span)
    requires merged != [] && merged[|merged| - 1].begin <= span.begin <= merged[|merged| - 1].end && span.begin <= span.end
    ensures Sum(MergeOne(merged, span), Width) <= Sum(merged, Width) + Width(span)
  {
    var front, last := merged[..|merged| - 1], merged[|merged| - 1];
    JoinedWidth(front, last, span);
    assert merged == front + [last];
  }

  lemma MergeOneWidth(merged: seq<Span>, span: Span)
    requires merged != [] ==> merged[|merged| - 1].begin <= span.begin
    requires span.begin <= span.end
    ensures Sum(MergeOne(merged, span), Width) <= Sum(merged, Width) + Width(span)
  {
    if merged != [] && span.begin <= merged[|merged| - 1].end {
      MergedLastWidth(merged, span);
    } else {
      SumSnoc(merged, span, Width);
    }
  }

  lemma MergeStep(spans: seq<Span>, merged: seq<Span>, span: Span)
    requires Merges(spans, merged) && span.begin <= span.end && (merged != [] ==> merged[|merged| - 1].begin <= span.begin)
    ensures Merges(spans + [span], MergeOne(merged, span))
  {
    MergeOneSeparated(merged, span);
    AllInsideStep(spans, merged, span);
    AddsNothingStep(spans, merged, span);
    MergeOneEnds(spans, merged, span);
    MergeOneWidth(merged, span);
    SumSnoc(spans, span, Width);
  }

  /** The last part begins no later than any span still ahead. */
  ghost predicate Behind(merged: seq<Span>, spans: seq<Span>, i: nat) {
    merged != [] ==> forall j | i <= j < |spans| :: merged[|merged| - 1].begin <= spans[j].begin
  }

  ghost predicate MergedUpTo(spans: seq<Span>, i: nat, merged: seq<Span>) {
    i <= |spans| && Merges(spans[..i], merged) && Behind(merged, spans, i)
  }

  lemma StaysBehind(merged: seq<Span>, spans: seq<Span>, i: nat)
    requires SortedBy(spans, SpanLeq) && i < |spans| && Behind(merged, spans, i)
    ensures Behind(MergeOne(merged, spans[i]), spans, i + 1)
  {
    var after := MergeOne(merged, spans[i]);
    assert after[|after| - 1].begin <= spans[i].begin;
    forall j | i + 1 <= j < |spans| ensures after[|after| - 1].begin <= spans[j].begin {
      assert SpanLeq(spans[i], spans[j]);
    }
  }

  lemma OneMoreMerged(spans: seq<Span>, front: seq<Span>, merged: seq<Span>, i: nat)
    requires i < |spans| && front == spans[..i] && Merges(front, merged) && spans[i].begin <= spans[i].end
    requires merged != [] ==> merged[|merged| - 1].begin <= spans[i].begin
    ensures Merges(spans[..i + 1], MergeOne(merged, spans[i]))
  {
    assert spans[..i + 1] == front + [spans[i]];
    MergeStep(front, merged, spans[i]);
  }

  lemma MergeNext(spans: seq<Span>, i: nat, merged: seq<Span>)
    requires SortedBy(spans, SpanLeq) && i < |spans| && MergedUpTo(spans, i, merged)
    requires spans[i].begin <= spans[i].end
    ensures MergedUpTo(spans, i + 1, MergeOne(merged, spans[i]))
  {
    StaysBehind(merged, spans, i);
    OneMoreMerged(spans, spans[..i], merged, i);
  }

  lemma NothingMerged(spans: seq<Span>)
    ensures MergedUpTo(spans, 0, [])
  {
    assert spans[..0] == [];
  }

  lemma AllMerged(spans: seq<Span>, merged: seq<Span>)
    requires MergedUpTo(spans, |spans|, merged)
    ensures Merges(spans, merged)
  {
    assert spans[..|spans|] == spans;
  }

  /** Merges sorted spans front to back. */
  method MergeSpans(spans: seq<Span>) returns (merged: seq<Span>)
    requires SortedBy(spans, SpanLeq) && forall i | 0 <= i < |spans| :: spans[i].begin <= spans[i].end
    ensures Merges(spans, merged)
  {
    merged := [];
    NothingMerged(spans);
    for i := 0 to |spans|
      invariant MergedUpTo(spans, i, merged)
    {
      MergeNext(spans, i, merged);
      merged := MergeOne(merged, spans[i]);
    }
    AllMerged(spans, merged);
  }

  // ---------------------------------------------------------------- trimming to whole lines

  ghost predicate NewlineIn(data: Bytes, from: nat, to: nat) {
    exists i | from <= i < to && i < |data| :: data[i] == NEWLINE
  }

  function AfterFirstNewline(chunk: Bytes): Bytes {
    if chunk == [] then [] else if chunk[0] == NEWLINE then chunk[1..] else AfterFirstNewline(chunk[1..])
  }

  function ThroughLastNewline(chunk: Bytes): Bytes {
    if chunk == [] then [] else if chunk[|chunk| - 1] == NEWLINE then chunk else ThroughLastNewline(chunk[..|chunk| - 1])
  }

  /** The bytes of a span without the partial lines at its cut edges. */
  function Trimmed(data: Bytes, span: Span): Bytes
    requires span.begin <= span.end <= |data|
  {
    var chunk := data[span.begin..span.end];
    var fromLine := if span.begin > 0 then AfterFirstNewline(chunk) else chunk;
    if span.end < |data| then ThroughLastNewline(fromLine) else fromLine
  }

  lemma {:induction false} FirstNewline(data: Bytes, from: nat, to: nat) returns (at: nat)
    requires from <= to <= |data|
    ensures from <= at <= to && AfterFirstNewline(data[from..to]) == data[at..to]
    ensures forall i | from <= i < at - 1 :: data[i] != NEWLINE
    ensures at == to || (at > from && data[at - 1] == NEWLINE)
    decreases |data| - from
  {
    if from == to {
      at := to;
    } else if data[from] == NEWLINE {
      assert data[from..to][1..] == data[from + 1..to];
      at := from + 1;
    } else {
      assert data[from..to][1..] == data[from + 1..to];
      at := FirstNewline(data, from + 1, to);
    }
  }

  lemma {:induction false} LastNewline(data: Bytes, from: nat, to: nat) returns (at: nat)
    requires from <= to <= |data|
    ensures from <= at <= to && ThroughLastNewline(data[from..to]) == data[from..at]
    ensures forall i | at <= i < to :: data[i] != NEWLINE
    ensures at == from || data[at - 1] == NEWLINE
    decreases |data|, to
  {
    if from == to || data[to - 1] == NEWLINE {
      at := to;
    } else {
      assert data[from..to][..to - from - 1] == data[from..to - 1];
      at := LastNewline(data, from, to - 1);
    }
  }

  /** What the cuts of a span must leave in place for the piece `at..end` of the file to survive its trimming. */
  ghost predicate Survives(data: Bytes, span: Span, at: nat, end: pos) {
    && (span.begin == 0 || NewlineIn(data, span.begin, at))
    && (span.end == |data| || NewlineIn(data, end - 1, span.end))
  }

  /** A trimmed span is a range of the file, and it holds a piece exactly when the span is uncut on the left or has
    * a newline before the piece, and is uncut on the right or has a newline at the end of the piece or after it. */
  lemma PieceSurvives(data: Bytes, span: Span, at: nat, end: pos) returns (from: nat, to: nat)
    requires span.begin <= at < end <= span.end <= |data|
    ensures span.begin <= from <= to <= span.end && Trimmed(data, span) == data[from..to]
    ensures from <= at && end <= to <==> Survives(data, span, at, end)
  {
    from := span.begin;
    if span.begin > 0 { from := FirstNewline(data, span.begin, span.end); }
    assert from <= at <==> span.begin == 0 || NewlineIn(data, span.begin, at);
    to := span.end;
    if span.end < |data| { to := LastNewline(data, from, span.end); }
  }

  // ---------------------------------------------------------------- the excerpt

  const SEPARATOR := "\n[... ENCOUNTER WINDOW / CONSOLE GAP ...]\n"
  const EDGE: nat := MAX_BYTES / 8
  const WINDOW: nat := MAX_BYTES - EDGE * 2 - |SEPARATOR| * 2

  function WindowStart(size: nat, last: Option<nat>): nat
    requires size > MAX_BYTES
  {
    var center := if last.Some? then last.value else size;
    Max(0, Min(size - WINDOW, center - WINDOW * 3 / 4))
  }

  /** The first bytes, the window around the last event, and the last bytes. */
  function Windows(size: nat, last: Option<nat>): (r: seq<Span>)
    requires size > MAX_BYTES
    ensures |r| == 3 && forall i | 0 <= i < 3 :: r[i].begin <= r[i].end <= size
  {
    var start := WindowStart(size, last);
    [Span(0, EDGE), Span(start, start + WINDOW), Span(size - EDGE, size)]
  }

  /** The windows in numbers: an eighth of a megabyte at either end, and between them what the limit leaves, three quarters
    * of it before the event, moved into the file where it would stick out. */
  lemma WindowNumbers(size: nat, last: Option<nat>)
    requires size > 1048576
    ensures var begin := if last.None? then size - 786348
                         else if last.value < 589761 then 0
                         else if last.value + 196587 > size then size - 786348 else last.value - 589761;
            Windows(size, last) == [Span(0, 131072), Span(begin, begin + 786348), Span(size - 131072, size)]
  {}

  lemma WindowsWidth(size: nat, last: Option<nat>)
    requires size > MAX_BYTES
    ensures Sum(Windows(size, last), Width) == MAX_BYTES - 2 * |SEPARATOR|
  {
    var w := Windows(size, last);
    var start := WindowStart(size, last);
    assert w[1..] == [Span(start, start + WINDOW), Span(size - EDGE, size)];
    assert w[1..][1..] == [Span(size - EDGE, size)];
    assert w[1..][1..][1..] == [];
    assert Sum(w[1..][1..], Width) == EDGE;
  }

  /** The last event line lies in the window, and unless the window begins the file it does not begin the window. */
  lemma WindowHoldsEvent(data: Bytes, at: nat)
    requires |data| > MAX_BYTES && at < |data|
    ensures var start := WindowStart(|data|, Some(at));
            start <= at && LineEnd(data, at, at) <= start + WINDOW && (start == 0 || start < at)
  {}

  lemma SpansOrdered()
    ensures Ordering(SpanLeq)
  {}

  ghost predicate SameSpans(spans: seq<Span>, listed: seq<Span>) {
    forall x :: x in spans <==> x in listed
  }

  lemma InsideAnyOrder(spans: seq<Span>, listed: seq<Span>, merged: seq<Span>)
    requires SameSpans(spans, listed) && AllInside(spans, merged)
    ensures AllInside(listed, merged)
  {
    forall i | 0 <= i < |listed| ensures Inside(listed[i], merged) {
      assert listed[i] in listed;
    }
  }

  lemma NothingAddedAnyOrder(spans: seq<Span>, listed: seq<Span>, merged: seq<Span>)
    requires SameSpans(spans, listed) && AddsNothing(spans, merged)
    ensures AddsNothing(listed, merged)
  {
    forall at: nat | Covers(merged, at) ensures Covers(listed, at) {
      var i :| 0 <= i < |spans| && spans[i].begin <= at < spans[i].end;
      assert spans[i] in listed;
    }
  }

  lemma EndsAnyOrder(spans: seq<Span>, listed: seq<Span>, merged: seq<Span>)
    requires SameSpans(spans, listed) && EndsLike(merged, spans)
    ensures EndsLike(merged, listed)
  {
    forall i | 0 <= i < |merged| ensures IsEnd(merged[i].end, listed) {
      assert IsEnd(merged[i].end, spans);
      var j :| 0 <= j < |spans| && merged[i].end == spans[j].end;
      assert spans[j] in listed;
      var k :| 0 <= k < |listed| && listed[k] == spans[j];
    }
  }

  /** Merging does not depend on the order in which the spans are listed. */
  lemma MergesAnyOrder(spans: seq<Span>, listed: seq<Span>, merged: seq<Span>)
    requires multiset(spans) == multiset(listed) && |spans| == |listed| && SameSpans(spans, listed) && Merges(spans, merged)
    ensures Merges(listed, merged)
  {
    SumPermutation(spans, listed, Width);
    InsideAnyOrder(spans, listed, merged);
    NothingAddedAnyOrder(spans, listed, merged);
    EndsAnyOrder(spans, listed, merged);
  }

  predicate InFile(spans: seq<Span>, size: nat) {
    forall i | 0 <= i < |spans| :: spans[i].begin <= spans[i].end <= size
  }

  function TrimAll(data: Bytes, spans: seq<Span>): (r: seq<Bytes>)
    requires InFile(spans, |data|)
    ensures |r| == |spans| && forall i | 0 <= i < |spans| :: r[i] == Trimmed(data, spans[i])
  {
    seq(|spans|, i requires 0 <= i < |spans| => Trimmed(data, spans[i]))
  }

  function Join(separator: Bytes, chunks: seq<Bytes>): Bytes {
    if chunks == [] then []
    else if |chunks| == 1 then chunks[0]
    else chunks[0] + separator + Join(separator, chunks[1..])
  }

  lemma {:induction false} JoinLength(separator: Bytes, chunks: seq<Bytes>)
    ensures |Join(separator, chunks)| == SizeOf(chunks) + (if chunks == [] then 0 else (|chunks| - 1) * |separator|)
  {
    if |chunks| == 1 {
      assert chunks[1..] == [];
      assert Concat(chunks) == chunks[0] + Concat(chunks[1..]);
    } else if chunks != [] {
      JoinLength(separator, chunks[1..]);
      assert (|chunks| - 1) * |separator| == |separator| + (|chunks[1..]| - 1) * |separator|;
    }
  }

  /** At most three chunks, with a separator between any two. */
  lemma JoinMeans(separator: Bytes, chunks: seq<Bytes>)
    requires |chunks| <= 3
    ensures Join(separator, chunks) ==
              match |chunks|
              case 0 => []
              case 1 => chunks[0]
              case 2 => chunks[0] + separator + chunks[1]
              case _ => chunks[0] + separator + chunks[1] + separator + chunks[2]
  {
    if |chunks| >= 2 {
      var rest := chunks[1..];
      assert Join(separator, chunks) == chunks[0] + separator + Join(separator, rest);
      if |rest| == 2 {
        assert Join(separator, rest) == rest[0] + separator + Join(separator, rest[1..]);
        assert Join(separator, rest[1..]) == chunks[2];
      }
    }
  }

  lemma ShiftedSlice(front: Bytes, tail: Bytes, at: nat, end: nat)
    requires at <= end <= |tail|
    ensures (front + tail)[|front| + at..|front| + end] == tail[at..end]
  {}

  /** Every chunk is a stretch of the joined text. */
  lemma {:induction false} JoinHolds(separator: Bytes, chunks: seq<Bytes>, i: nat) returns (at: nat)
    requires i < |chunks|
    ensures at + |chunks[i]| <= |Join(separator, chunks)|
    ensures Join(separator, chunks)[at..at + |chunks[i]|] == chunks[i]
  {
    if i == 0 {
      at := 0;
      if |chunks| > 1 {
        var text := Join(separator, chunks);
        assert text == chunks[0] + (separator + Join(separator, chunks[1..]));
      }
    } else {
      var rest := JoinHolds(separator, chunks[1..], i - 1);
      var tail := Join(separator, chunks[1..]);
      assert chunks[1..][i - 1] == chunks[i];
      at := |chunks[0] + separator| + rest;
      ShiftedSlice(chunks[0] + separator, tail, rest, rest + |chunks[i]|);
      assert Join(separator, chunks) == (chunks[0] + separator) + tail;
    }
  }

  lemma TrimmedShorter(data: Bytes, span: Span)
    requires span.begin <= span.end <= |data|
    ensures |Trimmed(data, span)| <= Width(span)
  {
    var from, to := span.begin, span.end;
    if span.begin > 0 { from := FirstNewline(data, span.begin, span.end); }
    if span.end < |data| { to := LastNewline(data, from, span.end); }
  }

  lemma {:induction false} TrimmedSize(data: Bytes, spans: seq<Span>)
    requires InFile(spans, |data|)
    ensures SizeOf(TrimAll(data, spans)) <= Sum(spans, Width)
  {
    if spans != [] {
      TrimmedSize(data, spans[1..]);
      assert TrimAll(data, spans)[1..] == TrimAll(data, spans[1..]);
      TrimmedShorter(data, spans[0]);
    }
  }

  lemma MergedInFile(size: nat, last: Option<nat>, merged: seq<Span>)
    requires size > MAX_BYTES && Merges(Windows(size, last), merged)
    ensures InFile(merged, size)
  {}

  lemma SortedWindows(size: nat, last: Option<nat>, spans: seq<Span>)
    requires size > MAX_BYTES && spans == SortBy(Windows(size, last), SpanLeq)
    ensures SortedBy(spans, SpanLeq) && forall i | 0 <= i < |spans| :: spans[i].begin <= spans[i].end
    ensures multiset(spans) == multiset(Windows(size, last)) && |spans| == 3 && SameSpans(spans, Windows(size, last))
  {
    var windows := Windows(size, last);
    SpansOrdered();
    SortCorrect(windows, SpanLeq);
    SortKeeps(windows, SpanLeq);
    forall i | 0 <= i < |spans| ensures spans[i].begin <= spans[i].end {
      assert spans[i] in spans;
    }
  }

  /** The merged windows of a file, in order and within it. */
  method MergedWindows(size: nat, last: Option<nat>) returns (merged: seq<Span>)
    requires size > MAX_BYTES
    ensures Merges(Windows(size, last), merged) && InFile(merged, size)
  {
    var windows := Windows(size, last);
    var spans := SortBy(windows, SpanLeq);
    SortedWindows(size, last, spans);
    merged := MergeSpans(spans);
    MergesAnyOrder(spans, windows, merged);
    MergedInFile(size, last, merged);
  }

  lemma FewGaps(parts: nat, width: nat)
    requires parts <= 3
    ensures (parts - 1) * width <= 2 * width
  {}

  lemma ExcerptSize(data: Bytes, merged: seq<Span>)
    requires |merged| <= 3 && InFile(merged, |data|) && Sum(merged, Width) <= MAX_BYTES - 2 * |SEPARATOR| < |data|
    ensures |Join(Ascii(SEPARATOR), TrimAll(data, merged))| <= MAX_BYTES
    ensures SizeOf(TrimAll(data, merged)) <= |data|
  {
    TrimmedSize(data, merged);
    JoinLength(Ascii(SEPARATOR), TrimAll(data, merged));
    FewGaps(|merged|, |SEPARATOR|);
  }

  lemma ExcerptFits(data: Bytes, last: Option<nat>, merged: seq<Span>)
    requires |data| > MAX_BYTES && Merges(Windows(|data|, last), merged) && InFile(merged, |data|)
    ensures |Join(Ascii(SEPARATOR), TrimAll(data, merged))| <= MAX_BYTES
    ensures SizeOf(TrimAll(data, merged)) <= |data|
  {
    WindowsWidth(|data|, last);
    ExcerptSize(data, merged);
  }

  /** Whole below the limit; above it the trimmed parts of the merged windows, joined, never over the limit. */
  method EncounterConsole(data: Bytes, matches: Bytes -> bool)
    returns (payload: Bytes, retained: nat, ghost last: Option<nat>, ghost merged: seq<Span>)
    ensures |data| <= 1048576 ==> payload == data && retained == |data|
    ensures |payload| <= 1048576 && retained <= |data|
    ensures |data| > 1048576 ==>
              && LastMatch(data, matches, |data|, last)
              && Merges(Windows(|data|, last), merged) && InFile(merged, |data|)
              && payload == Join(Ascii(SEPARATOR), TrimAll(data, merged))
              && retained == SizeOf(TrimAll(data, merged))
  {
    last, merged := None, [];
    if |data| <= MAX_BYTES {
      return data, |data|, last, merged;
    }
    var found := FindLastEvent(data, matches);
    var parts := MergedWindows(|data|, found);
    var chunks := TrimAll(data, parts);
    retained := SizeOf(chunks);
    payload := Join(Ascii(SEPARATOR), chunks);
    ExcerptFits(data, found, parts);
    last, merged := found, parts;
  }

  /** A line that is not one piece of a longer line. */
  ghost predicate WholeLine(data: Bytes, at: nat)
    requires at < |data|
  {
    && (at == 0 || data[at - 1] == NEWLINE)
    && (LineEnd(data, at, at) == |data| || data[LineEnd(data, at, at) - 1] == NEWLINE)
  }

  /** The part of the excerpt around the last event. */
  lemma EventPart(data: Bytes, at: nat, merged: seq<Span>) returns (i: nat)
    requires |data| > MAX_BYTES && at < |data| && Merges(Windows(|data|, Some(at)), merged)
    ensures i < |merged| && merged[i].begin <= at && LineEnd(data, at, at) <= merged[i].end
    ensures merged[i].begin == 0 || merged[i].begin < at
  {
    var window := Windows(|data|, Some(at))[1];
    WindowHoldsEvent(data, at);
    assert Inside(window, merged);
    i :| 0 <= i < |merged| && merged[i].begin <= window.begin && window.end <= merged[i].end;
  }

  lemma WholeLineSurvives(data: Bytes, span: Span, at: nat)
    requires at < |data| && WholeLine(data, at)
    requires span.begin <= at && LineEnd(data, at, at) <= span.end <= |data| && (span.begin == 0 || span.begin < at)
    ensures Survives(data, span, at, LineEnd(data, at, at))
  {
    var end := LineEnd(data, at, at);
    if span.begin > 0 {
      assert NewlineIn(data, span.begin, at) by { assert data[at - 1] == NEWLINE; }
    }
    if span.end < |data| {
      assert NewlineIn(data, end - 1, span.end) by { assert data[end - 1] == NEWLINE; }
    }
  }

  lemma PieceOfPiece(text: Bytes, data: Bytes, chunk: nat, from: nat, to: nat, at: nat, end: nat)
    requires from <= at <= end <= to <= |data| && chunk + (to - from) <= |text|
    requires text[chunk..chunk + (to - from)] == data[from..to]
    ensures Occurs(text, data[at..end], chunk + (at - from))
  {
    var place := chunk + (at - from);
    forall k: nat | k < end - at ensures text[place..place + (end - at)][k] == data[at..end][k] {
      assert text[chunk..chunk + (to - from)][at - from + k] == data[from..to][at - from + k];
    }
    assert text[place..place + (end - at)] == data[at..end];
  }

  lemma PieceInJoined(data: Bytes, chunks: seq<Bytes>, i: nat, from: nat, to: nat, at: nat, end: nat) returns (place: nat)
    requires i < |chunks| && from <= at <= end <= to <= |data| && chunks[i] == data[from..to]
    ensures Occurs(Join(Ascii(SEPARATOR), chunks), data[at..end], place)
  {
    var chunk := JoinHolds(Ascii(SEPARATOR), chunks, i);
    place := chunk + (at - from);
    PieceOfPiece(Join(Ascii(SEPARATOR), chunks), data, chunk, from, to, at, end);
  }

  lemma PieceInExcerpt(data: Bytes, merged: seq<Span>, i: nat, at: nat, end: pos) returns (place: nat)
    requires InFile(merged, |data|) && i < |merged| && merged[i].begin <= at < end <= merged[i].end
    requires Survives(data, merged[i], at, end)
    ensures Occurs(Join(Ascii(SEPARATOR), TrimAll(data, merged)), data[at..end], place)
  {
    var from, to := PieceSurvives(data, merged[i], at, end);
    place := PieceInJoined(data, TrimAll(data, merged), i, from, to, at, end);
  }

  /** The last event is in the excerpt whenever it is a whole line. */
  lemma LastEventIsKept(data: Bytes, matches: Bytes -> bool, at: nat, merged: seq<Span>) returns (place: nat)
    requires |data| > MAX_BYTES && LastMatch(data, matches, |data|, Some(at)) && WholeLine(data, at)
    requires Merges(Windows(|data|, Some(at)), merged) && InFile(merged, |data|)
    ensures Occurs(Join(Ascii(SEPARATOR), TrimAll(data, merged)), LineAt(data, at), place)
  {
    var i := EventPart(data, at, merged);
    WholeLineSurvives(data, merged[i], at);
    place := PieceInExcerpt(data, merged, i, at, LineEnd(data, at, at));
  }

  lemma {:induction false} NoNewlineNoBytes(chunk: Bytes)
    requires forall i | 0 <= i < |chunk| :: chunk[i] != NEWLINE
    ensures AfterFirstNewline(chunk) == [] && ThroughLastNewline(chunk) == []
  {
    if chunk != [] {
      NoNewlineNoBytes(chunk[1..]);
      NoNewlineNoBytes(chunk[..|chunk| - 1]);
    }
  }

  lemma PartIsCut(size: nat, last: Option<nat>, merged: seq<Span>, i: nat)
    requires size > MAX_BYTES && Merges(Windows(size, last), merged) && i < |merged|
    ensures merged[i].begin > 0 || merged[i].end < size
  {
    WindowsWidth(size, last);
    forall x | x in merged ensures 0 <= Width(x) {}
    SumNonNegative(merged, Width);
    assert Width(merged[i]) <= Sum(merged, Width);
  }

  lemma CutToNothing(data: Bytes, span: Span)
    requires !NewlineIn(data, 0, |data|) && span.begin <= span.end <= |data| && (span.begin > 0 || span.end < |data|)
    ensures Trimmed(data, span) == []
  {
    NoNewlineNoBytes(data[span.begin..span.end]);
    NoNewlineNoBytes([]);
  }

  /** An oversized file without line breaks is trimmed to nothing, whatever events it holds. */
  lemma EndlessLineIsLost(data: Bytes, last: Option<nat>, merged: seq<Span>, i: nat)
    requires |data| > MAX_BYTES && !NewlineIn(data, 0, |data|)
    requires Merges(Windows(|data|, last), merged) && InFile(merged, |data|) && i < |merged|
    ensures Trimmed(data, merged[i]) == []
  {
    PartIsCut(|data|, last, merged, i);
    CutToNothing(data, merged[i]);
  }
}
