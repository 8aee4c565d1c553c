/** Moved blocks between the deletions and insertions of an edit script (phase 3 of a checkpoint). */
module Moves {
  import opened Prelude
  import opened Text
  import opened Ranges
  import opened EditScript
  import opened Transform
  import M = MoveDetection

  const MOVE_DETECTION_MIN_FILE_BYTES := 64 * 1024
  const MOVE_DETECTION_MAX_OPS := 256

  function TotalLength(segments: seq<Segment>): nat {
    if segments == [] then 0 else
    var s := segments[|segments| - 1];
    TotalLength(segments[..|segments| - 1]) + (if s.start <= s.end then s.end - s.start else 0)
  }

  /** `should_skip_move_detection`. */
  predicate ShouldSkipMoveDetection(threshold: nat, oldLen: nat, newLen: nat, deletions: seq<Segment>,
                                    insertions: seq<Segment>) {
    var maxFileBytes := Max(oldLen, newLen);
    var operationCount := |deletions| + |insertions|;
    || threshold == 0
    || deletions == [] || insertions == []
    || (!(maxFileBytes < MOVE_DETECTION_MIN_FILE_BYTES && operationCount <= MOVE_DETECTION_MAX_OPS)
        && (operationCount > MOVE_DETECTION_MAX_OPS
            || (maxFileBytes >= MOVE_DETECTION_MIN_FILE_BYTES
                && TotalLength(deletions) + TotalLength(insertions) >= maxFileBytes * 3 / 2)))
  }

  /** No edits on one side, more than 256 edits, or a text of 64 KiB of which three halves are edited. */
  lemma {:induction false} SkipIff(threshold: nat, oldLen: nat, newLen: nat, deletions: seq<Segment>,
                                   insertions: seq<Segment>)
    ensures ShouldSkipMoveDetection(threshold, oldLen, newLen, deletions, insertions)
       <==> || threshold == 0 || |deletions| == 0 || |insertions| == 0 || |deletions| + |insertions| > 256
            || ((oldLen >= 65536 || newLen >= 65536)
                && 2 * (TotalLength(deletions) + TotalLength(insertions)) + 1 >= 3 * oldLen
                && 2 * (TotalLength(deletions) + TotalLength(insertions)) + 1 >= 3 * newLen)
  {
    hide TotalLength;
  }

  lemma {:induction false} TotalLengthPush(segments: seq<Segment>, s: Segment)
    requires s.start <= s.end
    ensures TotalLength([]) == 0 && TotalLength(segments + [s]) == TotalLength(segments) + (s.end - s.start)
  {
    assert (segments + [s])[..|segments|] == segments;
  }

  // ----- Which lines an edit touches -----

  predicate Numbered(lines: seq<LineMetadata>) {
    forall k | 0 <= k < |lines| :: lines[k].number == k + 1
  }

  predicate Touches(l: LineMetadata, s: Segment) {
    l.start < s.end && l.end > s.start
  }

  /** The record of a line that touches segment `r.editIdx`. */
  predicate IsTouching(lines: seq<LineMetadata>, segments: seq<Segment>, r: M.LineRecord) {
    && r.editIdx < |segments| && 1 <= r.number <= |lines|
    && Touches(lines[r.number - 1], segments[r.editIdx])
    && r == M.LineRecord(lines[r.number - 1].text, "", r.number, r.editIdx)
  }

  /** The records of those of the first `k` lines that touch segment `idx`. */
  function TouchedUpTo(lines: seq<LineMetadata>, segments: seq<Segment>, idx: nat, k: nat): seq<M.LineRecord>
    requires idx < |segments| && k <= |lines|
  {
    if k == 0 then [] else
    var l := lines[k - 1];
    TouchedUpTo(lines, segments, idx, k - 1)
    + if Touches(l, segments[idx]) then [M.LineRecord(l.text, "", l.number, idx)] else []
  }

  /** The records of the lines that touch one of the first `n` segments: by segment, and in line order. */
  function TouchedBy(lines: seq<LineMetadata>, segments: seq<Segment>, n: nat): seq<M.LineRecord>
    requires n <= |segments|
  {
    if n == 0 then [] else TouchedBy(lines, segments, n - 1) + TouchedUpTo(lines, segments, n - 1, |lines|)
  }

  function Touched(lines: seq<LineMetadata>, segments: seq<Segment>): seq<M.LineRecord> {
    TouchedBy(lines, segments, |segments|)
  }

  /** By segment, then by line. */
  predicate Before(a: M.LineRecord, b: M.LineRecord) {
    a.editIdx < b.editIdx || (a.editIdx == b.editIdx && a.number < b.number)
  }

  ghost predicate InOrder(records: seq<M.LineRecord>) {
    forall i, j | 0 <= i < j < |records| :: Before(records[i], records[j])
  }

  lemma {:induction false} TouchedUpToMeaning(lines: seq<LineMetadata>, segments: seq<Segment>, idx: nat, k: nat)
    requires Numbered(lines) && idx < |segments| && k <= |lines|
    ensures InOrder(TouchedUpTo(lines, segments, idx, k))
    ensures forall r :: r in TouchedUpTo(lines, segments, idx, k)
                   <==> IsTouching(lines, segments, r) && r.editIdx == idx && r.number <= k
  {
    if k > 0 {
      TouchedUpToMeaning(lines, segments, idx, k - 1);
      hide Touches;
    }
  }

  lemma {:induction false} TouchedHere(lines: seq<LineMetadata>, segments: seq<Segment>, idx: nat)
    requires Numbered(lines) && idx < |segments|
    ensures InOrder(TouchedUpTo(lines, segments, idx, |lines|))
    ensures forall r :: r in TouchedUpTo(lines, segments, idx, |lines|)
                   <==> IsTouching(lines, segments, r) && r.editIdx == idx
  {
    TouchedUpToMeaning(lines, segments, idx, |lines|);
    hide Touches, TouchedUpTo, InOrder;
  }

  /** In order, and exactly the records of the lines that touch one of the first `n` segments. */
  ghost predicate TouchesFirst(lines: seq<LineMetadata>, segments: seq<Segment>, n: nat, records: seq<M.LineRecord>) {
    InOrder(records) && forall r :: r in records <==> IsTouching(lines, segments, r) && r.editIdx < n
  }

  lemma {:induction false} TouchedByMeaning(lines: seq<LineMetadata>, segments: seq<Segment>, n: nat)
    requires Numbered(lines) && n <= |segments|
    ensures TouchesFirst(lines, segments, n, TouchedBy(lines, segments, n))
    decreases n
  {
    hide *;
    TouchedNothing(lines, segments);
    if n > 0 {
      TouchedByMeaning(lines, segments, n - 1);
      TouchedStep(lines, segments, n - 1);
    }
  }

  lemma {:induction false} TouchedStep(lines: seq<LineMetadata>, segments: seq<Segment>, n: nat)
    requires Numbered(lines) && n < |segments|
    requires TouchesFirst(lines, segments, n, TouchedBy(lines, segments, n))
    ensures TouchesFirst(lines, segments, n + 1, TouchedBy(lines, segments, n + 1))
  {
    TouchedByNext(lines, segments, n + 1);
    hide *;
    TouchedHere(lines, segments, n);
    TouchedJoin(lines, segments, n, TouchedBy(lines, segments, n), TouchedUpTo(lines, segments, n, |lines|));
  }

  lemma {:induction false} TouchedJoin(lines: seq<LineMetadata>, segments: seq<Segment>, n: nat,
                                       x: seq<M.LineRecord>, y: seq<M.LineRecord>)
    requires TouchesFirst(lines, segments, n, x)
    requires InOrder(y) && forall r :: r in y <==> IsTouching(lines, segments, r) && r.editIdx == n
    ensures TouchesFirst(lines, segments, n + 1, x + y)
  {
    hide InOrder, IsTouching;
    OrderedConcat(x, y);
  }

  lemma {:induction false} TouchedNothing(lines: seq<LineMetadata>, segments: seq<Segment>)
    ensures TouchesFirst(lines, segments, 0, TouchedBy(lines, segments, 0))
  {
  }

  lemma {:induction false} TouchedByNext(lines: seq<LineMetadata>, segments: seq<Segment>, n: nat)
    requires n <= |segments|
    ensures TouchedBy(lines, segments, n)
         == if n == 0 then []
            else TouchedBy(lines, segments, n - 1) + TouchedUpTo(lines, segments, n - 1, |lines|)
  {
    hide TouchedUpTo;
  }

  lemma {:induction false} OrderedConcat(x: seq<M.LineRecord>, y: seq<M.LineRecord>)
    requires InOrder(x) && InOrder(y) && forall r, s | r in x && s in y :: r.editIdx < s.editIdx
    ensures InOrder(x + y)
    ensures forall r :: r in x + y <==> r in x || r in y
  {
    var z := x + y;
    forall i, j | 0 <= i < j < |z| ensures Before(z[i], z[j]) {
      if i < |x| && |x| <= j {
        assert x[i] in x && y[j - |x|] in y;
      }
    }
  }

  /**
   * Exactly the lines that touch a segment, once for each segment, ordered by segment and then by line: this
   * determines the list.
   */
  lemma {:induction false} TouchedMeaning(lines: seq<LineMetadata>, segments: seq<Segment>)
    requires Numbered(lines)
    ensures InOrder(Touched(lines, segments))
    ensures forall r :: r in Touched(lines, segments) <==> IsTouching(lines, segments, r)
  {
    TouchedByMeaning(lines, segments, |segments|);
  }

  /** An ordered list is determined by its members. */
  lemma {:induction false} OrderedUnique(x: seq<M.LineRecord>, y: seq<M.LineRecord>)
    requires InOrder(x) && InOrder(y) && forall r :: r in x <==> r in y
    ensures x == y
  {
    FirstMember(x);
    FirstMember(y);
    if x != [] && y != [] {
      SameFirst(x, y);
      OrderedTail(x);
      OrderedTail(y);
      OrderedUnique(x[1..], y[1..]);
      assert x == [x[0]] + x[1..] && y == [y[0]] + y[1..];
    }
  }

  lemma {:induction false} FirstMember(x: seq<M.LineRecord>)
    ensures x == [] || x[0] in x
  {
  }

  lemma {:induction false} FirstIsBefore(x: seq<M.LineRecord>, i: nat)
    requires InOrder(x) && i < |x|
    ensures i == 0 || Before(x[0], x[i])
  {
  }

  lemma {:induction false} SameFirst(x: seq<M.LineRecord>, y: seq<M.LineRecord>)
    requires InOrder(x) && InOrder(y) && x != [] && y != [] && forall r :: r in x <==> r in y
    ensures x[0] == y[0]
  {
    assert x[0] in y && y[0] in x;
    var i :| 0 <= i < |y| && y[i] == x[0];
    var j :| 0 <= j < |x| && x[j] == y[0];
    FirstIsBefore(y, i);
    FirstIsBefore(x, j);
  }

  lemma {:induction false} OrderedTail(x: seq<M.LineRecord>)
    requires InOrder(x) && x != []
    ensures InOrder(x[1..]) && forall r :: r in x[1..] <==> r in x && r != x[0]
  {
    forall i, j | 0 <= i < j < |x[1..]| ensures Before(x[1..][i], x[1..][j]) {
      assert Before(x[i + 1], x[j + 1]);
    }
    forall i | 0 <= i < |x[1..]| ensures x[1..][i] != x[0] {
      assert Before(x[0], x[i + 1]);
    }
    assert x == [x[0]] + x[1..];
  }

  lemma {:induction false} TouchedDetermined(lines: seq<LineMetadata>, segments: seq<Segment>,
                                             records: seq<M.LineRecord>)
    requires Numbered(lines) && InOrder(records)
    requires forall r :: r in records <==> IsTouching(lines, segments, r)
    ensures records == Touched(lines, segments)
  {
    TouchedMeaning(lines, segments);
    hide Touched, InOrder, IsTouching, Numbered;
    OrderedUnique(records, Touched(lines, segments));
  }

  /** The lines that touch some segment, with the segment's number. */
  method LinesTouching(lines: seq<LineMetadata>, segments: seq<Segment>) returns (records: seq<M.LineRecord>)
    ensures records == Touched(lines, segments)
  {
    records := [];
    for idx := 0 to |segments|
      invariant records == TouchedBy(lines, segments, idx)
    {
      var segment := segments[idx];
      for k := 0 to |lines|
        invariant records == TouchedBy(lines, segments, idx) + TouchedUpTo(lines, segments, idx, k)
      {
        if lines[k].start < segment.end && lines[k].end > segment.start {
          records := records + [M.LineRecord(lines[k].text, "", lines[k].number, idx)];
        }
      }
    }
  }

  // ----- From lines to byte ranges -----

  /** The part of the line inside the segment. */
  function Clip(l: LineMetadata, s: Segment): Range {
    (Max(l.start, s.start), Min(l.end, s.end))
  }

  /** Each line has a part inside the segment, and the first part starts before the last one ends. */
  predicate Spans(records: seq<M.LineRecord>, lines: seq<LineMetadata>, s: Segment) {
    && records != []
    && (forall k | 0 <= k < |records| ::
          1 <= records[k].number <= |lines|
          && Clip(lines[records[k].number - 1], s).0 < Clip(lines[records[k].number - 1], s).1)
    && Clip(lines[records[0].number - 1], s).0 < Clip(lines[records[|records| - 1].number - 1], s).1
  }

  /** From the start of the first line to the end of the last, relative to the segment. */
  function SpanFrom(records: seq<M.LineRecord>, lines: seq<LineMetadata>, s: Segment): Range
    requires Spans(records, lines, s)
  {
    (Clip(lines[records[0].number - 1], s).0 - s.start, Clip(lines[records[|records| - 1].number - 1], s).1 - s.start)
  }

  function LineMapOf(lines: seq<LineMetadata>): map<nat, LineMetadata>
    requires forall k | 0 <= k < |lines| :: lines[k].number == k + 1
  {
    map n: nat | 1 <= n <= |lines| :: LineNumbered(lines, n)
  }

  function LineNumbered(lines: seq<LineMetadata>, n: nat): LineMetadata
    requires 1 <= n <= |lines|
  {
    lines[n - 1]
  }

  /** The part of `segment` that the lines span, relative to its start. */
  method SpanOfLines(records: seq<M.LineRecord>, lineMap: map<nat, LineMetadata>, segment: Segment,
                     ghost lines: seq<LineMetadata>)
    returns (span: Option<Range>)
    requires Numbered(lines) && lineMap == LineMapOf(lines)
    ensures span == if Spans(records, lines, segment) then Some(SpanFrom(records, lines, segment)) else None
  {
    var first: Option<nat> := None;
    var last: nat := 0;
    for k := 0 to |records|
      invariant forall i | 0 <= i < k ::
                  1 <= records[i].number <= |lines|
                  && Clip(lines[records[i].number - 1], segment).0 < Clip(lines[records[i].number - 1], segment).1
      invariant k == 0 ==> first.None?
      invariant k > 0 ==> first == Some(Clip(lines[records[0].number - 1], segment).0 - segment.start)
      invariant k > 0 ==> last == Clip(lines[records[k - 1].number - 1], segment).1 - segment.start
    {
      if records[k].number !in lineMap {
        return None;
      }
      var meta := lineMap[records[k].number];
      var start, end := Max(meta.start, segment.start), Min(meta.end, segment.end);
      if start >= end {
        return None;
      }
      if first.None? {
        first := Some(start - segment.start);
      }
      last := end - segment.start;
    }
    if first.Some? && first.value < last {
      return Some((first.value, last));
    }
    span := None;
  }

  /** A move's byte ranges lie inside the deletion and the insertion it names. */
  ghost predicate MappingFits(m: MoveMapping, deletions: seq<Segment>, insertions: seq<Segment>) {
    && m.deletionIdx < |deletions| && m.insertionIdx < |insertions|
    && m.sourceRange.0 < m.sourceRange.1 <= deletions[m.deletionIdx].end - deletions[m.deletionIdx].start
    && m.targetRange.0 < m.targetRange.1 <= insertions[m.insertionIdx].end - insertions[m.insertionIdx].start
  }

  predicate SameEdit(records: seq<M.LineRecord>) {
    records != [] && forall k | 0 <= k < |records| :: records[k].editIdx == records[0].editIdx
  }

  /** The byte ranges of a line mapping, if it stays inside one deletion and one insertion. */
  function ByteMove(m: M.LineMapping, oldLines: seq<LineMetadata>, newLines: seq<LineMetadata>,
                    deletions: seq<Segment>, insertions: seq<Segment>): Option<MoveMapping>
  {
    if |m.deleted| == |m.inserted| && SameEdit(m.deleted) && SameEdit(m.inserted)
       && m.deleted[0].editIdx < |deletions| && m.inserted[0].editIdx < |insertions|
       && Spans(m.deleted, oldLines, deletions[m.deleted[0].editIdx])
       && Spans(m.inserted, newLines, insertions[m.inserted[0].editIdx]) then
      Some(MoveMapping(m.deleted[0].editIdx, m.inserted[0].editIdx,
                       SpanFrom(m.deleted, oldLines, deletions[m.deleted[0].editIdx]),
                       SpanFrom(m.inserted, newLines, insertions[m.inserted[0].editIdx])))
    else None
  }

  method ToByteRanges(m: M.LineMapping, oldLineMap: map<nat, LineMetadata>, newLineMap: map<nat, LineMetadata>,
                      deletions: seq<Segment>, insertions: seq<Segment>,
                      ghost oldLines: seq<LineMetadata>, ghost newLines: seq<LineMetadata>)
    returns (r: Option<MoveMapping>)
    requires Numbered(oldLines) && Numbered(newLines)
    requires oldLineMap == LineMapOf(oldLines) && newLineMap == LineMapOf(newLines)
    ensures r == ByteMove(m, oldLines, newLines, deletions, insertions)
  {
    hide Numbered, LineMapOf, Spans, SpanFrom;
    if m.deleted == [] || m.inserted == [] || |m.deleted| != |m.inserted| {
      return None;
    }
    var deletionIdx, insertionIdx := m.deleted[0].editIdx, m.inserted[0].editIdx;
    if exists k | 0 <= k < |m.deleted| :: m.deleted[k].editIdx != deletionIdx {
      return None;
    }
    if exists k | 0 <= k < |m.inserted| :: m.inserted[k].editIdx != insertionIdx {
      return None;
    }
    if deletionIdx >= |deletions| || insertionIdx >= |insertions| {
      return None;
    }
    var source := SpanOfLines(m.deleted, oldLineMap, deletions[deletionIdx], oldLines);
    if source.None? {
      return None;
    }
    var target := SpanOfLines(m.inserted, newLineMap, insertions[insertionIdx], newLines);
    if target.None? {
      return None;
    }
    r := Some(MoveMapping(deletionIdx, insertionIdx, source.value, target.value));
  }

  // ----- What a move is -----

  /** `n` old lines from line `a` and `n` new lines from line `b`, none blank, equal one by one after trimming. */
  ghost predicate SameBlock(cc: CharClass, oldLines: seq<LineMetadata>, newLines: seq<LineMetadata>,
                            a: nat, b: nat, n: nat)
  {
    && 1 <= a && a + n <= |oldLines| + 1 && 1 <= b && b + n <= |newLines| + 1
    && forall i: nat, j: nat | a <= i < a + n && j - i == b - a :: SameLine(cc, oldLines, newLines, i, j)
  }

  predicate SameLine(cc: CharClass, oldLines: seq<LineMetadata>, newLines: seq<LineMetadata>, a: nat, b: nat) {
    && 1 <= a <= |oldLines| && 1 <= b <= |newLines|
    && Trim(cc, oldLines[a - 1].text) == Trim(cc, newLines[b - 1].text) != []
  }

  /** The ranges run from the first to the last line of the two blocks, as far as the two edits reach. */
  ghost predicate BlockMove(cc: CharClass, oldLines: seq<LineMetadata>, newLines: seq<LineMetadata>, threshold: nat,
                            deletions: seq<Segment>, insertions: seq<Segment>, m: MoveMapping)
  {
    && m.deletionIdx < |deletions| && m.insertionIdx < |insertions|
    && exists a: nat, b: nat, n: nat ::
         && n >= threshold && n > 0 && SameBlock(cc, oldLines, newLines, a, b, n)
         && IsSpan(oldLines, a, n, deletions[m.deletionIdx], m.sourceRange)
         && IsSpan(newLines, b, n, insertions[m.insertionIdx], m.targetRange)
  }

  predicate IsSpan(lines: seq<LineMetadata>, a: nat, n: nat, s: Segment, r: Range) {
    && 1 <= a <= |lines| && 1 <= n && a + n <= |lines| + 1
    && s.start + r.0 == Clip(lines[a - 1], s).0 && s.start + r.1 == Clip(lines[a + n - 2], s).1
  }

  /** A line of the text in the form that is compared. */
  predicate RecordOf(cc: CharClass, lines: seq<LineMetadata>, r: M.LineRecord) {
    1 <= r.number <= |lines| && r.normalized == Trim(cc, lines[r.number - 1].text)
  }

  ghost predicate LineMove(cc: CharClass, oldLines: seq<LineMetadata>, newLines: seq<LineMetadata>, threshold: nat,
                           m: M.LineMapping)
  {
    && M.IsMove(m, threshold)
    && (forall k | 0 <= k < |m.deleted| :: RecordOf(cc, oldLines, m.deleted[k]))
    && (forall k | 0 <= k < |m.inserted| :: RecordOf(cc, newLines, m.inserted[k]))
  }

  lemma {:induction false} PairedRecords(cc: CharClass, oldLines: seq<LineMetadata>, newLines: seq<LineMetadata>,
                                         threshold: nat, m: M.LineMapping, k: nat)
    requires LineMove(cc, oldLines, newLines, threshold, m) && k < |m.deleted|
    ensures |m.inserted| == |m.deleted|
    ensures SameLine(cc, oldLines, newLines, m.deleted[k].number, m.inserted[k].number)
  {
  }

  lemma {:induction false} BlockOfMove(cc: CharClass, oldLines: seq<LineMetadata>, newLines: seq<LineMetadata>,
                                       threshold: nat, m: M.LineMapping)
    requires LineMove(cc, oldLines, newLines, threshold, m) && m.deleted != []
    ensures |m.inserted| == |m.deleted|
    ensures SameBlock(cc, oldLines, newLines, m.deleted[0].number, m.inserted[0].number, |m.deleted|)
    ensures forall k | 0 <= k < |m.deleted| :: m.deleted[k].number == m.deleted[0].number + k
    ensures forall k | 0 <= k < |m.deleted| :: m.inserted[k].number == m.inserted[0].number + k
  {
    var a, b := m.deleted[0].number, m.inserted[0].number;
    forall k | 0 <= k < |m.deleted|
      ensures m.deleted[k].number == a + k && m.inserted[k].number == b + k
    {
      if k > 0 {
        assert m.deleted[k].number == m.deleted[0].number + (k - 0);
      }
    }
    forall i: nat, j: nat | a <= i < a + |m.deleted| && j - i == b - a ensures SameLine(cc, oldLines, newLines, i, j) {
      PairedRecords(cc, oldLines, newLines, threshold, m, i - a);
    }
    PairedRecords(cc, oldLines, newLines, threshold, m, 0);
    PairedRecords(cc, oldLines, newLines, threshold, m, |m.deleted| - 1);
  }

  lemma {:induction false} SpanIsSpan(records: seq<M.LineRecord>, lines: seq<LineMetadata>, s: Segment)
    requires Spans(records, lines, s)
    requires forall k | 0 <= k < |records| :: records[k].number == records[0].number + k
    ensures IsSpan(lines, records[0].number, |records|, s, SpanFrom(records, lines, s))
    ensures SpanFrom(records, lines, s).0 < SpanFrom(records, lines, s).1 <= s.end - s.start
  {
    assert records[|records| - 1].number == records[0].number + (|records| - 1);
  }

  lemma {:induction false} ByteMoveIsBlockMove(cc: CharClass, oldLines: seq<LineMetadata>, newLines: seq<LineMetadata>,
                                               threshold: nat, deletions: seq<Segment>, insertions: seq<Segment>,
                                               lm: M.LineMapping)
    requires LineMove(cc, oldLines, newLines, threshold, lm)
    ensures var m := ByteMove(lm, oldLines, newLines, deletions, insertions);
            m.Some? ==> BlockMove(cc, oldLines, newLines, threshold, deletions, insertions, m.value)
                        && MappingFits(m.value, deletions, insertions)
  {
    hide SameBlock, IsSpan, Spans, SpanFrom, RecordOf;
    if ByteMove(lm, oldLines, newLines, deletions, insertions).Some? {
      BlockOfMove(cc, oldLines, newLines, threshold, lm);
      SpanIsSpan(lm.deleted, oldLines, deletions[lm.deleted[0].editIdx]);
      SpanIsSpan(lm.inserted, newLines, insertions[lm.inserted[0].editIdx]);
    }
  }

  /** A record of a line that touches a segment which is not empty, and neither is the line. */
  ghost predicate InSegment(r: M.LineRecord, lines: seq<LineMetadata>, segments: seq<Segment>) {
    && 1 <= r.number <= |lines| && r.editIdx < |segments|
    && var l, s := lines[r.number - 1], segments[r.editIdx];
       l.start < s.end && l.end > s.start && l.start < l.end && s.start < s.end
  }

  lemma {:induction false} BlockSpans(records: seq<M.LineRecord>, lines: seq<LineMetadata>, segments: seq<Segment>)
    requires records != [] && SameEdit(records) && NumberedFrom(records) && LinesInOrder(lines)
    requires forall k | 0 <= k < |records| :: InSegment(records[k], lines, segments)
    ensures records[0].editIdx < |segments| && Spans(records, lines, segments[records[0].editIdx])
  {
    var s, last := segments[records[0].editIdx], |records| - 1;
    forall k | 0 <= k < |records|
      ensures 1 <= records[k].number <= |lines|
      ensures Clip(lines[records[k].number - 1], s).0 < Clip(lines[records[k].number - 1], s).1
    {
      assert InSegment(records[k], lines, segments);
    }
    assert records[last].number == records[0].number + last;
    if last > 0 {
      assert lines[records[0].number - 1].end <= lines[records[last].number - 1].start;
    }
  }

  lemma {:induction false} RecordsAre(records: seq<M.LineRecord>, lines: seq<LineMetadata>, segments: seq<Segment>)
    requires records != [] && NumberedFrom(records) && InSegment(records[0], lines, segments)
    ensures SameEdit(records) <==> forall k | 0 <= k < |records| :: records[k].editIdx == records[0].editIdx
    ensures forall k | 0 <= k < |records| :: records[k].number == records[0].number + k
    ensures records[0].editIdx < |segments|
  {
  }

  lemma {:induction false} ByteMoveUnfold(m: M.LineMapping, oldLines: seq<LineMetadata>, newLines: seq<LineMetadata>,
                                          deletions: seq<Segment>, insertions: seq<Segment>)
    requires |m.deleted| == |m.inserted| > 0
    requires m.deleted[0].editIdx < |deletions| && m.inserted[0].editIdx < |insertions|
    ensures ByteMove(m, oldLines, newLines, deletions, insertions)
         == if SameEdit(m.deleted) && SameEdit(m.inserted)
               && Spans(m.deleted, oldLines, deletions[m.deleted[0].editIdx])
               && Spans(m.inserted, newLines, insertions[m.inserted[0].editIdx]) then
              Some(MoveMapping(m.deleted[0].editIdx, m.inserted[0].editIdx,
                               SpanFrom(m.deleted, oldLines, deletions[m.deleted[0].editIdx]),
                               SpanFrom(m.inserted, newLines, insertions[m.inserted[0].editIdx])))
            else None
  {
    hide SameEdit, Spans, SpanFrom;
  }

  /**
   * A line move that the search finds has a byte move exactly if its old lines lie in one deletion and its new lines
   * in one insertion; it names these two, and runs over these lines.
   */
  lemma {:induction false} ByteMoveIff(m: M.LineMapping, oldLines: seq<LineMetadata>, newLines: seq<LineMetadata>,
                                       deletions: seq<Segment>, insertions: seq<Segment>)
    requires |m.deleted| == |m.inserted| > 0 && LinesInOrder(oldLines) && LinesInOrder(newLines)
    requires NumberedFrom(m.deleted) && NumberedFrom(m.inserted)
    requires forall k | 0 <= k < |m.deleted| :: InSegment(m.deleted[k], oldLines, deletions)
    requires forall k | 0 <= k < |m.inserted| :: InSegment(m.inserted[k], newLines, insertions)
    ensures var r := ByteMove(m, oldLines, newLines, deletions, insertions);
            && (r.Some? <==> && (forall k | 0 <= k < |m.deleted| :: m.deleted[k].editIdx == m.deleted[0].editIdx)
                             && (forall k | 0 <= k < |m.inserted| :: m.inserted[k].editIdx == m.inserted[0].editIdx))
            && (r.Some? ==>
                  && r.value.deletionIdx == m.deleted[0].editIdx && r.value.insertionIdx == m.inserted[0].editIdx
                  && IsSpan(oldLines, m.deleted[0].number, |m.deleted|, deletions[m.deleted[0].editIdx],
                            r.value.sourceRange)
                  && IsSpan(newLines, m.inserted[0].number, |m.inserted|, insertions[m.inserted[0].editIdx],
                            r.value.targetRange))
  {
    hide *;
    RecordsAre(m.deleted, oldLines, deletions);
    RecordsAre(m.inserted, newLines, insertions);
    ByteMoveUnfold(m, oldLines, newLines, deletions, insertions);
    if SameEdit(m.deleted) && SameEdit(m.inserted) {
      BlockSpans(m.deleted, oldLines, deletions);
      BlockSpans(m.inserted, newLines, insertions);
      SpanIsSpan(m.deleted, oldLines, deletions[m.deleted[0].editIdx]);
      SpanIsSpan(m.inserted, newLines, insertions[m.inserted[0].editIdx]);
    }
  }

  lemma {:induction false} PreparedRecord(cc: CharClass, lines: seq<LineMetadata>, segments: seq<Segment>,
                                          records: seq<M.LineRecord>, r: M.LineRecord)
    requires Numbered(lines) && records == Touched(lines, segments)
    requires r in M.Prepared(cc, records)
    ensures RecordOf(cc, lines, r)
  {
    var x := M.PreparedFrom(cc, records, r);
    TouchedMeaning(lines, segments);
    assert IsTouching(lines, segments, x);
  }

  /** The moves found on lines are moves of lines of the two texts. */
  lemma {:induction false} DetectedAreLineMoves(cc: CharClass, oldLines: seq<LineMetadata>, newLines: seq<LineMetadata>,
                                                threshold: nat, deletions: seq<Segment>, insertions: seq<Segment>,
                                                ins: seq<M.LineRecord>, del: seq<M.LineRecord>,
                                                lms: seq<M.LineMapping>)
    requires threshold > 0 && Numbered(oldLines) && Numbered(newLines)
    requires ins == Touched(newLines, insertions) && del == Touched(oldLines, deletions)
    requires Found(cc, ins, del, threshold, lms)
    ensures forall i | 0 <= i < |lms| :: LineMove(cc, oldLines, newLines, threshold, lms[i])
  {
    FoundMeans(cc, ins, del, threshold, lms);
    hide *;
    M.DetectedMovesAreMoves(cc, ins, del, threshold, lms);
    forall i | 0 <= i < |lms| ensures LineMove(cc, oldLines, newLines, threshold, lms[i]) {
      M.DetectedMembers(cc, ins, del, threshold, lms, i);
      forall k | 0 <= k < |lms[i].deleted| ensures RecordOf(cc, oldLines, lms[i].deleted[k]) {
        PreparedRecord(cc, oldLines, deletions, del, lms[i].deleted[k]);
      }
      forall k | 0 <= k < |lms[i].inserted| ensures RecordOf(cc, newLines, lms[i].inserted[k]) {
        PreparedRecord(cc, newLines, insertions, ins, lms[i].inserted[k]);
      }
      LineMoveIntro(cc, oldLines, newLines, threshold, lms[i]);
    }
  }

  lemma {:induction false} FoundMeans(cc: CharClass, ins: seq<M.LineRecord>, del: seq<M.LineRecord>, threshold: nat,
                                      lms: seq<M.LineMapping>)
    ensures Found(cc, ins, del, threshold, lms)
       <==> M.Rendered(M.SidesOf(M.Prepared(cc, ins), M.Prepared(cc, del), threshold),
                       M.DetectedMatches(cc, ins, del, threshold), lms)
  {
  }

  lemma {:induction false} LineMoveIntro(cc: CharClass, oldLines: seq<LineMetadata>, newLines: seq<LineMetadata>,
                                         threshold: nat, m: M.LineMapping)
    requires M.IsMove(m, threshold)
    requires forall k | 0 <= k < |m.deleted| :: RecordOf(cc, oldLines, m.deleted[k])
    requires forall k | 0 <= k < |m.inserted| :: RecordOf(cc, newLines, m.inserted[k])
    ensures LineMove(cc, oldLines, newLines, threshold, m)
  {
  }

  /** The line moves are what the search finds on the touched lines. */
  ghost predicate FoundOn(cc: CharClass, oldLines: seq<LineMetadata>, newLines: seq<LineMetadata>, threshold: nat,
                          deletions: seq<Segment>, insertions: seq<Segment>, lms: seq<M.LineMapping>)
  {
    var ins, del := Touched(newLines, insertions), Touched(oldLines, deletions);
    if ins == [] || del == [] then lms == [] else Found(cc, ins, del, threshold, lms)
  }

  ghost predicate Found(cc: CharClass, ins: seq<M.LineRecord>, del: seq<M.LineRecord>, threshold: nat,
                        lms: seq<M.LineMapping>)
  {
    M.Rendered(M.SidesOf(M.Prepared(cc, ins), M.Prepared(cc, del), threshold),
               M.DetectedMatches(cc, ins, del, threshold), lms)
  }

  lemma {:induction false} FoundIntro(cc: CharClass, oldLines: seq<LineMetadata>, newLines: seq<LineMetadata>,
                                      threshold: nat, deletions: seq<Segment>, insertions: seq<Segment>,
                                      ins: seq<M.LineRecord>, del: seq<M.LineRecord>, lms: seq<M.LineMapping>)
    requires ins == Touched(newLines, insertions) && del == Touched(oldLines, deletions)
    requires if ins == [] || del == [] then lms == [] else Found(cc, ins, del, threshold, lms)
    ensures FoundOn(cc, oldLines, newLines, threshold, deletions, insertions, lms)
  {
  }

  /** The byte moves of the line moves that have one, in order. */
  ghost function ByteMoves(lms: seq<M.LineMapping>, oldLines: seq<LineMetadata>, newLines: seq<LineMetadata>,
                           deletions: seq<Segment>, insertions: seq<Segment>): seq<MoveMapping>
  {
    if lms == [] then []
    else
      var m := ByteMove(lms[|lms| - 1], oldLines, newLines, deletions, insertions);
      ByteMoves(lms[..|lms| - 1], oldLines, newLines, deletions, insertions) + if m.Some? then [m.value] else []
  }

  /** The lines of a text with their numbers. */
  ghost function TextLines(c: string): seq<LineMetadata> {
    MetadataOf(c, LineRanges(c))
  }

  lemma {:induction false} TextLinesNumbered(c: string)
    ensures Numbered(TextLines(c)) && TextLines(c) == MetadataOf(c, LineRanges(c))
  {
  }

  // ----- No two moves share a target -----

  ghost predicate LinesInOrder(lines: seq<LineMetadata>) {
    forall i, j | 0 <= i < j < |lines| :: lines[i].end <= lines[j].start
  }

  lemma {:induction false} TextLinesInOrder(c: string)
    ensures LinesInOrder(TextLines(c))
  {
    LineRangesPartition(c, 0);
    var rs := LineRanges(c);
    forall i, j | 0 <= i < j < |rs| ensures rs[i].1 <= rs[j].0 {
      StartMonotone(c, i + 1, j);
      assert StartOf(rs, |c|, i + 1) == rs[i].1;
    }
    hide LineRanges;
  }

  lemma {:induction false} TouchedOnce(lines: seq<LineMetadata>, segments: seq<Segment>)
    requires Numbered(lines)
    ensures M.OncePerEdit(Touched(lines, segments))
  {
    TouchedMeaning(lines, segments);
    hide Touched, Numbered, IsTouching;
    var records := Touched(lines, segments);
    forall i, j | 0 <= i < j < |records| ensures !M.SameLineOfEdit(records[i], records[j]) {
      assert Before(records[i], records[j]);
    }
  }

  ghost predicate NumberedFrom(records: seq<M.LineRecord>) {
    forall k | 0 <= k < |records| :: records[k].number == records[0].number + k
  }

  /** Two blocks of lines without a common line lie one before the other. */
  lemma {:induction false} BlocksApart(x: seq<M.LineRecord>, y: seq<M.LineRecord>)
    requires x != [] && y != [] && NumberedFrom(x) && NumberedFrom(y)
    requires forall i, j | 0 <= i < |x| && 0 <= j < |y| :: x[i].number != y[j].number
    ensures x[|x| - 1].number < y[0].number || y[|y| - 1].number < x[0].number
  {
    var a, b := x[0].number, y[0].number;
    assert x[|x| - 1].number == a + (|x| - 1) && y[|y| - 1].number == b + (|y| - 1);
    var k, l := if a <= b && b < a + |x| then b - a else 0, if b <= a && a < b + |y| then a - b else 0;
    assert x[k].number == a + k && y[l].number == b + l;
    assert x[k].number != y[0].number && x[0].number != y[l].number;
  }

  lemma {:induction false} SpansApart(x: seq<M.LineRecord>, y: seq<M.LineRecord>, lines: seq<LineMetadata>, s: Segment)
    requires LinesInOrder(lines) && Spans(x, lines, s) && Spans(y, lines, s)
    requires x[|x| - 1].number < y[0].number
    ensures SpanFrom(x, lines, s).1 <= SpanFrom(y, lines, s).0
  {
    assert lines[x[|x| - 1].number - 1].end <= lines[y[0].number - 1].start;
  }

  lemma {:induction false} MoveNumbers(m: M.LineMapping, threshold: nat)
    requires M.IsMove(m, threshold)
    ensures NumberedFrom(m.inserted)
  {
    forall k | 0 < k < |m.inserted| ensures m.inserted[k].number == m.inserted[0].number + k {
      assert m.inserted[k].number == m.inserted[0].number + (k - 0);
    }
  }

  lemma {:induction false} ByteMovesApart(a: M.LineMapping, b: M.LineMapping, oldLines: seq<LineMetadata>,
                                          newLines: seq<LineMetadata>, deletions: seq<Segment>,
                                          insertions: seq<Segment>)
    requires LinesInOrder(newLines) && M.NoCommonTarget(a, b) && NumberedFrom(a.inserted) && NumberedFrom(b.inserted)
    requires ByteMove(a, oldLines, newLines, deletions, insertions).Some?
    requires ByteMove(b, oldLines, newLines, deletions, insertions).Some?
    ensures ApartTargets(ByteMove(a, oldLines, newLines, deletions, insertions).value,
                         ByteMove(b, oldLines, newLines, deletions, insertions).value)
  {
    var x, y := a.inserted, b.inserted;
    hide Spans, SpanFrom, LinesInOrder, NumberedFrom;
    if x[0].editIdx == y[0].editIdx {
      forall i, j | 0 <= i < |x| && 0 <= j < |y| ensures x[i].number != y[j].number {
        assert !M.SameLineOfEdit(x[i], y[j]);
      }
      BlocksApart(x, y);
      var s := insertions[x[0].editIdx];
      if x[|x| - 1].number < y[0].number {
        SpansApart(x, y, newLines, s);
      } else {
        SpansApart(y, x, newLines, s);
      }
    }
  }

  /** Every move found comes from a line move before it in the list. */
  lemma {:induction false} ByteMoveFrom(lms: seq<M.LineMapping>, oldLines: seq<LineMetadata>,
                                        newLines: seq<LineMetadata>, deletions: seq<Segment>,
                                        insertions: seq<Segment>, m: MoveMapping)
    returns (i: nat)
    requires m in ByteMoves(lms, oldLines, newLines, deletions, insertions)
    ensures i < |lms| && ByteMove(lms[i], oldLines, newLines, deletions, insertions) == Some(m)
  {
    hide ByteMove;
    var front := lms[..|lms| - 1];
    if m in ByteMoves(front, oldLines, newLines, deletions, insertions) {
      i := ByteMoveFrom(front, oldLines, newLines, deletions, insertions, m);
      assert front[i] == lms[i];
    } else {
      i := |lms| - 1;
    }
  }

  // ----- Which line moves have byte ranges -----

  ghost predicate NoneEmpty(segments: seq<Segment>) {
    forall s | s in segments :: s.start < s.end
  }

  lemma {:induction false} CatalogNotEmpty(diffs: seq<ByteDiff>, a: nat, b: nat)
    requires NoEmpty(diffs)
    ensures NoneEmpty(Deletions(diffs, a)) && NoneEmpty(Insertions(diffs, b))
    decreases diffs
  {
    if diffs != [] {
      assert diffs[0] in diffs && forall d | d in diffs[1..] :: d in diffs;
      CatalogNotEmpty(diffs[1..], a + |OldPart(diffs[0])|, b + |NewPart(diffs[0])|);
    }
  }

  lemma {:induction false} PreparedInSegment(cc: CharClass, lines: seq<LineMetadata>, segments: seq<Segment>,
                                             r: M.LineRecord)
    requires Numbered(lines) && NoneEmpty(segments) && forall l | l in lines :: l.start < l.end
    requires r in M.Prepared(cc, Touched(lines, segments))
    ensures InSegment(r, lines, segments)
  {
    TouchedMeaning(lines, segments);
    hide M.Prepared, Touched, Trim, InOrder;
    var x := M.PreparedFrom(cc, Touched(lines, segments), r);
    assert IsTouching(lines, segments, x);
    assert lines[x.number - 1] in lines && segments[x.editIdx] in segments;
  }

  lemma {:induction false} TextLinesNotEmpty(c: string)
    ensures forall l | l in TextLines(c) :: l.start < l.end
  {
    LineRangesPartition(c, 0);
    var rs := LineRanges(c);
    forall k | 0 <= k < |rs| ensures rs[k].0 < rs[k].1 {
      assert StartOf(rs, |c|, k) == rs[k].0;
    }
    hide LineRanges;
    forall l | l in TextLines(c) ensures l.start < l.end {
      var k :| 0 <= k < |TextLines(c)| && TextLines(c)[k] == l;
    }
  }

  /** In one deletion and one insertion. */
  predicate WithinEdits(m: M.LineMapping) {
    && (forall k | 0 <= k < |m.deleted| :: m.deleted[k].editIdx == m.deleted[0].editIdx)
    && (forall k | 0 <= k < |m.inserted| :: m.inserted[k].editIdx == m.inserted[0].editIdx)
  }

  /**
   * Of the line moves that the search finds between two texts exactly those within one deletion and one insertion get
   * byte ranges: those of their lines, in these two edits.
   */
  lemma {:induction false} FoundByteMove(cc: CharClass, olds: string, news: string, threshold: nat,
                                         diffs: seq<ByteDiff>, lms: seq<M.LineMapping>, i: nat)
    requires NoEmpty(diffs) && threshold > 0 && i < |lms|
    requires FoundOn(cc, TextLines(olds), TextLines(news), threshold, Deletions(diffs), Insertions(diffs), lms)
    ensures var m := lms[i];
            var r := ByteMove(m, TextLines(olds), TextLines(news), Deletions(diffs), Insertions(diffs));
            && (r.Some? <==> WithinEdits(m))
            && (r.Some? ==>
                  && m.deleted != [] && m.inserted != []
                  && r.value.deletionIdx == m.deleted[0].editIdx < |Deletions(diffs)|
                  && r.value.insertionIdx == m.inserted[0].editIdx < |Insertions(diffs)|
                  && IsSpan(TextLines(olds), m.deleted[0].number, |m.deleted|,
                            Deletions(diffs)[r.value.deletionIdx], r.value.sourceRange)
                  && IsSpan(TextLines(news), m.inserted[0].number, |m.inserted|,
                            Insertions(diffs)[r.value.insertionIdx], r.value.targetRange))
  {
    hide *;
    TextLinesNumbered(olds);
    TextLinesNumbered(news);
    TextLinesNotEmpty(olds);
    TextLinesNotEmpty(news);
    TextLinesInOrder(olds);
    TextLinesInOrder(news);
    CatalogNotEmpty(diffs, 0, 0);
    var dels, inss := Deletions(diffs), Insertions(diffs);
    var ins, del := Touched(TextLines(news), inss), Touched(TextLines(olds), dels);
    var m := lms[i];
    FoundOnMeans(cc, TextLines(olds), TextLines(news), threshold, dels, inss, lms);
    M.DetectedMovesAreMoves(cc, ins, del, threshold, lms);
    M.DetectedMembers(cc, ins, del, threshold, lms, i);
    MoveShape(m, threshold);
    forall k | 0 <= k < |m.deleted| ensures InSegment(m.deleted[k], TextLines(olds), dels) {
      PreparedInSegment(cc, TextLines(olds), dels, m.deleted[k]);
    }
    forall k | 0 <= k < |m.inserted| ensures InSegment(m.inserted[k], TextLines(news), inss) {
      PreparedInSegment(cc, TextLines(news), inss, m.inserted[k]);
    }
    ByteMoveIff(m, TextLines(olds), TextLines(news), dels, inss);
    RecordsAre(m.deleted, TextLines(olds), dels);
    RecordsAre(m.inserted, TextLines(news), inss);
    WithinIs(m);
  }

  lemma {:induction false} WithinIs(m: M.LineMapping)
    ensures WithinEdits(m) <==>
            && (forall k | 0 <= k < |m.deleted| :: m.deleted[k].editIdx == m.deleted[0].editIdx)
            && (forall k | 0 <= k < |m.inserted| :: m.inserted[k].editIdx == m.inserted[0].editIdx)
  {
  }

  lemma {:induction false} MoveShape(m: M.LineMapping, threshold: nat)
    requires M.IsMove(m, threshold) && threshold > 0
    ensures |m.deleted| == |m.inserted| > 0 && NumberedFrom(m.deleted) && NumberedFrom(m.inserted)
  {
    MoveNumbers(m, threshold);
    forall k | 0 < k < |m.deleted| ensures m.deleted[k].number == m.deleted[0].number + k {
      assert m.deleted[k].number == m.deleted[0].number + (k - 0);
    }
  }

  /** If something is found, it is found by the search. */
  lemma {:induction false} FoundOnMeans(cc: CharClass, oldLines: seq<LineMetadata>, newLines: seq<LineMetadata>,
                                        threshold: nat, deletions: seq<Segment>, insertions: seq<Segment>,
                                        lms: seq<M.LineMapping>)
    requires FoundOn(cc, oldLines, newLines, threshold, deletions, insertions, lms) && lms != []
    ensures var ins, del := Touched(newLines, insertions), Touched(oldLines, deletions);
            M.Rendered(M.SidesOf(M.Prepared(cc, ins), M.Prepared(cc, del), threshold),
                       M.DetectedMatches(cc, ins, del, threshold), lms)
  {
    FoundMeans(cc, Touched(newLines, insertions), Touched(oldLines, deletions), threshold, lms);
    hide Found, M.Rendered, Touched;
  }

  ghost predicate AllApart(lms: seq<M.LineMapping>) {
    && (forall i, j | 0 <= i < j < |lms| :: M.NoCommonTarget(lms[i], lms[j]))
    && (forall i | 0 <= i < |lms| :: NumberedFrom(lms[i].inserted))
  }

  lemma {:induction false} AllByteMovesApart(lms: seq<M.LineMapping>, oldLines: seq<LineMetadata>,
                                             newLines: seq<LineMetadata>, deletions: seq<Segment>,
                                             insertions: seq<Segment>)
    requires LinesInOrder(newLines) && AllApart(lms)
    ensures TargetsApart(ByteMoves(lms, oldLines, newLines, deletions, insertions))
  {
    if lms != [] {
      var front, last := lms[..|lms| - 1], lms[|lms| - 1];
      hide ByteMove, LinesInOrder, NumberedFrom, ApartTargets;
      assert AllApart(front);
      AllByteMovesApart(front, oldLines, newLines, deletions, insertions);
      var before := ByteMoves(front, oldLines, newLines, deletions, insertions);
      var m := ByteMove(last, oldLines, newLines, deletions, insertions);
      if m.Some? {
        forall k | 0 <= k < |before| ensures ApartTargets(before[k], m.value) {
          var i := ByteMoveFrom(front, oldLines, newLines, deletions, insertions, before[k]);
          assert M.NoCommonTarget(lms[i], last);
          ByteMovesApart(lms[i], last, oldLines, newLines, deletions, insertions);
        }
      }
    }
  }

  lemma {:induction false} DetectedAreApart(cc: CharClass, newLines: seq<LineMetadata>, threshold: nat,
                                            insertions: seq<Segment>, ins: seq<M.LineRecord>,
                                            del: seq<M.LineRecord>, lms: seq<M.LineMapping>)
    requires threshold > 0 && Numbered(newLines) && ins == Touched(newLines, insertions)
    requires Found(cc, ins, del, threshold, lms)
    ensures AllApart(lms)
  {
    TouchedOnce(newLines, insertions);
    hide *;
    FoundMeans(cc, ins, del, threshold, lms);
    M.DetectedMovesAreMoves(cc, ins, del, threshold, lms);
    forall i | 0 <= i < |lms| ensures NumberedFrom(lms[i].inserted) {
      MoveNumbers(lms[i], threshold);
    }
    forall i, j | 0 <= i < j < |lms| ensures M.NoCommonTarget(lms[i], lms[j]) {
      M.DetectedApart(cc, ins, del, threshold, lms, i, j);
    }
    AllApartIntro(lms);
  }

  lemma {:induction false} AllApartIntro(lms: seq<M.LineMapping>)
    requires forall i, j | 0 <= i < j < |lms| :: M.NoCommonTarget(lms[i], lms[j])
    requires forall i | 0 <= i < |lms| :: NumberedFrom(lms[i].inserted)
    ensures AllApart(lms)
  {
  }

  /**
   * `AttributionTracker::detect_moves`: the byte ranges of the line moves, in order, each a block of
   * non-blank lines that are equal after trimming.
   */
  method DetectMoves(cc: CharClass, hash: string -> nat, threshold: nat, olds: string, news: string,
                     deletions: seq<Segment>, insertions: seq<Segment>)
    returns (mappings: seq<MoveMapping>, ghost lms: seq<M.LineMapping>)
    ensures if threshold == 0 || deletions == [] || insertions == [] then lms == []
            else FoundOn(cc, TextLines(olds), TextLines(news), threshold, deletions, insertions, lms)
    ensures mappings == ByteMoves(lms, TextLines(olds), TextLines(news), deletions, insertions)
    ensures forall i | 0 <= i < |lms| :: LineMove(cc, TextLines(olds), TextLines(news), threshold, lms[i])
    ensures forall m | m in mappings ::
              BlockMove(cc, TextLines(olds), TextLines(news), threshold, deletions, insertions, m)
              && MappingFits(m, deletions, insertions)
    ensures TargetsApart(mappings)
  {
    hide *;
    mappings, lms := [], [];
    NoByteMoves(TextLines(olds), TextLines(news), deletions, insertions);
    NoMovesApart();
    if threshold == 0 || deletions == [] || insertions == [] {
      return;
    }
    var oldLines := CollectLineMetadata(olds);
    var newLines := CollectLineMetadata(news);
    TextLinesNumbered(olds);
    TextLinesNumbered(news);
    NumberedLines(oldLines);
    NumberedLines(newLines);
    var oldLineMap, newLineMap := LineMapOf(oldLines), LineMapOf(newLines);
    var insertedLines := LinesTouching(newLines, insertions);
    var deletedLines := LinesTouching(oldLines, deletions);
    if insertedLines == [] || deletedLines == [] {
      FoundIntro(cc, oldLines, newLines, threshold, deletions, insertions, insertedLines, deletedLines, lms);
      return;
    }
    var inserted := new M.LineRecord[|insertedLines|](i requires 0 <= i < |insertedLines| => insertedLines[i]);
    var deleted := new M.LineRecord[|deletedLines|](i requires 0 <= i < |deletedLines| => deletedLines[i]);
    assert inserted[..] == insertedLines && deleted[..] == deletedLines;
    var lineMappings := M.DetectMoves(cc, hash, inserted, deleted, threshold);
    lms := lineMappings;
    FoundMeans(cc, insertedLines, deletedLines, threshold, lms);
    FoundIntro(cc, oldLines, newLines, threshold, deletions, insertions, insertedLines, deletedLines, lms);
    DetectedAreLineMoves(cc, oldLines, newLines, threshold, deletions, insertions, insertedLines, deletedLines, lms);
    for k := 0 to |lineMappings|
      invariant mappings == ByteMoves(lms[..k], oldLines, newLines, deletions, insertions)
      invariant forall m | m in mappings ::
                  BlockMove(cc, oldLines, newLines, threshold, deletions, insertions, m)
                  && MappingFits(m, deletions, insertions)
    {
      ByteMovesNext(lms, k, oldLines, newLines, deletions, insertions);
      ByteMoveIsBlockMove(cc, oldLines, newLines, threshold, deletions, insertions, lms[k]);
      var m := ToByteRanges(lineMappings[k], oldLineMap, newLineMap, deletions, insertions, oldLines, newLines);
      if m.Some? {
        mappings := mappings + [m.value];
      }
    }
    assert lms[..|lms|] == lms;
    DetectedAreApart(cc, newLines, threshold, insertions, insertedLines, deletedLines, lms);
    TextLinesInOrder(news);
    AllByteMovesApart(lms, oldLines, newLines, deletions, insertions);
  }

  lemma {:induction false} NoMovesApart()
    ensures TargetsApart([])
  {
  }

  lemma {:induction false} NumberedLines(lines: seq<LineMetadata>)
    requires Numbered(lines)
    ensures forall k | 0 <= k < |lines| :: lines[k].number == k + 1
  {
  }

  lemma {:induction false} NoByteMoves(oldLines: seq<LineMetadata>, newLines: seq<LineMetadata>,
                                       deletions: seq<Segment>, insertions: seq<Segment>)
    ensures ByteMoves([], oldLines, newLines, deletions, insertions) == []
  {
  }

  lemma {:induction false} ByteMovesNext(lms: seq<M.LineMapping>, k: nat, oldLines: seq<LineMetadata>,
                                         newLines: seq<LineMetadata>, deletions: seq<Segment>,
                                         insertions: seq<Segment>)
    requires k < |lms|
    ensures lms[..0] == []
    ensures var m := ByteMove(lms[k], oldLines, newLines, deletions, insertions);
            ByteMoves(lms[..k + 1], oldLines, newLines, deletions, insertions)
            == ByteMoves(lms[..k], oldLines, newLines, deletions, insertions) + if m.Some? then [m.value] else []
  {
    assert lms[..k + 1][..k] == lms[..k];
  }

  lemma {:induction false} FitsTransform(diffs: seq<ByteDiff>, mappings: seq<MoveMapping>)
    requires forall m | m in mappings :: MappingFits(m, Deletions(diffs), Insertions(diffs))
    ensures MovesFit(diffs, mappings)
    ensures forall m | m in mappings :: m.insertionIdx < |Insertions(diffs)|
  {
  }
}
