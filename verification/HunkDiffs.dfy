/** From two texts to byte diffs (`compute_diffs`): line ops, then one diff per changed hunk. */
module HunkDiffs {
  import opened Prelude
  import opened Text
  import opened EditScript
  import opened Ranges
  import opened Tokenizer
  import opened TokenDiff
  import D = DiffOps

  const TOKEN_DIFF_FAST_PATH_MIN_BYTES := 32 * 1024
  const TOKEN_DIFF_FAST_PATH_MIN_LINES := 256
  const TOKEN_DIFF_FAST_PATH_HUGE_BYTES := 256 * 1024
  const TOKEN_DIFF_FAST_PATH_MAX_OPS := 8

  datatype DiffComputation = DiffComputation(diffs: seq<ByteDiff>, substantive: seq<Range>)

  // ----- Hunk bounds -----

  /** The ops are consecutive and lead from `(i0, j0)` to `(i, j)`. */
  ghost predicate Chain(ops: seq<D.DiffOp>, i0: nat, j0: nat, i: nat, j: nat) {
    if ops == [] then i0 == i && j0 == j else
    var op := ops[|ops| - 1];
    && D.SpanOf(op, true).1 == i && D.SpanOf(op, false).1 == j
    && Chain(ops[..|ops| - 1], i0, j0, D.SpanOf(op, true).0, D.SpanOf(op, false).0)
  }

  lemma {:induction false} ChainAppend(ops: seq<D.DiffOp>, op: D.DiffOp, i0: nat, j0: nat, i: nat, j: nat)
    requires Chain(ops, i0, j0, i, j) && D.SpanOf(op, true).0 == i && D.SpanOf(op, false).0 == j
    ensures Chain(ops + [op], i0, j0, D.SpanOf(op, true).1, D.SpanOf(op, false).1)
  {
    assert (ops + [op])[..|ops|] == ops;
  }

  lemma {:induction false} ChainAdvances(ops: seq<D.DiffOp>, i0: nat, j0: nat, i: nat, j: nat)
    requires Chain(ops, i0, j0, i, j)
    ensures i0 <= i && j0 <= j
  {
    if ops != [] {
      var op := ops[|ops| - 1];
      ChainAdvances(ops[..|ops| - 1], i0, j0, D.SpanOf(op, true).0, D.SpanOf(op, false).0);
    }
  }

  /** `hunk_line_bounds`; `None` stands for the `usize::MAX` the minimum starts from. */
  method HunkLineBounds(ops: seq<D.DiffOp>, forOld: bool, ghost i0: nat, ghost j0: nat, ghost i: nat, ghost j: nat)
    returns (start: nat, end: nat)
    requires ops != [] && Chain(ops, i0, j0, i, j)
    ensures (start, end) == if forOld then (i0, i) else (j0, j)
  {
    var least: Option<nat> := None;
    end := 0;
    assert ops[..|ops|] == ops;
    ChainPrefix(ops, |ops|, i0, j0, i, j);
    for k := 0 to |ops|
      invariant least.None? <==> k == 0
      invariant k > 0 ==> least == Some(if forOld then i0 else j0)
      invariant end == if k == 0 then 0 else D.SpanOf(ops[k - 1], forOld).1
    {
      ChainPrefix(ops, k + 1, i0, j0, i, j);
      var (s, e) := D.SpanOf(ops[k], forOld);
      least := Some(if least.None? then s else Min(least.value, s));
      end := Max(end, e);
    }
    start := least.value;
  }

  /** Op `k - 1` starts where the chain before it ends, which is at or after the start of the chain. */
  lemma {:induction false} ChainPrefix(ops: seq<D.DiffOp>, k: nat, i0: nat, j0: nat, i: nat, j: nat)
    requires Chain(ops, i0, j0, i, j) && 0 < k <= |ops|
    ensures var o, w := D.SpanOf(ops[k - 1], true), D.SpanOf(ops[k - 1], false);
            && o.0 == (if k == 1 then i0 else D.SpanOf(ops[k - 2], true).1) && i0 <= o.0 <= o.1
            && w.0 == (if k == 1 then j0 else D.SpanOf(ops[k - 2], false).1) && j0 <= w.0 <= w.1
            && (k == |ops| ==> o.1 == i && w.1 == j)
    decreases |ops| - k
  {
    var op := ops[|ops| - 1];
    var (i', j') := (D.SpanOf(op, true).0, D.SpanOf(op, false).0);
    var front := ops[..|ops| - 1];
    ChainAdvances(front, i0, j0, i', j');
    if k < |ops| {
      ChainPrefixOf(front, ops, k, i0, j0, i', j');
    } else if k >= 2 {
      assert front[|front| - 1] == ops[k - 2];
    }
  }

  lemma {:induction false} ChainPrefixOf(front: seq<D.DiffOp>, ops: seq<D.DiffOp>, k: nat, i0: nat, j0: nat, i: nat,
                                         j: nat)
    requires Chain(front, i0, j0, i, j) && 0 < k <= |front| < |ops| && front == ops[..|front|]
    ensures var o, w := D.SpanOf(ops[k - 1], true), D.SpanOf(ops[k - 1], false);
            && o.0 == (if k == 1 then i0 else D.SpanOf(ops[k - 2], true).1) && i0 <= o.0 <= o.1
            && w.0 == (if k == 1 then j0 else D.SpanOf(ops[k - 2], false).1) && j0 <= w.0 <= w.1
    decreases |front|
  {
    var op := front[|front| - 1];
    var (i', j') := (D.SpanOf(op, true).0, D.SpanOf(op, false).0);
    var front' := front[..|front| - 1];
    ChainAdvances(front', i0, j0, i', j');
    if k < |front| {
      ChainPrefixOf(front', ops, k, i0, j0, i', j');
    } else if k >= 2 {
      assert front'[|front'| - 1] == ops[k - 2];
    }
  }

  // ----- Byte ranges of line ranges -----

  /** `line_range_to_byte_range`. */
  function LineRangeToByteRange(lines: seq<LineMetadata>, startIdx: nat, endIdx: nat, contentLen: nat): Range {
    if startIdx >= endIdx then
      var pos := if startIdx < |lines| then lines[startIdx].start else contentLen;
      (pos, pos)
    else
      (if startIdx < |lines| then lines[startIdx].start else contentLen,
       if endIdx - 1 < |lines| then lines[endIdx - 1].end else contentLen)
  }

  /** Where line `k` starts, or the end of the text. */
  function LineStart(c: string, k: nat): nat {
    StartOf(LineRanges(c), |c|, k)
  }

  lemma {:induction false} ByteRangeIsSpan(c: string, i: nat, k: nat)
    requires i <= k <= |LineRanges(c)|
    ensures LineRangeToByteRange(MetadataOf(c, LineRanges(c)), i, k, |c|) == (LineStart(c, i), LineStart(c, k))
    ensures LineStart(c, i) <= LineStart(c, k) <= |c|
  {
    StartMonotone(c, i, k);
    LineRangesPartition(c, 0);
    assert i < k ==> StartOf(LineRanges(c), |c|, k) == LineRanges(c)[k - 1].1;
  }

  // ----- One changed hunk -----

  /** `should_use_line_aligned_hunk_diff`. */
  predicate ShouldUseLineAlignedHunkDiff(opCount: nat, oldLines: int, newLines: int, oldBytes: int, newBytes: int) {
    && 0 < opCount <= TOKEN_DIFF_FAST_PATH_MAX_OPS
    && var lines := if oldLines >= newLines then oldLines else newLines;
       var bytes := if oldBytes >= newBytes then oldBytes else newBytes;
       || bytes >= TOKEN_DIFF_FAST_PATH_HUGE_BYTES
       || (bytes >= TOKEN_DIFF_FAST_PATH_MIN_BYTES && lines >= TOKEN_DIFF_FAST_PATH_MIN_LINES)
  }

  /** Up to eight ops, and one side of 256 KiB, or one side of 32 KiB and one of 256 lines. */
  lemma {:induction false} LineAlignedIff(opCount: nat, oldLines: int, newLines: int, oldBytes: int, newBytes: int)
    ensures ShouldUseLineAlignedHunkDiff(opCount, oldLines, newLines, oldBytes, newBytes)
       <==> && 1 <= opCount <= 8
            && (|| oldBytes >= 262144 || newBytes >= 262144
                || ((oldBytes >= 32768 || newBytes >= 32768) && (oldLines >= 256 || newLines >= 256)))
  {
  }

  /** A changed hunk: old text `[a, a')` became new text `[b, b')`, split by lines or by tokens. */
  datatype HunkRecord = HunkRecord(a: nat, a': nat, b: nat, b': nat, lineAligned: bool)

  /**
   * What is known of the diffs `ds` (starting at old position `da` and new position `db`)
   * inside a hunk of a human checkpoint.
   */
  ghost predicate HunkAccounted(cc: CharClass, differ: D.Differ, olds: string, news: string, h: HunkRecord,
                                ds: seq<ByteDiff>, da: nat, db: nat, rs: seq<Range>) {
    && h.a <= h.a' <= |olds| && h.b <= h.b' <= |news|
    && if h.lineAligned then
         && Inserted(ds, da, db, h.b, h.b')
         && (forall p: nat | h.b <= p < h.b' :: InsertAt(ds, p, da, db) == Some(Insertion(h.b, h.a', news[h.b..h.b'])))
         && (h.b < h.b' && !DataIsWhitespace(cc, news[h.b..h.b']) ==> CoveredBy(rs, h.b, h.b'))
         && (DataIsWhitespace(cc, news[h.b..h.b']) ==> forall p: nat | h.b <= p < h.b' :: !InSome(rs, p))
       else
         && TokenHunkAccounted(differ, ds, da, db, rs, Tokens(cc, olds, h.a, h.a'), Tokens(cc, news, h.b, h.b'))
         && GapsAccounted(HunkTexts(cc, olds, h.a, h.a', news, h.b, h.b'), differ, ds, da, db, rs)
  }

  /**
   * What `process_changed_hunk` adds for the ops from line `(i0, j0)` to line `(i, j)`: the diffs
   * `piece` rewrite the lines' text and the ranges `more` are inserted text.  An AI checkpoint
   * copies nothing and names no range.
   */
  ghost predicate HunkProcessed(cc: CharClass, differ: D.Differ, olds: string, news: string, isAi: bool, opCount: nat,
                                i0: nat, j0: nat, i: nat, j: nat,
                                h: HunkRecord, piece: seq<ByteDiff>, more: seq<Range>) {
    && h.a == LineStart(olds, i0) && h.a' == LineStart(olds, i) && h.b == LineStart(news, j0)
       && h.b' == LineStart(news, j)
    && h.lineAligned == (isAi || ShouldUseLineAlignedHunkDiff(opCount, i - i0, j - j0, h.a' - h.a, h.b' - h.b))
    && Rewrites(piece, olds, h.a, h.a', news, h.b, h.b') && NoEmpty(piece)
    && InsertedRanges(piece, h.a, h.b, h.b', more)
    && if isAi then more == [] && Inserted(piece, h.a, h.b, h.b, h.b')
       else HunkAccounted(cc, differ, olds, news, h, piece, h.a, h.b, more)
  }

  lemma {:induction false} ForcedSplit(cc: CharClass, differ: D.Differ, olds: string, news: string, h: HunkRecord,
                                       ds: seq<ByteDiff>, isAi: bool, rs: seq<Range>)
    requires h.a <= h.a' <= |olds| && h.b <= h.b' <= |news| && h.lineAligned
    requires forall p: nat | h.b <= p < h.b' ::
               && SourceAt(ds, p, h.a, h.b) == None
               && InsertAt(ds, p, h.a, h.b) == Some(Insertion(h.b, h.a', news[h.b..h.b']))
    requires rs == if isAi || h.b >= h.b' || DataIsWhitespace(cc, news[h.b..h.b']) then [] else [(h.b, h.b')]
    ensures Inserted(ds, h.a, h.b, h.b, h.b') && InsertedRanges(ds, h.a, h.b, h.b', rs)
    ensures !isAi ==> HunkAccounted(cc, differ, olds, news, h, ds, h.a, h.b, rs)
  {
    assert (h.b, h.b') in [(h.b, h.b')];
  }

  /** A hunk split into one Delete and one Insert. */
  lemma {:induction false} LineSplitProcessed(cc: CharClass, differ: D.Differ, olds: string, news: string, isAi: bool,
                                              opCount: nat, i0: nat, j0: nat, i: nat, j: nat,
                                              h: HunkRecord, piece: seq<ByteDiff>, more: seq<Range>)
    requires h.a == LineStart(olds, i0) && h.a' == LineStart(olds, i) && h.b == LineStart(news, j0)
             && h.b' == LineStart(news, j)
    requires h.a <= h.a' <= |olds| && h.b <= h.b' <= |news| && h.lineAligned
    requires piece == RangeDiffs(olds, news, h.a, h.a', h.b, h.b', true)
    requires more == if isAi || h.b >= h.b' || DataIsWhitespace(cc, news[h.b..h.b']) then [] else [(h.b, h.b')]
    requires isAi || ShouldUseLineAlignedHunkDiff(opCount, i - i0, j - j0, h.a' - h.a, h.b' - h.b)
    ensures HunkProcessed(cc, differ, olds, news, isAi, opCount, i0, j0, i, j, h, piece, more)
  {
    hide LineStart, Rewrites, RangeDiffs, InsertedRanges, Inserted, HunkAccounted, DataIsWhitespace, InsertAt;
    RangeRewrites(olds, news, h.a, h.a', h.b, h.b', true);
    ForcedSplit(cc, differ, olds, news, h, piece, isAi, more);
  }

  lemma {:induction false} TokenSplitProcessed(cc: CharClass, differ: D.Differ, olds: string, news: string,
                                               opCount: nat, i0: nat, j0: nat, i: nat, j: nat,
                                               h: HunkRecord, piece: seq<ByteDiff>, more: seq<Range>)
    requires h.a == LineStart(olds, i0) && h.a' == LineStart(olds, i) && h.b == LineStart(news, j0)
             && h.b' == LineStart(news, j)
    requires !h.lineAligned && !ShouldUseLineAlignedHunkDiff(opCount, i - i0, j - j0, h.a' - h.a, h.b' - h.b)
    requires h.a' <= |olds| && h.b' <= |news|
    requires Rewrites(piece, olds, h.a, h.a', news, h.b, h.b') && InsertedRanges(piece, h.a, h.b, h.b', more)
    requires NoEmpty(piece)
    requires TokenHunkAccounted(differ, piece, h.a, h.b, more, Tokens(cc, olds, h.a, h.a'), Tokens(cc, news, h.b, h.b'))
    requires GapsAccounted(HunkTexts(cc, olds, h.a, h.a', news, h.b, h.b'), differ, piece, h.a, h.b, more)
    ensures HunkProcessed(cc, differ, olds, news, false, opCount, i0, j0, i, j, h, piece, more)
  {
    hide LineStart, TokenHunkAccounted, GapsAccounted;
  }

  /** The diffs of one changed hunk. */
  ghost function HunkPiece(cc: CharClass, differ: D.Differ, olds: string, news: string, h: HunkRecord): seq<ByteDiff>
    requires D.HonestDiffer(differ)
  {
    if !(h.a <= h.a' <= |olds| && h.b <= h.b' <= |news|) then []
    else if h.lineAligned then RangeDiffs(olds, news, h.a, h.a', h.b, h.b', true)
    else TokenDiffs(WorkOf(cc, differ, olds, h.a, h.a', news, h.b, h.b'))
  }

  /** Its substantive ranges. */
  ghost function HunkRanges(cc: CharClass, differ: D.Differ, olds: string, news: string, isAi: bool,
                            h: HunkRecord): seq<Range>
    requires D.HonestDiffer(differ)
  {
    if !(h.a <= h.a' <= |olds| && h.b <= h.b' <= |news|) then []
    else if h.lineAligned then
      if isAi || h.b == h.b' || DataIsWhitespace(cc, news[h.b..h.b']) then [] else [(h.b, h.b')]
    else TokenRanges(WorkOf(cc, differ, olds, h.a, h.a', news, h.b, h.b'))
  }

  lemma {:induction false} LineSplitPiece(cc: CharClass, differ: D.Differ, olds: string, news: string, isAi: bool,
                                          h: HunkRecord, piece: seq<ByteDiff>, more: seq<Range>)
    requires D.HonestDiffer(differ) && h.a <= h.a' <= |olds| && h.b <= h.b' <= |news| && h.lineAligned
    requires piece == RangeDiffs(olds, news, h.a, h.a', h.b, h.b', true)
    requires more == if isAi || h.b >= h.b' || DataIsWhitespace(cc, news[h.b..h.b']) then [] else [(h.b, h.b')]
    ensures piece == HunkPiece(cc, differ, olds, news, h) && more == HunkRanges(cc, differ, olds, news, isAi, h)
  {
    hide D.HonestDiffer, RangeDiffs, DataIsWhitespace;
  }

  lemma {:induction false} TokenSplitPiece(cc: CharClass, differ: D.Differ, olds: string, news: string, h: HunkRecord)
    requires D.HonestDiffer(differ) && h.a <= h.a' <= |olds| && h.b <= h.b' <= |news| && !h.lineAligned
    ensures var w := WorkOf(cc, differ, olds, h.a, h.a', news, h.b, h.b');
            && HunkPiece(cc, differ, olds, news, h) == TokenDiffs(w)
            && HunkRanges(cc, differ, olds, news, false, h) == TokenRanges(w)
  {
    hide D.HonestDiffer, WorkOf, TokenDiffs, TokenRanges;
  }

  /** A longer computation. */
  ghost predicate Extends(before: DiffComputation, after: DiffComputation) {
    before.diffs <= after.diffs && before.substantive <= after.substantive
  }

  lemma {:induction false} ExtendedBy(before: DiffComputation, piece: seq<ByteDiff>, more: seq<Range>)
    ensures var after := DiffComputation(before.diffs + piece, before.substantive + more);
            && Extends(before, after)
            && after.diffs[|before.diffs|..] == piece && after.substantive[|before.substantive|..] == more
  {
  }

  lemma {:induction false} ExtensionParts(before: DiffComputation, after: DiffComputation)
    requires Extends(before, after)
    ensures after.diffs == before.diffs + after.diffs[|before.diffs|..]
    ensures after.substantive == before.substantive + after.substantive[|before.substantive|..]
  {
  }

  /** `process_changed_hunk`: what it appends is the diff of the hunk `h`. */
  method ProcessChangedHunk(cc: CharClass, differ: D.Differ, ops: seq<D.DiffOp>,
                            oldLines: seq<LineMetadata>, newLines: seq<LineMetadata>, olds: string, news: string,
                            computation: DiffComputation, isAi: bool,
                            ghost i0: nat, ghost j0: nat, ghost i: nat, ghost j: nat)
    returns (r: DiffComputation, ghost h: HunkRecord)
    requires D.HonestDiffer(differ)
    requires oldLines == MetadataOf(olds, LineRanges(olds)) && newLines == MetadataOf(news, LineRanges(news))
    requires ops != [] && Chain(ops, i0, j0, i, j) && i <= |LineRanges(olds)| && j <= |LineRanges(news)|
    ensures Extends(computation, r)
    ensures HunkProcessed(cc, differ, olds, news, isAi, |ops|, i0, j0, i, j, h,
                          r.diffs[|computation.diffs|..], r.substantive[|computation.substantive|..])
    ensures r.diffs[|computation.diffs|..] == HunkPiece(cc, differ, olds, news, h)
    ensures r.substantive[|computation.substantive|..] == HunkRanges(cc, differ, olds, news, isAi, h)
  {
    hide *;
    ghost var piece: seq<ByteDiff>, more: seq<Range>;
    ChainAdvances(ops, i0, j0, i, j);
    ByteRangeIsSpan(olds, i0, i);
    ByteRangeIsSpan(news, j0, j);
    var oldStartLine, oldEndLine := HunkLineBounds(ops, true, i0, j0, i, j);
    var newStartLine, newEndLine := HunkLineBounds(ops, false, i0, j0, i, j);
    var (oldStart, oldEnd) := LineRangeToByteRange(oldLines, oldStartLine, oldEndLine, |olds|);
    var (newStart, newEnd) := LineRangeToByteRange(newLines, newStartLine, newEndLine, |news|);

    if isAi {
      piece, more, h := RangeDiffs(olds, news, oldStart, oldEnd, newStart, newEnd, true), [],
                        HunkRecord(oldStart, oldEnd, newStart, newEnd, true);
      var diffs := AppendRangeDiffs(computation.diffs, olds, news, oldStart, oldEnd, newStart, newEnd, true);
      r := DiffComputation(diffs, computation.substantive);
      assert computation.substantive + [] == computation.substantive;
      LineSplitProcessed(cc, differ, olds, news, isAi, |ops|, i0, j0, i, j, h, piece, more);
      LineSplitPiece(cc, differ, olds, news, isAi, h, piece, more);
    } else if ShouldUseLineAlignedHunkDiff(|ops|, oldEndLine - oldStartLine, newEndLine - newStartLine,
                                           oldEnd - oldStart, newEnd - newStart) {
      piece, more, h := RangeDiffs(olds, news, oldStart, oldEnd, newStart, newEnd, true), [],
                        HunkRecord(oldStart, oldEnd, newStart, newEnd, true);
      var diffs := AppendRangeDiffs(computation.diffs, olds, news, oldStart, oldEnd, newStart, newEnd, true);
      var substantive := computation.substantive;
      assert substantive + [] == substantive;
      if newStart < newEnd && !DataIsWhitespace(cc, news[newStart..newEnd]) {
        more := [(newStart, newEnd)];
        substantive := substantive + [(newStart, newEnd)];
      }
      LineSplitProcessed(cc, differ, olds, news, isAi, |ops|, i0, j0, i, j, h, piece, more);
      LineSplitPiece(cc, differ, olds, news, isAi, h, piece, more);
      r := DiffComputation(diffs, substantive);
    } else {
      var hunkDiffs, substantiveRanges :=
        BuildTokenAlignedDiffs(cc, differ, olds, news, oldStart, oldEnd, newStart, newEnd);
      piece, more := hunkDiffs, substantiveRanges;
      h := HunkRecord(oldStart, oldEnd, newStart, newEnd, false);
      TokenSplitProcessed(cc, differ, olds, news, |ops|, i0, j0, i, j, h, piece, more);
      TokenSplitPiece(cc, differ, olds, news, h);
      r := DiffComputation(computation.diffs + hunkDiffs, computation.substantive + substantiveRanges);
    }
    ExtendedBy(computation, piece, more);
  }

  // ----- The whole text -----

  /** The inputs of one run, with the line ops. */
  datatype Job = Job(cc: CharClass, differ: D.Differ, olds: string, news: string, isAi: bool, ops: seq<D.DiffOp>)

  ghost function JobOf(cc: CharClass, differ: D.Differ, olds: string, news: string, isAi: bool): Job
    requires D.HonestDiffer(differ)
  {
    Job(cc, differ, olds, news, isAi, D.DiffSpec(differ, Lines(olds), Lines(news)))
  }

  /** The ops `[s, e)` are a maximal run of changed ops: one changed hunk. */
  ghost predicate ChangedRun(ops: seq<D.DiffOp>, s: nat, e: nat) {
    && s < e <= |ops|
    && (forall k | s <= k < e :: !ops[k].Equal?)
    && (s == 0 || ops[s - 1].Equal?)
    && (e == |ops| || ops[e].Equal?)
  }

  /** The text of a changed run, from the first line of its ops to the last, and how it is split. */
  ghost function RunHunk(job: Job, s: nat, e: nat): HunkRecord
    requires s < e <= |job.ops|
  {
    var i0, i := D.SpanOf(job.ops[s], true).0, D.SpanOf(job.ops[e - 1], true).1;
    var j0, j := D.SpanOf(job.ops[s], false).0, D.SpanOf(job.ops[e - 1], false).1;
    var a, a' := LineStart(job.olds, i0), LineStart(job.olds, i);
    var b, b' := LineStart(job.news, j0), LineStart(job.news, j);
    HunkRecord(a, a', b, b', job.isAi || ShouldUseLineAlignedHunkDiff(e - s, i - i0, j - j0, a' - a, b' - b))
  }

  /** The text `[lo, hi)` of the new side lies in one changed run. */
  ghost predicate InRun(job: Job, lo: nat, hi: nat) {
    exists s: nat, e: nat :: ChangedRun(job.ops, s, e) && RunHunk(job, s, e).b <= lo && hi <= RunHunk(job, s, e).b'
  }

  /** Only one changed run ends in `(s, e]`, where `s` is its start. */
  lemma {:induction false} RunsUpTo(ops: seq<D.DiffOp>, s: nat, e: nat, s': nat, e': nat)
    requires ChangedRun(ops, s, e) && ChangedRun(ops, s', e') && e' <= e
    ensures e' <= s || (s' == s && e' == e)
  {
    assert s' == s || s == 0 || s' == 0 || (ops[s - 1].Equal? && ops[s' - 1].Equal?);
  }

  /**
   * New line `k`.  Paired with old line `o` it is copied from it.  Otherwise an AI checkpoint
   * inserts all of it, and a human one handles it in the changed run it lies in.
   */
  ghost predicate LineAccounted(job: Job, ds: seq<ByteDiff>, k: nat, source: Option<nat>) {
    && k < |LineRanges(job.news)|
    && var line := LineRanges(job.news)[k];
       match source
       case Some(o) => o < |LineRanges(job.olds)| && Copied(ds, 0, 0, line.0, line.1, LineRanges(job.olds)[o].0)
       case None => if job.isAi then Inserted(ds, 0, 0, line.0, line.1) else InRun(job, line.0, line.1)
  }

  /** The changed runs among the first `t` ops; they end before new position `n`. */
  ghost predicate RunsAccounted(job: Job, ds: seq<ByteDiff>, rs: seq<Range>, t: nat, n: nat) {
    !job.isAi ==>
      forall s: nat, e: nat | ChangedRun(job.ops, s, e) && e <= t :: RunAccounted(job, ds, rs, s, e, n)
  }

  ghost predicate RunAccounted(job: Job, ds: seq<ByteDiff>, rs: seq<Range>, s: nat, e: nat, n: nat)
    requires s < e <= |job.ops|
  {
    var h := RunHunk(job, s, e);
    h.b' <= n && HunkAccounted(job.cc, job.differ, job.olds, job.news, h, ds, 0, 0, rs)
  }

  /** The diffs cover the first `t` ops: the old lines before `i` and the new lines before `j`. */
  ghost predicate LinesDone(job: Job, ds: seq<ByteDiff>, rs: seq<Range>, t: nat, i: nat, j: nat) {
    && i <= |LineRanges(job.olds)| && j <= |LineRanges(job.news)|
    && Rewrites(ds, job.olds, 0, LineStart(job.olds, i), job.news, 0, LineStart(job.news, j))
    && InsertedRanges(ds, 0, 0, LineStart(job.news, j), rs)
    && (forall k | 0 <= k < j :: LineAccounted(job, ds, k, D.OpCounterpart(job.ops, k)))
    && RunsAccounted(job, ds, rs, t, LineStart(job.news, j))
    && NoEmpty(ds)
  }

  /** What two scripts and two lists of ranges say about `[lo, hi)` is the same. */
  ghost predicate SameIn(lo: nat, hi: nat, ds: seq<ByteDiff>, da: nat, db: nat, rs: seq<Range>,
                         ds': seq<ByteDiff>, da': nat, db': nat, rs': seq<Range>)
  {
    && (forall p: nat | lo <= p < hi ::
          && SourceAt(ds', p, da', db') == SourceAt(ds, p, da, db)
          && InsertAt(ds', p, da', db') == InsertAt(ds, p, da, db)
          && (InSome(rs', p) <==> InSome(rs, p)))
    && forall lo': nat, hi': nat | CoveredBy(rs, lo', hi') :: CoveredBy(rs', lo', hi')
  }

  lemma {:induction false} HunkTransfer(cc: CharClass, differ: D.Differ, olds: string, news: string, h: HunkRecord,
                                        ds: seq<ByteDiff>, da: nat, db: nat, rs: seq<Range>,
                                        ds': seq<ByteDiff>, da': nat, db': nat, rs': seq<Range>)
    requires HunkAccounted(cc, differ, olds, news, h, ds, da, db, rs)
    requires SameIn(h.b, h.b', ds, da, db, rs, ds', da', db', rs')
    ensures HunkAccounted(cc, differ, olds, news, h, ds', da', db', rs')
  {
    if h.lineAligned {
      hide SourceAt, InsertAt, InSome, CoveredBy, DataIsWhitespace;
    } else {
      hide TokenHunkAccounted, GapsAccounted, SameIn;
      TokenHunkTransfer(cc, differ, olds, news, h, ds, da, db, rs, ds', da', db', rs');
    }
  }

  lemma {:induction false} TokenHunkTransfer(cc: CharClass, differ: D.Differ, olds: string, news: string,
                                             h: HunkRecord, ds: seq<ByteDiff>, da: nat, db: nat, rs: seq<Range>,
                                             ds': seq<ByteDiff>, da': nat, db': nat, rs': seq<Range>)
    requires h.a' <= |olds| && h.b <= h.b' <= |news|
    requires TokenHunkAccounted(differ, ds, da, db, rs, Tokens(cc, olds, h.a, h.a'), Tokens(cc, news, h.b, h.b'))
    requires GapsAccounted(HunkTexts(cc, olds, h.a, h.a', news, h.b, h.b'), differ, ds, da, db, rs)
    requires SameIn(h.b, h.b', ds, da, db, rs, ds', da', db', rs')
    ensures TokenHunkAccounted(differ, ds', da', db', rs', Tokens(cc, olds, h.a, h.a'), Tokens(cc, news, h.b, h.b'))
    ensures GapsAccounted(HunkTexts(cc, olds, h.a, h.a', news, h.b, h.b'), differ, ds', da', db', rs')
  {
    var oldToks, newToks := Tokens(cc, olds, h.a, h.a'), Tokens(cc, news, h.b, h.b');
    TokensTokenize(cc, news, h.b, h.b');
    TokenizesOrdered(cc, news, newToks, h.b, h.b');
    var w := HunkTexts(cc, olds, h.a, h.a', news, h.b, h.b');
    hide TokenHunkAccounted, GapsAccounted, Tokens, SourceAt, InsertAt, InSome, CoveredBy, OrderedTokens, Tokenizes;
    TokensTransfer(differ, ds, da, db, rs, ds', da', db', rs', oldToks, newToks, news, h.b, h.b');
    GapsTransfer(w, differ, ds, da, db, rs, ds', da', db', rs');
  }

  lemma {:induction false} GapsTransfer(w: Work, differ: D.Differ, ds: seq<ByteDiff>, da: nat, db: nat, rs: seq<Range>,
                                        ds': seq<ByteDiff>, da': nat, db': nat, rs': seq<Range>)
    requires GapsAccounted(w, differ, ds, da, db, rs) && w.b <= w.b' && OrderedTokens(w.news, w.newToks, w.b, w.b')
    requires SameIn(w.b, w.b', ds, da, db, rs, ds', da', db', rs')
    ensures GapsAccounted(w, differ, ds', da', db', rs')
  {
    var hunks := differ(Lexemes(w.oldToks), Lexemes(w.newToks));
    hide Lexemes, PartnerBefore, RoleAt, GapAccounted, SameIn, OrderedTokens;
    forall k: nat | k <= |w.newToks|
      ensures GapAccounted(w, ds', da', db', rs', k, PartnerBefore(hunks, k), RoleAt(hunks, |w.newToks|, k))
    {
      GapInside(w, k);
      GapTransfer(w, ds, da, db, rs, ds', da', db', rs', k, PartnerBefore(hunks, k), RoleAt(hunks, |w.newToks|, k));
    }
  }

  lemma {:induction false} GapInside(w: Work, k: nat)
    requires w.b <= w.b' && OrderedTokens(w.news, w.newToks, w.b, w.b') && k <= |w.newToks|
    ensures w.b <= GapStart(w.newToks, w.b, k) <= GapEnd(w.newToks, w.b', k) <= w.b'
  {
  }

  lemma {:induction false} GapTransfer(w: Work, ds: seq<ByteDiff>, da: nat, db: nat, rs: seq<Range>,
                                       ds': seq<ByteDiff>, da': nat, db': nat, rs': seq<Range>, k: nat,
                                       before: Option<nat>, role: D.Role)
    requires GapAccounted(w, ds, da, db, rs, k, before, role)
    requires w.b <= GapStart(w.newToks, w.b, k) && GapEnd(w.newToks, w.b', k) <= w.b'
    requires SameIn(w.b, w.b', ds, da, db, rs, ds', da', db', rs')
    ensures GapAccounted(w, ds', da', db', rs', k, before, role)
  {
    hide SourceAt, InsertAt, InSome, CoveredBy, SameText, PassesAt;
  }

  lemma {:induction false} TokensTransfer(differ: D.Differ, ds: seq<ByteDiff>, da: nat, db: nat, rs: seq<Range>,
                                          ds': seq<ByteDiff>, da': nat, db': nat, rs': seq<Range>,
                                          oldToks: seq<Token>, newToks: seq<Token>, news: string, b: nat, b': nat)
    requires TokenHunkAccounted(differ, ds, da, db, rs, oldToks, newToks) && OrderedTokens(news, newToks, b, b')
    requires SameIn(b, b', ds, da, db, rs, ds', da', db', rs')
    ensures TokenHunkAccounted(differ, ds', da', db', rs', oldToks, newToks)
  {
    hide SourceAt, InsertAt, InSome, CoveredBy, Lexemes;
    var hunks := differ(Lexemes(oldToks), Lexemes(newToks));
    forall k | 0 <= k < |newToks|
      ensures TokenAccounted(ds', da', db', rs', oldToks, newToks[k], D.Counterpart(hunks, k))
    {
      assert TokenAccounted(ds, da, db, rs, oldToks, newToks[k], D.Counterpart(hunks, k));
    }
  }

  lemma {:induction false} LineBounds(c: string, k: nat)
    requires k < |LineRanges(c)|
    ensures LineRanges(c)[k] == (LineStart(c, k), LineStart(c, k + 1))
    ensures LineStart(c, k) < LineStart(c, k + 1) <= |c|
    ensures forall n | k < n <= |LineRanges(c)| :: LineStart(c, k + 1) <= LineStart(c, n) <= |c|
  {
    LineRangesPartition(c, 0);
    assert StartOf(LineRanges(c), |c|, k + 1) == LineRanges(c)[k].1;
    forall n | k < n <= |LineRanges(c)|
      ensures LineStart(c, k + 1) <= LineStart(c, n) <= |c|
    {
      StartMonotone(c, k + 1, n);
    }
  }

  lemma {:induction false} LineTransfer(job: Job, ds: seq<ByteDiff>, k: nat,
                                        source: Option<nat>, ds': seq<ByteDiff>, n: nat)
    requires LineAccounted(job, ds, k, source) && LineRanges(job.news)[k].1 <= n
    requires forall p: nat | p < n :: SourceAt(ds', p, 0, 0) == SourceAt(ds, p, 0, 0)
    ensures LineAccounted(job, ds', k, source)
  {
    hide SourceAt, LineRanges;
  }

  /** Appending a piece keeps the account of everything before it. */
  lemma {:induction false} LinesExtend(job: Job, ds: seq<ByteDiff>, rs: seq<Range>, t: nat, i: nat,
                                       j: nat, piece: seq<ByteDiff>, i': nat, j': nat)
    requires LinesDone(job, ds, rs, t, i, j)
    requires i' <= |LineRanges(job.olds)| && j <= j' <= |LineRanges(job.news)|
    requires Rewrites(piece, job.olds, LineStart(job.olds, i), LineStart(job.olds, i'),
                      job.news, LineStart(job.news, j), LineStart(job.news, j')) && NoEmpty(piece)
    ensures NoEmpty(ds + piece)
    ensures Rewrites(ds + piece, job.olds, 0, LineStart(job.olds, i'), job.news, 0, LineStart(job.news, j'))
    ensures InsertedRanges(ds + piece, 0, 0, LineStart(job.news, j'), rs)
    ensures forall k | 0 <= k < j :: LineAccounted(job, ds + piece, k, D.OpCounterpart(job.ops, k))
    ensures RunsAccounted(job, ds + piece, rs, t, LineStart(job.news, j))
    ensures RunsAccounted(job, ds + piece, rs, t, LineStart(job.news, j'))
    ensures forall p: nat | LineStart(job.news, j) <= p ::
              && SourceAt(ds + piece, p, 0, 0) == SourceAt(piece, p, LineStart(job.olds, i), LineStart(job.news, j))
              && InsertAt(ds + piece, p, 0, 0) == InsertAt(piece, p, LineStart(job.olds, i), LineStart(job.news, j))
  {
    var m, n := LineStart(job.olds, i), LineStart(job.news, j);
    var m', n' := LineStart(job.olds, i'), LineStart(job.news, j');
    RewritesAppend(ds, piece, job.olds, 0, m, m', job.news, 0, n, n');
    assert forall p: nat | p < n ::
        && SourceAt(ds + piece, p, 0, 0) == SourceAt(ds, p, 0, 0)
        && InsertAt(ds + piece, p, 0, 0) == InsertAt(ds, p, 0, 0);
    hide LineStart, LineRanges, D.OpCounterpart, SourceAt, InsertAt, LineAccounted;
    forall k | 0 <= k < j
      ensures LineAccounted(job, ds + piece, k, D.OpCounterpart(job.ops, k))
    {
      assert LineAccounted(job, ds, k, D.OpCounterpart(job.ops, k));
      LineBounds(job.news, k);
      LineTransfer(job, ds, k, D.OpCounterpart(job.ops, k), ds + piece, n);
    }
    forall r | r in rs
      ensures 0 <= r.0 < r.1 <= n' && Inserted(ds + piece, 0, 0, r.0, r.1)
    {
      assert Inserted(ds, 0, 0, r.0, r.1);
    }
    assert SameIn(0, n, ds, 0, 0, rs, ds + piece, 0, 0, rs);
    hide SameIn;
    RunsTransfer(job, ds, rs, t, n, ds + piece, rs, n);
    RunsTransfer(job, ds, rs, t, n, ds + piece, rs, n');
  }

  /** What `push_equal_lines` adds. */
  function EqualPiece(olds: string, a: nat, a': nat): seq<ByteDiff>
    requires a <= a' <= |olds|
  {
    if a < a' then [ByteDiff(Equal, olds[a..a'])] else []
  }

  lemma {:induction false} EqualPieceRewrites(olds: string, a: nat, a': nat, news: string, b: nat, b': nat)
    requires a <= a' <= |olds| && b <= b' <= |news| && olds[a..a'] == news[b..b']
    ensures Rewrites(EqualPiece(olds, a, a'), olds, a, a', news, b, b') && NoEmpty(EqualPiece(olds, a, a'))
    ensures forall p: nat | b <= p < b' :: SourceAt(EqualPiece(olds, a, a'), p, a, b) == Some(a + (p - b))
  {
    assert |olds[a..a']| == |news[b..b']|;
    if a < a' {
      OneRewrites(ByteDiff(Equal, olds[a..a']), olds, a, a', news, b, b');
    }
  }

  /** Equal lines start at the same distance from the start of their block. */
  lemma {:induction false} EqualLineOffsets(olds: string, news: string, i: nat, j: nat, n: nat, k: nat)
    requires i + n <= |Lines(olds)| && j + n <= |Lines(news)| && k <= n
    requires Lines(olds)[i..i + n] == Lines(news)[j..j + n]
    ensures LineStart(olds, i) <= LineStart(olds, i + k) && LineStart(news, j) <= LineStart(news, j + k)
    ensures LineStart(olds, i + k) - LineStart(olds, i) == LineStart(news, j + k) - LineStart(news, j)
  {
    assert Lines(olds)[i..i + k] == Lines(olds)[i..i + n][..k];
    assert Lines(news)[j..j + k] == Lines(news)[j..j + n][..k];
    EqualLinesEqualText(olds, news, i, j, k);
    hide *;
    SameSliceSameLength(olds, LineStart(olds, i), LineStart(olds, i + k), news, LineStart(news, j), LineStart(news,
                        j + k));
  }

  lemma {:induction false} SameSliceSameLength(a: string, i: nat, i': nat, b: string, j: nat, j': nat)
    requires i <= i' <= |a| && j <= j' <= |b| && a[i..i'] == b[j..j']
    ensures i' - i == j' - j
  {
    assert |a[i..i']| == i' - i && |b[j..j']| == j' - j;
  }

  /** Where a line inside a block of equal lines starts and ends, on both sides. */
  lemma {:induction false} EqualLinePosition(olds: string, news: string, i: nat, j: nat, n: nat, k: nat)
    requires i + n <= |Lines(olds)| && j + n <= |Lines(news)| && j <= k < j + n
    requires Lines(olds)[i..i + n] == Lines(news)[j..j + n]
    ensures var line := LineRanges(news)[k];
            && LineStart(news, j) <= line.0 && line.1 <= LineStart(news, j + n)
            && LineRanges(olds)[i + (k - j)].0 == LineStart(olds, i) + (line.0 - LineStart(news, j))
  {
    hide *;
    EqualLineOffsets(olds, news, i, j, n, k - j);
    LineBounds(news, k);
    LineBounds(olds, i + (k - j));
  }

  /** A line inside a copied block is copied from the line it is paired with. */
  lemma {:induction false} CopiedLine(job: Job, ds: seq<ByteDiff>, i: nat, j: nat, n: nat,
                                      k: nat)
    requires i + n <= |Lines(job.olds)| && j + n <= |Lines(job.news)|
    requires Lines(job.olds)[i..i + n] == Lines(job.news)[j..j + n]
    requires j <= k < j + n && D.OpCounterpart(job.ops, k) == Some(i + (k - j))
    requires forall p: nat | LineStart(job.news, j) <= p < LineStart(job.news, j + n) ::
               SourceAt(ds, p, 0, 0) == Some(LineStart(job.olds, i) + (p - LineStart(job.news, j)))
    ensures LineAccounted(job, ds, k, D.OpCounterpart(job.ops, k))
  {
    hide LineStart, LineRanges, SourceAt, D.OpCounterpart;
    EqualLinePosition(job.olds, job.news, i, j, n, k);
    hide Lines;
  }

  /** A block of equal lines is one Equal diff. */
  lemma {:induction false} EqualBlock(olds: string, news: string, i: nat, j: nat, n: nat)
    requires i + n <= |Lines(olds)| && j + n <= |Lines(news)|
    requires Lines(olds)[i..i + n] == Lines(news)[j..j + n]
    ensures var a, a', b, b' := LineStart(olds, i), LineStart(olds, i + n), LineStart(news, j), LineStart(news, j + n);
            && a <= a' <= |olds| && b <= b' <= |news|
            && Rewrites(EqualPiece(olds, a, a'), olds, a, a', news, b, b') && NoEmpty(EqualPiece(olds, a, a'))
            && forall p: nat | b <= p < b' :: SourceAt(EqualPiece(olds, a, a'), p, a, b) == Some(a + (p - b))
  {
    EqualLinesEqualText(olds, news, i, j, n);
    hide Rewrites, EqualPiece, SourceAt;
    EqualPieceRewrites(olds, LineStart(olds, i), LineStart(olds, i + n), news, LineStart(news, j), LineStart(news,
                       j + n));
  }

  lemma {:induction false} LinesDoneIntro(job: Job, ds: seq<ByteDiff>, rs: seq<Range>, t: nat, i: nat,
                                          j: nat)
    requires i <= |LineRanges(job.olds)| && j <= |LineRanges(job.news)|
    requires Rewrites(ds, job.olds, 0, LineStart(job.olds, i), job.news, 0, LineStart(job.news, j))
    requires InsertedRanges(ds, 0, 0, LineStart(job.news, j), rs)
    requires forall k | 0 <= k < j :: LineAccounted(job, ds, k, D.OpCounterpart(job.ops, k))
    requires RunsAccounted(job, ds, rs, t, LineStart(job.news, j)) && NoEmpty(ds)
    ensures LinesDone(job, ds, rs, t, i, j)
  {
  }

  /** An Equal op after the first `t` ops ends no changed run. */
  lemma {:induction false} NoRunEnds(job: Job, ds: seq<ByteDiff>, rs: seq<Range>, t: nat, n: nat)
    requires RunsAccounted(job, ds, rs, t, n) && t < |job.ops| && job.ops[t].Equal?
    ensures RunsAccounted(job, ds, rs, t + 1, n)
  {
    hide RunAccounted;
    forall s: nat, e: nat | ChangedRun(job.ops, s, e) && e <= t + 1 && !job.isAi
      ensures RunAccounted(job, ds, rs, s, e, n)
    {
      assert e <= t;
    }
  }

  /** `push_equal_lines`: the paired lines are copied. */
  lemma {:induction false} PushEqualLines(job: Job, ds: seq<ByteDiff>, rs: seq<Range>, t: nat,
                                          i: nat, j: nat, n: nat, a: nat, a': nat)
    requires LinesDone(job, ds, rs, t, i, j) && t < |job.ops| && job.ops[t].Equal?
    requires i + n <= |Lines(job.olds)| && j + n <= |Lines(job.news)|
    requires Lines(job.olds)[i..i + n] == Lines(job.news)[j..j + n]
    requires forall k: nat | j <= k < j + n :: D.OpCounterpart(job.ops, k) == Some(i + (k - j))
    requires a == LineStart(job.olds, i) && a' == LineStart(job.olds, i + n)
    requires a <= a' <= |job.olds|
    ensures LinesDone(job, ds + EqualPiece(job.olds, a, a'), rs, t + 1, i + n, j + n)
  {
    hide *;
    EqualBlock(job.olds, job.news, i, j, n);
    var piece := EqualPiece(job.olds, a, a');
    LinesExtend(job, ds, rs, t, i, j, piece, i + n, j + n);
    forall k | 0 <= k < j + n
      ensures LineAccounted(job, ds + piece, k, D.OpCounterpart(job.ops, k))
    {
      if k >= j {
        CopiedLine(job, ds + piece, i, j, n, k);
      }
    }
    NoRunEnds(job, ds + piece, rs, t, LineStart(job.news, j + n));
    LinesDoneIntro(job, ds + piece, rs, t + 1, i + n, j + n);
  }

  /** A processed hunk: its lines are inserted (AI) or accounted for by its run (human). */
  lemma {:induction false} PushHunk(job: Job, ds: seq<ByteDiff>, rs: seq<Range>, i0: nat, j0: nat, i: nat, j: nat,
                                    s: nat, e: nat, h: HunkRecord, piece: seq<ByteDiff>, more: seq<Range>)
    requires LinesDone(job, ds, rs, s, i0, j0)
    requires i0 <= i <= |LineRanges(job.olds)| && j0 <= j <= |LineRanges(job.news)|
    requires ChangedRun(job.ops, s, e) && h == RunHunk(job, s, e)
    requires HunkProcessed(job.cc, job.differ, job.olds, job.news, job.isAi, e - s, i0, j0, i, j, h, piece, more)
    requires forall k: nat | j0 <= k < j :: D.OpCounterpart(job.ops, k) == None
    ensures LinesDone(job, ds + piece, rs + more, e, i, j)
  {
    LinesExtend(job, ds, rs, s, i0, j0, piece, i, j);
    hide LineStart, LineRanges, D.OpCounterpart, SourceAt, InsertAt, Rewrites, HunkAccounted, RunHunk, ChangedRun;
    hide RunsAccounted, InRun;
    var ds' := ds + piece;
    forall k | 0 <= k < j
      ensures LineAccounted(job, ds', k, D.OpCounterpart(job.ops, k))
    {
      if j0 <= k {
        HunkLine(job, ds', s, e, j0, k, j);
      }
    }
    forall r | r in rs + more
      ensures 0 <= r.0 < r.1 <= h.b' && Inserted(ds', 0, 0, r.0, r.1)
    {
      if r !in rs {
        assert r in more && Inserted(piece, h.a, h.b, r.0, r.1);
      }
    }
    assert InsertedRanges(ds', 0, 0, h.b', rs + more);
    assert RangesSplit(rs, more, h.b);
    RunsStep(job, ds', rs, s, e, h, piece, more);
  }

  lemma {:induction false} HunkLine(job: Job, ds: seq<ByteDiff>, s: nat, e: nat, j0: nat, k: nat, j: nat)
    requires j0 <= k < j <= |LineRanges(job.news)| && ChangedRun(job.ops, s, e)
    requires RunHunk(job, s, e).b == LineStart(job.news, j0) && RunHunk(job, s, e).b' == LineStart(job.news, j)
    requires job.isAi ==> Inserted(ds, 0, 0, RunHunk(job, s, e).b, RunHunk(job, s, e).b')
    requires D.OpCounterpart(job.ops, k) == None
    ensures LineAccounted(job, ds, k, D.OpCounterpart(job.ops, k))
  {
    LineBounds(job.news, k);
    if j0 < k {
      LineBounds(job.news, j0);
    }
    hide LineStart, LineRanges, D.OpCounterpart, SourceAt, ChangedRun, RunHunk;
    var line := LineRanges(job.news)[k];
    assert RunHunk(job, s, e).b <= line.0 && line.1 <= RunHunk(job, s, e).b';
    assert !job.isAi ==> InRun(job, line.0, line.1);
  }

  /** The ranges of two lists together cover what either covers. */
  lemma {:induction false} CoveredByMore(rs: seq<Range>, more: seq<Range>)
    ensures forall lo: nat, hi: nat | CoveredBy(rs, lo, hi) || CoveredBy(more, lo, hi) :: CoveredBy(rs + more, lo, hi)
  {
    forall lo: nat, hi: nat | CoveredBy(rs, lo, hi) || CoveredBy(more, lo, hi) ensures CoveredBy(rs + more, lo, hi) {
      if CoveredBy(rs, lo, hi) {
        var r :| r in rs && r.0 <= lo && hi <= r.1;
        assert r in rs + more;
      } else {
        var r :| r in more && r.0 <= lo && hi <= r.1;
        assert r in rs + more;
      }
    }
  }

  /** What is known of the runs so far stays true while the script and the ranges grow. */
  lemma {:induction false} RunsTransfer(job: Job, ds: seq<ByteDiff>, rs: seq<Range>, t: nat, n: nat,
                                        ds': seq<ByteDiff>, rs': seq<Range>, n': nat)
    requires RunsAccounted(job, ds, rs, t, n) && n <= n' && SameIn(0, n, ds, 0, 0, rs, ds', 0, 0, rs')
    ensures RunsAccounted(job, ds', rs', t, n')
  {
    hide HunkAccounted, RunHunk, SameIn;
    forall s: nat, e: nat | ChangedRun(job.ops, s, e) && e <= t && !job.isAi
      ensures RunAccounted(job, ds', rs', s, e, n')
    {
      assert RunAccounted(job, ds, rs, s, e, n);
      SameInside(n, ds, rs, ds', rs', RunHunk(job, s, e).b, RunHunk(job, s, e).b');
      HunkTransfer(job.cc, job.differ, job.olds, job.news, RunHunk(job, s, e), ds, 0, 0, rs, ds', 0, 0, rs');
    }
  }

  lemma {:induction false} SameInside(n: nat, ds: seq<ByteDiff>, rs: seq<Range>, ds': seq<ByteDiff>, rs': seq<Range>,
                                      lo: nat, hi: nat)
    requires SameIn(0, n, ds, 0, 0, rs, ds', 0, 0, rs') && hi <= n
    ensures SameIn(lo, hi, ds, 0, 0, rs, ds', 0, 0, rs')
  {
    hide SourceAt, InsertAt, InSome, CoveredBy;
  }

  /** The ranges `rs` end where `more` starts. */
  ghost predicate RangesSplit(rs: seq<Range>, more: seq<Range>, n: nat) {
    (forall r | r in rs :: r.1 <= n) && (forall r | r in more :: n <= r.0)
  }

  lemma {:induction false} SplitSame(ds: seq<ByteDiff>, rs: seq<Range>, piece: seq<ByteDiff>, more: seq<Range>,
                                     h: HunkRecord)
    requires RangesSplit(rs, more, h.b)
    requires forall p: nat | h.b <= p ::
               && SourceAt(ds, p, 0, 0) == SourceAt(piece, p, h.a, h.b)
               && InsertAt(ds, p, 0, 0) == InsertAt(piece, p, h.a, h.b)
    ensures SameIn(0, h.b, ds, 0, 0, rs, ds, 0, 0, rs + more)
    ensures SameIn(h.b, h.b', piece, h.a, h.b, more, ds, 0, 0, rs + more)
  {
    CoveredByMore(rs, more);
    hide SourceAt, InsertAt, CoveredBy;
    forall p: nat
      ensures p < h.b ==> (InSome(rs + more, p) <==> InSome(rs, p))
      ensures p >= h.b ==> (InSome(rs + more, p) <==> InSome(more, p))
    {
      InSomeSplit(rs, more, h.b, p);
    }
  }

  lemma {:induction false} InSomeSplit(rs: seq<Range>, more: seq<Range>, n: nat, p: nat)
    requires RangesSplit(rs, more, n)
    ensures InSome(rs + more, p) <==> InSome(if p < n then rs else more, p)
  {
    var some := if p < n then rs else more;
    if InSome(some, p) {
      var r :| r in some && Contains(r, p);
      assert r in rs + more;
    }
    if InSome(rs + more, p) {
      var r :| r in rs + more && Contains(r, p);
      assert r in some;
    }
  }

  lemma {:induction false} RunsStep(job: Job, ds: seq<ByteDiff>, rs: seq<Range>, s: nat, e: nat, h: HunkRecord,
                                    piece: seq<ByteDiff>, more: seq<Range>)
    requires RunsAccounted(job, ds, rs, s, h.b) && ChangedRun(job.ops, s, e) && h == RunHunk(job, s, e)
    requires InsertedRanges(ds, 0, 0, h.b', rs + more) && RangesSplit(rs, more, h.b) && h.b <= h.b'
    requires !job.isAi ==> HunkAccounted(job.cc, job.differ, job.olds, job.news, h, piece, h.a, h.b, more)
    requires forall p: nat | h.b <= p ::
               && SourceAt(ds, p, 0, 0) == SourceAt(piece, p, h.a, h.b)
               && InsertAt(ds, p, 0, 0) == InsertAt(piece, p, h.a, h.b)
    ensures RunsAccounted(job, ds, rs + more, e, h.b')
  {
    SplitSame(ds, rs, piece, more, h);
    hide SourceAt, InsertAt, HunkAccounted, RunHunk, SameIn, RangesSplit, InsertedRanges;
    RunsTransfer(job, ds, rs, s, h.b, ds, rs + more, h.b');
    forall s': nat, e': nat | ChangedRun(job.ops, s', e') && e' <= e && !job.isAi
      ensures RunAccounted(job, ds, rs + more, s', e', h.b')
    {
      RunsUpTo(job.ops, s, e, s', e');
      if e' > s {
        HunkTransfer(job.cc, job.differ, job.olds, job.news, h, piece, h.a, h.b, more, ds, 0, 0, rs + more);
      }
    }
  }

  lemma {:induction false} NoLinesDone(job: Job)
    ensures LinesDone(job, [], [], 0, 0, 0)
  {
    LineRangesPartition(job.olds, 0);
    LineRangesPartition(job.news, 0);
    hide LineRanges, HunkAccounted, RunHunk;
  }

  // ----- The whole text as a function -----

  /** What an Equal op adds. */
  ghost function KeptPiece(olds: string, op: D.DiffOp): seq<ByteDiff>
    requires op.Equal?
  {
    var a, a' := LineStart(olds, op.oldIndex), LineStart(olds, op.oldIndex + op.len);
    if a <= a' <= |olds| then EqualPiece(olds, a, a') else []
  }

  /** The first of the changed ops that end before op `t`. */
  ghost function RunStart(ops: seq<D.DiffOp>, t: nat): (s: nat)
    requires t <= |ops|
    ensures s <= t && (t > 0 && !ops[t - 1].Equal? ==> s < t)
  {
    if t > 0 && !ops[t - 1].Equal? then RunStart(ops, t - 1) else t
  }

  lemma {:induction false} RunStartOf(ops: seq<D.DiffOp>, s: nat, t: nat)
    requires s <= t <= |ops| && (s == 0 || ops[s - 1].Equal?) && forall k | s <= k < t :: !ops[k].Equal?
    ensures RunStart(ops, t) == s
  {
    if s < t {
      RunStartOf(ops, s, t - 1);
    }
  }

  /** The diffs and the substantive ranges of the first `t` ops, where those end a run or follow an Equal op. */
  ghost function Written(job: Job, t: nat): DiffComputation
    requires D.HonestDiffer(job.differ) && t <= |job.ops|
  {
    if t == 0 then DiffComputation([], [])
    else if job.ops[t - 1].Equal? then
      var before := Written(job, t - 1);
      before.(diffs := before.diffs + KeptPiece(job.olds, job.ops[t - 1]))
    else
      var s := RunStart(job.ops, t);
      var before, h := Written(job, s), RunHunk(job, s, t);
      DiffComputation(before.diffs + HunkPiece(job.cc, job.differ, job.olds, job.news, h),
                      before.substantive + HunkRanges(job.cc, job.differ, job.olds, job.news, job.isAi, h))
  }

  lemma {:induction false} WrittenKept(job: Job, t: nat, a: nat, a': nat)
    requires D.HonestDiffer(job.differ) && t < |job.ops| && job.ops[t].Equal?
    requires a == LineStart(job.olds, job.ops[t].oldIndex)
    requires a' == LineStart(job.olds, job.ops[t].oldIndex + job.ops[t].len) && a <= a' <= |job.olds|
    ensures var before := Written(job, t);
            Written(job, t + 1) == before.(diffs := before.diffs + EqualPiece(job.olds, a, a'))
  {
    hide LineStart, EqualPiece, D.HonestDiffer;
  }

  lemma {:induction false} WrittenRun(job: Job, s: nat, t: nat)
    requires D.HonestDiffer(job.differ) && ChangedRun(job.ops, s, t)
    ensures var before, h := Written(job, s), RunHunk(job, s, t);
            Written(job, t)
            == DiffComputation(before.diffs + HunkPiece(job.cc, job.differ, job.olds, job.news, h),
                               before.substantive + HunkRanges(job.cc, job.differ, job.olds, job.news, job.isAi, h))
  {
    RunStartOf(job.ops, s, t);
    hide RunHunk, HunkPiece, HunkRanges, D.HonestDiffer;
  }

  /** The script of a run and its substantive ranges, determined by the texts and the library's answers. */
  ghost predicate DiffsAre(cc: CharClass, differ: D.Differ, olds: string, news: string, isAi: bool,
                           ds: seq<ByteDiff>, rs: seq<Range>)
    requires D.HonestDiffer(differ)
  {
    var job := JobOf(cc, differ, olds, news, isAi);
    ds == Written(job, |job.ops|).diffs && IsMergeOf(rs, Written(job, |job.ops|).substantive)
  }

  lemma {:induction false} DiffsAreIntro(cc: CharClass, differ: D.Differ, olds: string, news: string, isAi: bool,
                                         c: DiffComputation, merged: seq<Range>)
    requires D.HonestDiffer(differ)
    requires var job := JobOf(cc, differ, olds, news, isAi); c == Written(job, |job.ops|)
    requires IsMergeOf(merged, c.substantive)
    ensures DiffsAre(cc, differ, olds, news, isAi, c.diffs, merged)
  {
    hide IsMergeOf, Written, JobOf, D.HonestDiffer;
  }

  /** The contract of `compute_diffs`, line by line and changed run by changed run. */
  ghost predicate DiffsComputed(cc: CharClass, differ: D.Differ, olds: string, news: string, isAi: bool,
                                ds: seq<ByteDiff>, rs: seq<Range>)
    requires D.HonestDiffer(differ)
  {
    var job := JobOf(cc, differ, olds, news, isAi);
    && IsScript(ds, olds, news) && NoEmpty(ds)
    && InsertedRanges(ds, 0, 0, |news|, rs)
    && (forall k | 0 <= k < |Lines(news)| ::
          LineAccounted(job, ds, k, D.Counterpart(differ(Lines(olds), Lines(news)), k)))
    && RunsAccounted(job, ds, rs, |job.ops|, |news|)
  }

  lemma {:induction false} AllLinesDone(job: Job, ds: seq<ByteDiff>, rs: seq<Range>)
    requires D.HonestDiffer(job.differ) && job == JobOf(job.cc, job.differ, job.olds, job.news, job.isAi)
    requires LinesDone(job, ds, rs, |job.ops|, |Lines(job.olds)|, |Lines(job.news)|)
    ensures DiffsComputed(job.cc, job.differ, job.olds, job.news, job.isAi, ds, rs)
  {
    RewritesAll(ds, job.olds, job.news);
    var olds, news := Lines(job.olds), Lines(job.news);
    hide Lines, LineRanges, Rewrites, IsScript, SourceAt, InsertedRanges, RunsAccounted;
    assert D.ValidHunks(olds, news, job.differ(olds, news));
    forall k | 0 <= k < |news|
      ensures LineAccounted(job, ds, k, D.Counterpart(job.differ(olds, news), k))
    {
      D.CounterpartOfOps(olds, news, job.differ(olds, news), k, 0);
      assert LineAccounted(job, ds, k, D.OpCounterpart(job.ops, k));
    }
  }

  /** Merging the substantive ranges loses nothing that was said with them. */
  lemma {:induction false} MergeKeepsAccount(cc: CharClass, differ: D.Differ, olds: string, news: string, isAi: bool,
                                             ds: seq<ByteDiff>, rs: seq<Range>, merged: seq<Range>)
    requires D.HonestDiffer(differ)
    requires DiffsComputed(cc, differ, olds, news, isAi, ds, rs) && IsMergeOf(merged, rs)
    ensures DiffsComputed(cc, differ, olds, news, isAi, ds, merged)
  {
    hide IsScript, LineAccounted, SourceAt, InsertAt, RunsAccounted, Lines;
    MergedInserted(ds, |news|, rs, merged);
    forall lo: nat, hi: nat | CoveredBy(rs, lo, hi) ensures CoveredBy(merged, lo, hi) {
      var r :| r in rs && r.0 <= lo && hi <= r.1;
      assert CoveredBy(merged, r.0, r.1);
      var m :| m in merged && m.0 <= r.0 && r.1 <= m.1;
      assert m.0 <= lo && hi <= m.1;
    }
    var job := JobOf(cc, differ, olds, news, isAi);
    assert SameIn(0, |news|, ds, 0, 0, rs, ds, 0, 0, merged);
    hide SameIn;
    RunsTransfer(job, ds, rs, |job.ops|, |news|, ds, merged, |news|);
  }

  lemma {:induction false} PointInserted(ds: seq<ByteDiff>, n: nat, rs: seq<Range>, p: nat)
    requires InsertedRanges(ds, 0, 0, n, rs) && InSome(rs, p)
    ensures p < n && SourceAt(ds, p, 0, 0) == None
  {
    hide SourceAt;
    var r :| r in rs && Contains(r, p);
    assert Inserted(ds, 0, 0, r.0, r.1);
  }

  lemma {:induction false} MergedInserted(ds: seq<ByteDiff>, n: nat, rs: seq<Range>, merged: seq<Range>)
    requires InsertedRanges(ds, 0, 0, n, rs) && IsMergeOf(merged, rs)
    ensures InsertedRanges(ds, 0, 0, n, merged)
  {
    hide SourceAt;
    forall m | m in merged
      ensures m.0 < m.1 <= n && Inserted(ds, 0, 0, m.0, m.1)
    {
      var i :| 0 <= i < |merged| && merged[i] == m;
      forall p: nat | m.0 <= p < m.1
        ensures p < n && SourceAt(ds, p, 0, 0) == None
      {
        assert Contains(m, p) && InSome(merged, p);
        PointInserted(ds, n, rs, p);
      }
      assert SourceAt(ds, m.1 - 1, 0, 0) == None;
    }
  }

  /** The ops in `pending` are the changed ops from number `s` on, before number `t`; they start at line `(i0, j0)`. */
  ghost predicate Pending(pending: seq<D.DiffOp>, ops: seq<D.DiffOp>, s: nat, t: nat, i0: nat, j0: nat, i: nat,
                          j: nat)
  {
    && s <= t <= |ops| && pending == ops[s..t] && (s == 0 || ops[s - 1].Equal?)
    && (forall k | s <= k < t :: !ops[k].Equal?)
    && Chain(pending, i0, j0, i, j)
    && forall k: nat | j0 <= k < j :: D.OpCounterpart(ops, k) == None
  }

  lemma {:induction false} PendingPush(pending: seq<D.DiffOp>, ops: seq<D.DiffOp>, s: nat, t: nat, i0: nat, j0: nat,
                                       i: nat, j: nat)
    requires Pending(pending, ops, s, t, i0, j0, i, j) && t < |ops| && !ops[t].Equal?
    requires D.SpanOf(ops[t], true).0 == i && D.SpanOf(ops[t], false).0 == j
    requires forall k: nat | j <= k < D.SpanOf(ops[t], false).1 :: D.OpCounterpart(ops, k) == None
    ensures Pending(pending + [ops[t]], ops, s, t + 1, i0, j0, D.SpanOf(ops[t], true).1, D.SpanOf(ops[t], false).1)
  {
    hide D.OpCounterpart, Chain;
    ChainAppend(pending, ops[t], i0, j0, i, j);
    assert ops[s..t] + [ops[t]] == ops[s..t + 1];
  }

  lemma {:induction false} NothingPending(ops: seq<D.DiffOp>, t: nat, i: nat, j: nat)
    requires t <= |ops| && (t == 0 || ops[t - 1].Equal?)
    ensures Pending([], ops, t, t, i, j, i, j)
  {
  }

  /** Pending ops that the next op, or the end, closes are a changed run; its first and last lines are known. */
  lemma {:induction false} PendingRun(job: Job, pending: seq<D.DiffOp>, s: nat, t: nat, i0: nat, j0: nat, i: nat,
                                      j: nat, h: HunkRecord, piece: seq<ByteDiff>, more: seq<Range>)
    requires Pending(pending, job.ops, s, t, i0, j0, i, j) && pending != [] && (t == |job.ops| || job.ops[t].Equal?)
    requires HunkProcessed(job.cc, job.differ, job.olds, job.news, job.isAi, |pending|, i0, j0, i, j, h, piece, more)
    ensures ChangedRun(job.ops, s, t) && h == RunHunk(job, s, t) && |pending| == t - s
  {
    PendingEnds(pending, job.ops, s, t, i0, j0, i, j);
    hide *;
    HunkOfRun(job, s, t, i0, j0, i, j, h, piece, more);
  }

  lemma {:induction false} PendingEnds(pending: seq<D.DiffOp>, ops: seq<D.DiffOp>, s: nat, t: nat, i0: nat, j0: nat,
                                       i: nat, j: nat)
    requires Pending(pending, ops, s, t, i0, j0, i, j) && pending != [] && (t == |ops| || ops[t].Equal?)
    ensures ChangedRun(ops, s, t) && |pending| == t - s
    ensures D.SpanOf(ops[s], true).0 == i0 && D.SpanOf(ops[s], false).0 == j0
    ensures D.SpanOf(ops[t - 1], true).1 == i && D.SpanOf(ops[t - 1], false).1 == j
  {
    ChainPrefix(pending, 1, i0, j0, i, j);
    ChainPrefix(pending, |pending|, i0, j0, i, j);
    hide Chain, D.OpCounterpart, D.SpanOf;
    assert pending[0] == ops[s] && pending[|pending| - 1] == ops[t - 1];
  }

  lemma {:induction false} HunkOfRun(job: Job, s: nat, e: nat, i0: nat, j0: nat, i: nat, j: nat, h: HunkRecord,
                                     piece: seq<ByteDiff>, more: seq<Range>)
    requires s < e <= |job.ops|
    requires D.SpanOf(job.ops[s], true).0 == i0 && D.SpanOf(job.ops[s], false).0 == j0
    requires D.SpanOf(job.ops[e - 1], true).1 == i && D.SpanOf(job.ops[e - 1], false).1 == j
    requires HunkProcessed(job.cc, job.differ, job.olds, job.news, job.isAi, e - s, i0, j0, i, j, h, piece, more)
    ensures h == RunHunk(job, s, e)
  {
    hide D.SpanOf, LineStart, Rewrites, InsertedRanges, HunkAccounted, ShouldUseLineAlignedHunkDiff, Inserted;
  }

  lemma {:induction false} PushPending(job: Job, pending: seq<D.DiffOp>, ds: seq<ByteDiff>, rs: seq<Range>,
                                       s: nat, t: nat, i0: nat, j0: nat, i: nat, j: nat,
                                       h: HunkRecord, piece: seq<ByteDiff>, more: seq<Range>)
    requires Pending(pending, job.ops, s, t, i0, j0, i, j) && LinesDone(job, ds, rs, s, i0, j0)
    requires pending != [] && (t == |job.ops| || job.ops[t].Equal?)
    requires i <= |LineRanges(job.olds)| && j <= |LineRanges(job.news)|
    requires HunkProcessed(job.cc, job.differ, job.olds, job.news, job.isAi, |pending|, i0, j0, i, j, h, piece, more)
    ensures LinesDone(job, ds + piece, rs + more, t, i, j)
  {
    PendingRun(job, pending, s, t, i0, j0, i, j, h, piece, more);
    hide LinesDone, HunkProcessed, LineRanges, RunHunk, ChangedRun;
    ChainAdvances(pending, i0, j0, i, j);
    PushHunk(job, ds, rs, i0, j0, i, j, s, t, h, piece, more);
  }

  lemma {:induction false} PendingChain(pending: seq<D.DiffOp>, ops: seq<D.DiffOp>, s: nat, t: nat, i0: nat, j0: nat,
                                        i: nat, j: nat)
    requires Pending(pending, ops, s, t, i0, j0, i, j)
    ensures Chain(pending, i0, j0, i, j)
    ensures pending == [] ==> i0 == i && j0 == j && s == t
  {
  }

  lemma {:induction false} MergeIsSeparated(merged: seq<Range>, rs: seq<Range>)
    requires IsMergeOf(merged, rs)
    ensures Separated(merged)
  {
  }

  lemma {:induction false} OpSpans(before: seq<string>, after: seq<string>, op: D.DiffOp, i: nat, j: nat)
    requires D.OpFits(before, after, op, i, j)
    ensures D.SpanOf(op, true).0 == i && D.SpanOf(op, false).0 == j
    ensures op.Equal? ==>
              && op.oldIndex == i && D.SpanOf(op, true).1 == i + op.len && D.SpanOf(op, false).1 == j + op.len
              && i + op.len <= |before| && j + op.len <= |after|
              && before[i..i + op.len] == after[j..j + op.len]
  {
  }

  /** `push_equal_lines`. */
  method PushEqualLinesOp(op: D.DiffOp, oldLines: seq<LineMetadata>, olds: string, diffs: seq<ByteDiff>)
    returns (r: Result<seq<ByteDiff>, string>)
    requires oldLines == MetadataOf(olds, LineRanges(olds))
    requires op.Equal? ==> op.oldIndex + op.len <= |LineRanges(olds)|
    ensures !op.Equal? ==> r.Err?
    ensures op.Equal? ==>
              var a, a' := LineStart(olds, op.oldIndex), LineStart(olds, op.oldIndex + op.len);
              a <= a' <= |olds| && r == Ok(diffs + EqualPiece(olds, a, a'))
  {
    if !op.Equal? {
      return Err("Expected equal operation in push_equal_lines");
    }
    hide LineRangeToByteRange, LineStart, MetadataOf, LineRanges;
    ByteRangeIsSpan(olds, op.oldIndex, op.oldIndex + op.len);
    assert diffs + [] == diffs;
    if op.len == 0 {
      return Ok(diffs);
    }
    var (start, end) := LineRangeToByteRange(oldLines, op.oldIndex, op.oldIndex + op.len, |olds|);
    if start < end {
      return Ok(diffs + [ByteDiff(Equal, olds[start..end])]);
    }
    return Ok(diffs);
  }

  /** The computation after a pushed hunk. */
  lemma {:induction false} WrittenPush(job: Job, pending: seq<D.DiffOp>, s: nat, t: nat, i0: nat, j0: nat, i: nat,
                                       j: nat, h: HunkRecord, before: DiffComputation, piece: seq<ByteDiff>,
                                       more: seq<Range>)
    requires D.HonestDiffer(job.differ) && s <= |job.ops| && before == Written(job, s)
    requires Pending(pending, job.ops, s, t, i0, j0, i, j) && pending != [] && (t == |job.ops| || job.ops[t].Equal?)
    requires HunkProcessed(job.cc, job.differ, job.olds, job.news, job.isAi, |pending|, i0, j0, i, j, h, piece, more)
    requires piece == HunkPiece(job.cc, job.differ, job.olds, job.news, h)
    requires more == HunkRanges(job.cc, job.differ, job.olds, job.news, job.isAi, h)
    ensures t <= |job.ops| && Written(job, t) == DiffComputation(before.diffs + piece, before.substantive + more)
  {
    hide *;
    PendingRun(job, pending, s, t, i0, j0, i, j, h, piece, more);
    RunEndsBy(job.ops, s, t);
    WrittenRun(job, s, t);
  }

  lemma {:induction false} RunEndsBy(ops: seq<D.DiffOp>, s: nat, t: nat)
    requires ChangedRun(ops, s, t)
    ensures t <= |ops|
  {
  }

  /** `compute_diffs`. */
  method ComputeDiffs(cc: CharClass, differ: D.Differ, olds: string, news: string, isAi: bool)
    returns (r: Result<DiffComputation, string>)
    requires D.HonestDiffer(differ)
    ensures r.Ok? && Separated(r.value.substantive)
    ensures DiffsComputed(cc, differ, olds, news, isAi, r.value.diffs, r.value.substantive)
    ensures DiffsAre(cc, differ, olds, news, isAi, r.value.diffs, r.value.substantive)
  {
    hide *;
    var oldLines := CollectLineMetadata(olds);
    var newLines := CollectLineMetadata(news);
    var oldLineSlices, newLineSlices := Lines(olds), Lines(news);
    var lineOps := D.CaptureDiffSlices(differ, oldLineSlices, newLineSlices);
    ghost var job := JobOf(cc, differ, olds, news, isAi);
    JobParts(cc, differ, olds, news, isAi);

    var computation := DiffComputation([], []);
    var pending: seq<D.DiffOp> := [];
    ghost var s: nat, i0: nat, j0: nat, i: nat, j: nat := 0, 0, 0, 0, 0;
    ghost var h;
    D.StartRemaining(differ, oldLineSlices, newLineSlices);
    NoLinesDone(job);
    NothingWritten(job);
    NothingPending(lineOps, 0, 0, 0);
    for t := 0 to |lineOps|
      invariant D.Remaining(oldLineSlices, newLineSlices, lineOps, t, i, j)
      invariant i <= |oldLineSlices| && j <= |newLineSlices|
      invariant Pending(pending, lineOps, s, t, i0, j0, i, j)
      invariant LinesDone(job, computation.diffs, computation.substantive, s, i0, j0)
      invariant s <= t && computation == Written(job, s)
    {
      var op := lineOps[t];
      D.NextOp(oldLineSlices, newLineSlices, lineOps, t, i, j);
      OpSpans(oldLineSlices, newLineSlices, op, i, j);
      PendingChain(pending, lineOps, s, t, i0, j0, i, j);
      if op.Equal? {
        if pending != [] {
          ghost var before := computation;
          computation, h :=
            ProcessChangedHunk(cc, differ, pending, oldLines, newLines, olds, news, computation, isAi, i0, j0, i, j);
          ExtensionParts(before, computation);
          PushPending(job, pending, before.diffs, before.substantive, s, t, i0, j0, i, j, h,
                      computation.diffs[|before.diffs|..], computation.substantive[|before.substantive|..]);
          WrittenPush(job, pending, s, t, i0, j0, i, j, h, before,
                      computation.diffs[|before.diffs|..], computation.substantive[|before.substantive|..]);
          pending := [];
        }
        var pushed := PushEqualLinesOp(op, oldLines, olds, computation.diffs);
        PushEqualLines(job, computation.diffs, computation.substantive, t, i, j, op.len,
                       LineStart(olds, i), LineStart(olds, i + op.len));
        // The error return of the original is never taken: the lines of the operation are there.
        WrittenKept(job, t, LineStart(olds, i), LineStart(olds, i + op.len));
        computation := computation.(diffs := pushed.value);
        i, j := i + op.len, j + op.len;
        s, i0, j0 := t + 1, i, j;
        NothingPending(lineOps, t + 1, i, j);
      } else {
        PendingPush(pending, lineOps, s, t, i0, j0, i, j);
        pending := pending + [op];
        i, j := D.SpanOf(op, true).1, D.SpanOf(op, false).1;
      }
    }
    D.NoneRemaining(oldLineSlices, newLineSlices, lineOps, i, j);
    PendingChain(pending, lineOps, s, |lineOps|, i0, j0, i, j);
    if pending != [] {
      ghost var before := computation;
      computation, h :=
        ProcessChangedHunk(cc, differ, pending, oldLines, newLines, olds, news, computation, isAi, i0, j0, i, j);
      ExtensionParts(before, computation);
      PushPending(job, pending, before.diffs, before.substantive, s, |lineOps|, i0, j0, i, j, h,
                  computation.diffs[|before.diffs|..], computation.substantive[|before.substantive|..]);
      WrittenPush(job, pending, s, |lineOps|, i0, j0, i, j, h, before,
                  computation.diffs[|before.diffs|..], computation.substantive[|before.substantive|..]);
    }
    AllLinesDone(job, computation.diffs, computation.substantive);
    var merged := MergeRanges(computation.substantive);
    MergeKeepsAccount(cc, differ, olds, news, isAi, computation.diffs, computation.substantive, merged);
    MergeIsSeparated(merged, computation.substantive);
    DiffsAreIntro(cc, differ, olds, news, isAi, computation, merged);
    r := Ok(computation.(substantive := merged));
  }

  lemma {:induction false} NothingWritten(job: Job)
    requires D.HonestDiffer(job.differ)
    ensures Written(job, 0) == DiffComputation([], [])
  {
  }

  lemma {:induction false} JobParts(cc: CharClass, differ: D.Differ, olds: string, news: string, isAi: bool)
    requires D.HonestDiffer(differ)
    ensures JobOf(cc, differ, olds, news, isAi)
         == Job(cc, differ, olds, news, isAi, D.DiffSpec(differ, Lines(olds), Lines(news)))
  {
  }
}
