/** Carrying attributions across byte diffs (`transform_attributions`). */
module Transform {
  import opened Prelude
  import opened EditScript
  import opened Ranges
  import opened Attributions
  import opened Cursors
  import Sorting

  /** A range of deleted (old) or inserted (new) text. */
  datatype Segment = Segment(start: nat, end: nat)

  /** `sourceRange` of deletion `deletionIdx` reappears as `targetRange` of insertion `insertionIdx`. */
  datatype MoveMapping = MoveMapping(deletionIdx: nat, insertionIdx: nat, sourceRange: Range, targetRange: Range)

  // ----- The catalog of deletions and insertions -----

  ghost function Deletions(ds: seq<ByteDiff>, oldPos: nat := 0): seq<Segment> {
    if ds == [] then [] else
    var n := |ds[0].data|;
    match ds[0].op
    case Equal => Deletions(ds[1..], oldPos + n)
    case Delete => [Segment(oldPos, oldPos + n)] + Deletions(ds[1..], oldPos + n)
    case Insert => Deletions(ds[1..], oldPos)
  }

  ghost function Insertions(ds: seq<ByteDiff>, newPos: nat := 0): seq<Segment> {
    if ds == [] then [] else
    var n := |ds[0].data|;
    match ds[0].op
    case Equal => Insertions(ds[1..], newPos + n)
    case Delete => Insertions(ds[1..], newPos)
    case Insert => [Segment(newPos, newPos + n)] + Insertions(ds[1..], newPos + n)
  }

  /** `build_diff_catalog`. */
  method BuildDiffCatalog(diffs: seq<ByteDiff>) returns (deletions: seq<Segment>, insertions: seq<Segment>)
    ensures deletions == Deletions(diffs) && insertions == Insertions(diffs)
  {
    deletions, insertions := [], [];
    var oldPos: nat, newPos: nat := 0, 0;
    for k := 0 to |diffs|
      invariant deletions + Deletions(diffs[k..], oldPos) == Deletions(diffs)
      invariant insertions + Insertions(diffs[k..], newPos) == Insertions(diffs)
    {
      assert diffs[k..][0] == diffs[k] && diffs[k..][1..] == diffs[k + 1..];
      var len := |diffs[k].data|;
      match diffs[k].op
      case Equal =>
        oldPos, newPos := oldPos + len, newPos + len;
      case Delete =>
        deletions := deletions + [Segment(oldPos, oldPos + len)];
        oldPos := oldPos + len;
      case Insert =>
        insertions := insertions + [Segment(newPos, newPos + len)];
        newPos := newPos + len;
    }
  }

  // ----- The move maps -----

  /** The distinct (source, target) mappings of deletion `d`, in order of discovery. */
  function MovesFound(mappings: seq<MoveMapping>, d: nat): seq<MoveMapping> {
    if mappings == [] then [] else
    var front, m := MovesFound(mappings[..|mappings| - 1], d), mappings[|mappings| - 1];
    if m.deletionIdx != d || SeenRanges(front, m) then front else front + [m]
  }

  /** The duplicate test looks at the two ranges only, not at the insertion. */
  predicate SeenRanges(ms: seq<MoveMapping>, m: MoveMapping) {
    exists k | 0 <= k < |ms| :: ms[k].sourceRange == m.sourceRange && ms[k].targetRange == m.targetRange
  }

  predicate SourceLe(a: MoveMapping, b: MoveMapping) {
    a.sourceRange.0 <= b.sourceRange.0
  }

  function MovesOf(mappings: seq<MoveMapping>, d: nat): seq<MoveMapping> {
    Sorting.Sort(MovesFound(mappings, d), SourceLe)
  }

  function TargetsOf(mappings: seq<MoveMapping>, i: nat): seq<Range> {
    if mappings == [] then [] else
    var front, m := TargetsOf(mappings[..|mappings| - 1], i), mappings[|mappings| - 1];
    if m.insertionIdx == i then front + [m.targetRange] else front
  }

  method BuildMoveMaps(mappings: seq<MoveMapping>)
    returns (deletionToMove: map<nat, seq<MoveMapping>>, insertionMoveRanges: map<nat, seq<Range>>)
    ensures forall d: nat :: (d in deletionToMove <==> MovesOf(mappings, d) != [])
                          && (d in deletionToMove ==> deletionToMove[d] == MovesOf(mappings, d))
    ensures forall i: nat :: (i in insertionMoveRanges <==> TargetsOf(mappings, i) != [])
                          && (i in insertionMoveRanges ==> insertionMoveRanges[i] == TargetsOf(mappings, i))
  {
    var found: map<nat, seq<MoveMapping>> := map[];
    insertionMoveRanges := map[];
    for k := 0 to |mappings|
      invariant forall d: nat :: (d in found <==> MovesFound(mappings[..k], d) != [])
                              && (d in found ==> found[d] == MovesFound(mappings[..k], d))
      invariant forall i: nat :: (i in insertionMoveRanges <==> TargetsOf(mappings[..k], i) != [])
                              && (i in insertionMoveRanges ==> insertionMoveRanges[i] == TargetsOf(mappings[..k], i))
    {
      var m := mappings[k];
      assert mappings[..k + 1][..k] == mappings[..k];
      var entry := if m.deletionIdx in found then found[m.deletionIdx] else [];
      if !SeenRanges(entry, m) {
        entry := entry + [m];
      }
      found := found[m.deletionIdx := entry];
      var ranges := if m.insertionIdx in insertionMoveRanges then insertionMoveRanges[m.insertionIdx] else [];
      insertionMoveRanges := insertionMoveRanges[m.insertionIdx := ranges + [m.targetRange]];
    }
    assert mappings[..|mappings|] == mappings;
    deletionToMove := map d | d in found :: Sorting.Sort(found[d], SourceLe);
  }

  // ----- The transformation, with searches instead of cursors -----

  /** Everything the transformation reads. */
  datatype Input = Input(cc: CharClass, attrs: seq<Attribution>, author: string, insertions: seq<Segment>,
                         mappings: seq<MoveMapping>, ts: nat, substantive: seq<Range>, isAi: bool)

  datatype State = State(out: seq<Attribution>, oldPos: nat, newPos: nat, deletionIdx: nat, insertionIdx: nat,
                         prevWhitespaceDelete: bool)

  const START := State([], 0, 0, 0, 0, false)

  ghost predicate ValidInput(inp: Input) {
    && WellFormed(inp.attrs) && StartsSorted(inp.attrs) && Separated(inp.substantive)
    && forall m | m in inp.mappings :: m.insertionIdx < |inp.insertions|
  }

  /** The ranges copied for the moves out of a deletion that starts at `oldPos`. */
  ghost function CopyMoves(inp: Input, moves: seq<MoveMapping>, oldPos: nat): seq<Attribution>
    requires forall m | m in moves :: m.insertionIdx < |inp.insertions|
  {
    if moves == [] then [] else
    var m := moves[|moves| - 1];
    CopyMoves(inp, moves[..|moves| - 1], oldPos) + CopyMove(inp, m, oldPos)
  }

  ghost function CopyMove(inp: Input, m: MoveMapping, oldPos: nat): seq<Attribution>
    requires m.insertionIdx < |inp.insertions|
  {
    if m.sourceRange.0 < m.sourceRange.1 then
      CopyOverlaps(inp.attrs, oldPos + m.sourceRange.0, oldPos + m.sourceRange.1,
                   inp.insertions[m.insertionIdx].start + m.targetRange.0)
    else []
  }

  /** The parts of an insertion of length `len` outside the merged move targets, from `cursor` on. */
  function FillGaps(targets: seq<Range>, cursor: nat, len: nat, newPos: nat, author: string, ts: nat): seq<Attribution>
    decreases targets
  {
    if targets == [] then
      if cursor < len then [Attribution(newPos + cursor, newPos + len, author, ts)] else []
    else
      var s, e := Min(targets[0].0, len), Min(targets[0].1, len);
      (if cursor < s then [Attribution(newPos + cursor, newPos + s, author, ts)] else [])
      + FillGaps(targets[1..], Max(cursor, e), len, newPos, author, ts)
  }

  /** Who owns an inserted segment of a human checkpoint. */
  ghost function InsertOwner(inp: Input, st: State, data: string): Owner
    requires ValidInput(inp)
  {
    var last := if st.out == [] then None else Some(st.out[|st.out| - 1]);
    var near := FindForInsertion(inp.attrs, st.oldPos);
    if '\n' in data || Substantive(inp, st.newPos, |data|) then (inp.author, inp.ts)
    else if st.prevWhitespaceDelete && DataIsWhitespace(inp.cc, data) then
      if near.Some? then OwnerOf(near.value) else if last.Some? then OwnerOf(last.value) else (inp.author, inp.ts)
    else if last.Some? then OwnerOf(last.value) else if near.Some? then OwnerOf(near.value) else (inp.author, inp.ts)
  }

  ghost predicate Substantive(inp: Input, newPos: nat, len: nat) {
    len > 0 && exists r | r in inp.substantive :: Ranges.Overlaps(r, (newPos, newPos + len))
  }

  /** What one diff adds to the output. */
  ghost function Added(inp: Input, st: State, d: ByteDiff): seq<Attribution>
    requires ValidInput(inp)
  {
    var n := |d.data|;
    match d.op
    case Equal => CopyOverlaps(inp.attrs, st.oldPos, st.oldPos + n, st.newPos)
    case Delete =>
      MovesAreMappings(inp.mappings, st.deletionIdx);
      var moves := MovesOf(inp.mappings, st.deletionIdx);
      if moves != [] then CopyMoves(inp, moves, st.oldPos)
      else if inp.isAi || !DataIsWhitespace(inp.cc, d.data) then
        [Attribution(st.newPos, st.newPos, inp.author, inp.ts)]
      else []
    case Insert =>
      var targets := TargetsOf(inp.mappings, st.insertionIdx);
      if targets != [] then
        FillGaps(MergeFrom([], Sorting.Sort(targets, StartLe)), 0, n, st.newPos, inp.author, inp.ts)
      else
        var owner := if inp.isAi then (inp.author, inp.ts) else InsertOwner(inp, st, d.data);
        [Attribution(st.newPos, st.newPos + n, owner.0, owner.1)]
  }

  ghost function Step(inp: Input, st: State, d: ByteDiff): State
    requires ValidInput(inp)
  {
    State(st.out + Added(inp, st, d),
          st.oldPos + |OldPart(d)|, st.newPos + |NewPart(d)|,
          st.deletionIdx + (if d.op.Delete? then 1 else 0), st.insertionIdx + (if d.op.Insert? then 1 else 0),
          d.op.Delete? && DataIsWhitespace(inp.cc, d.data))
  }

  ghost function Run(inp: Input, st: State, ds: seq<ByteDiff>): State
    requires ValidInput(inp)
    decreases ds
  {
    if ds == [] then st else Run(inp, Step(inp, st, ds[0]), ds[1..])
  }

  lemma {:induction false} FoundAreMappings(mappings: seq<MoveMapping>, d: nat)
    ensures forall m | m in MovesFound(mappings, d) :: m in mappings && m.deletionIdx == d
  {
    if mappings != [] {
      FoundAreMappings(mappings[..|mappings| - 1], d);
    }
  }

  lemma {:induction false} MovesAreMappings(mappings: seq<MoveMapping>, d: nat)
    ensures forall m | m in MovesOf(mappings, d) :: m in mappings && m.deletionIdx == d
  {
    FoundAreMappings(mappings, d);
    Sorting.SortMembers(MovesFound(mappings, d), SourceLe);
  }

  // ----- The loops -----

  /** Every mapping's source lies inside its deletion. */
  ghost predicate MovesFit(ds: seq<ByteDiff>, mappings: seq<MoveMapping>) {
    forall m | m in mappings ::
      && m.deletionIdx < |Deletions(ds)|
      && m.sourceRange.1 <= Deletions(ds)[m.deletionIdx].end - Deletions(ds)[m.deletionIdx].start
  }

  /** No two moves share a character of their targets. */
  ghost predicate TargetsApart(mappings: seq<MoveMapping>) {
    forall i, j | 0 <= i < j < |mappings| :: ApartTargets(mappings[i], mappings[j])
  }

  predicate ApartTargets(a: MoveMapping, b: MoveMapping) {
    || a.insertionIdx != b.insertionIdx
    || a.targetRange.1 <= b.targetRange.0
    || b.targetRange.1 <= a.targetRange.0
  }

  lemma {:induction false} CursorLater(attrs: seq<Attribution>, cursor: nat, lo: nat, hi: nat)
    requires CursorAt(attrs, cursor, lo) && lo <= hi
    ensures CursorAt(attrs, cursor, hi)
  {
  }

  lemma {:induction false} MoveOrder()
    ensures Sorting.TotalPreorder(SourceLe)
  {
  }

  /** The moves out of one deletion, in order of their source. */
  method CopyMoveSources(inp: Input, moves: seq<MoveMapping>, oldPos: nat, cursor: nat, out: seq<Attribution>,
                         ghost len: nat)
    returns (out': seq<Attribution>, cursor': nat)
    requires ValidInput(inp) && CursorAt(inp.attrs, cursor, oldPos)
    requires forall m | m in moves :: m.insertionIdx < |inp.insertions| && m.sourceRange.1 <= len
    requires Sorting.SortedBy(moves, SourceLe)
    ensures out' == out + CopyMoves(inp, moves, oldPos)
    ensures CursorAt(inp.attrs, cursor', oldPos + len)
  {
    hide CopyOverlaps, CursorAt, ValidInput;
    InputSorted(inp);
    hide StartsSorted;
    NothingCopied(inp, moves, oldPos, out);
    hide CopyMoves;
    out', cursor' := out, cursor;
    ghost var floor: nat := oldPos;
    for k := 0 to |moves|
      invariant CursorAt(inp.attrs, cursor', floor) && oldPos <= floor <= oldPos + len
      invariant forall i | k <= i < |moves| :: floor <= oldPos + moves[i].sourceRange.0
      invariant out' == out + CopyMoves(inp, moves[..k], oldPos)
    {
      var m := moves[k];
      PushMove(inp, moves, k, oldPos);
      SourcesRise(moves, k);
      var sourceStart, sourceEnd := oldPos + m.sourceRange.0, oldPos + m.sourceRange.1;
      if sourceStart < sourceEnd {
        var targetStart := inp.insertions[m.insertionIdx].start + m.targetRange.0;
        out', cursor' := CollectOverlaps(inp.attrs, cursor', sourceStart, sourceEnd, targetStart, out', floor);
        floor := sourceStart;
      }
    }
    assert moves[..|moves|] == moves;
    CursorLater(inp.attrs, cursor', floor, oldPos + len);
  }

  lemma {:induction false} NothingCopied(inp: Input, moves: seq<MoveMapping>, oldPos: nat, out: seq<Attribution>)
    requires forall m | m in moves :: m.insertionIdx < |inp.insertions|
    ensures out == out + CopyMoves(inp, moves[..0], oldPos)
  {
  }

  lemma {:induction false} InputSorted(inp: Input)
    requires ValidInput(inp)
    ensures StartsSorted(inp.attrs)
  {
  }

  lemma {:induction false} PushMove(inp: Input, moves: seq<MoveMapping>, k: nat, oldPos: nat)
    requires k < |moves| && forall m | m in moves :: m.insertionIdx < |inp.insertions|
    ensures moves[k] in moves
    ensures CopyMoves(inp, moves[..k + 1], oldPos)
         == CopyMoves(inp, moves[..k], oldPos) + CopyMove(inp, moves[k], oldPos)
  {
    assert moves[..k + 1][..k] == moves[..k];
  }

  lemma {:induction false} SourcesRise(moves: seq<MoveMapping>, k: nat)
    requires Sorting.SortedBy(moves, SourceLe) && k < |moves|
    ensures forall i | k <= i < |moves| :: moves[k].sourceRange.0 <= moves[i].sourceRange.0
  {
    assert forall i | k < i < |moves| :: SourceLe(moves[k], moves[i]);
  }

  /** The loop that pushes what the move targets leave uncovered. */
  method PushGaps(targets: seq<Range>, len: nat, newPos: nat, author: string, ts: nat, out: seq<Attribution>)
    returns (out': seq<Attribution>)
    ensures out' == out + FillGaps(targets, 0, len, newPos, author, ts)
  {
    out' := out;
    var cursor: nat := 0;
    for k := 0 to |targets|
      invariant out' + FillGaps(targets[k..], cursor, len, newPos, author, ts)
             == out + FillGaps(targets, 0, len, newPos, author, ts)
    {
      assert targets[k..][0] == targets[k] && targets[k..][1..] == targets[k + 1..];
      var clampedStart, clampedEnd := Min(targets[k].0, len), Min(targets[k].1, len);
      if cursor < clampedStart {
        out' := out' + [Attribution(newPos + cursor, newPos + clampedStart, author, ts)];
      }
      cursor := Max(cursor, clampedEnd);
    }
    if cursor < len {
      out' := out' + [Attribution(newPos + cursor, newPos + len, author, ts)];
    }
  }

  /** The owner of an inserted segment; the cursor of the search moves forward only. */
  method ChooseInsertOwner(inp: Input, ghost st: State, out: seq<Attribution>, oldPos: nat, newPos: nat,
                           prevWhitespaceDelete: bool, data: string, cursor: nat)
    returns (owner: Owner, cursor': nat)
    requires ValidInput(inp) && st.out == out && st.oldPos == oldPos && st.newPos == newPos
    requires st.prevWhitespaceDelete == prevWhitespaceDelete
    requires CursorAt(inp.attrs, cursor, oldPos)
    ensures owner == InsertOwner(inp, st, data) && CursorAt(inp.attrs, cursor', oldPos)
  {
    cursor' := cursor;
    hide FindForInsertion;
    var isSubstantive := RangesIntersect(inp.substantive, (newPos, newPos + |data|));
    var isWhitespaceOnly := DataIsWhitespace(inp.cc, data);
    var isFormattingPair := prevWhitespaceDelete && isWhitespaceOnly;
    if '\n' in data {
      owner := (inp.author, inp.ts);
    } else if isSubstantive {
      owner := (inp.author, inp.ts);
    } else if isFormattingPair {
      var found;
      found, cursor' := FindAttributionForInsertion(inp.attrs, oldPos, cursor, oldPos);
      owner := if found.Some? then OwnerOf(found.value)
               else if out != [] then OwnerOf(out[|out| - 1]) else (inp.author, inp.ts);
    } else if out != [] {
      owner := OwnerOf(out[|out| - 1]);
    } else {
      var found;
      found, cursor' := FindAttributionForInsertion(inp.attrs, oldPos, cursor, oldPos);
      owner := if found.Some? then OwnerOf(found.value) else (inp.author, inp.ts);
    }
  }

  lemma {:induction false} RunStep(inp: Input, st: State, ds: seq<ByteDiff>, k: nat)
    requires ValidInput(inp) && k < |ds|
    ensures Run(inp, st, ds[k..]) == Run(inp, Step(inp, st, ds[k]), ds[k + 1..])
  {
    assert ds[k..][0] == ds[k] && ds[k..][1..] == ds[k + 1..];
  }

  lemma {:induction false} DropDeletion(ds: seq<ByteDiff>, k: nat, oldPos: nat, i: nat)
    requires k < |ds| && i <= |Deletions(ds)| && Deletions(ds)[i..] == Deletions(ds[k..], oldPos)
    ensures ds[k].op.Delete? ==>
              && i < |Deletions(ds)|
              && Deletions(ds)[i] == Segment(oldPos, oldPos + |ds[k].data|)
              && Deletions(ds)[i + 1..] == Deletions(ds[k + 1..], oldPos + |ds[k].data|)
    ensures !ds[k].op.Delete? ==>
              Deletions(ds)[i..] == Deletions(ds[k + 1..], if ds[k].op.Insert? then oldPos else oldPos + |ds[k].data|)
  {
    assert ds[k..][0] == ds[k] && ds[k..][1..] == ds[k + 1..];
    if ds[k].op.Delete? {
      var rest := Deletions(ds[k + 1..], oldPos + |ds[k].data|);
      assert Deletions(ds)[i..] == [Segment(oldPos, oldPos + |ds[k].data|)] + rest;
      assert Deletions(ds)[i..][0] == Deletions(ds)[i];
      assert Deletions(ds)[i..][1..] == Deletions(ds)[i + 1..];
    }
  }

  lemma {:induction false} NextDeletion(inp: Input, ds: seq<ByteDiff>, k: nat, st: State, out: seq<Attribution>,
                                        l: Loop)
    requires ValidInput(inp) && MovesFit(ds, inp.mappings) && LoopAt(inp, st, out, l)
    requires k < |ds| && l.deletionIdx <= |Deletions(ds)|
    requires Deletions(ds)[l.deletionIdx..] == Deletions(ds[k..], l.oldPos)
    ensures ds[k].op.Delete? ==>
              forall m | m in inp.mappings && m.deletionIdx == l.deletionIdx :: m.sourceRange.1 <= |ds[k].data|
    ensures var st' := Step(inp, st, ds[k]);
            st'.deletionIdx <= |Deletions(ds)| && Deletions(ds)[st'.deletionIdx..] == Deletions(ds[k + 1..], st'.oldPos)
  {
    hide *;
    LoopCounters(inp, st, out, l);
    StepIs(inp, st, ds[k]);
    DropDeletion(ds, k, l.oldPos, l.deletionIdx);
    if ds[k].op.Delete? {
      DeletionFits(ds, inp.mappings, l.deletionIdx, l.oldPos, |ds[k].data|);
    }
  }

  lemma {:induction false} LoopCounters(inp: Input, st: State, out: seq<Attribution>, l: Loop)
    requires LoopAt(inp, st, out, l)
    ensures st.oldPos == l.oldPos && st.deletionIdx == l.deletionIdx && st.out == out
  {
  }

  /** What a deletion adds: the moves out of it, or a marker. */
  method TransformDelete(inp: Input, ghost st: State, deletionToMove: map<nat, seq<MoveMapping>>, d: ByteDiff,
                         out: seq<Attribution>, oldPos: nat, newPos: nat, deletionIdx: nat, cursor: nat)
    returns (out': seq<Attribution>, cursor': nat)
    requires ValidInput(inp) && d.op.Delete?
    requires st.out == out && st.oldPos == oldPos && st.newPos == newPos && st.deletionIdx == deletionIdx
    requires (deletionIdx in deletionToMove <==> MovesOf(inp.mappings, deletionIdx) != [])
          && (deletionIdx in deletionToMove ==> deletionToMove[deletionIdx] == MovesOf(inp.mappings, deletionIdx))
    requires forall m | m in inp.mappings && m.deletionIdx == deletionIdx :: m.sourceRange.1 <= |d.data|
    requires CursorAt(inp.attrs, cursor, oldPos)
    ensures out' == out + Added(inp, st, d) && CursorAt(inp.attrs, cursor', oldPos + |d.data|)
  {
    hide MovesOf, CopyMoves;
    MovesAreMappings(inp.mappings, deletionIdx);
    MovesSorted(inp.mappings, deletionIdx);
    CursorLater(inp.attrs, cursor, oldPos, oldPos + |d.data|);
    out', cursor' := out, cursor;
    if deletionIdx in deletionToMove {
      out', cursor' := CopyMoveSources(inp, deletionToMove[deletionIdx], oldPos, cursor, out, |d.data|);
    } else if inp.isAi || !DataIsWhitespace(inp.cc, d.data) {
      out' := out + [Attribution(newPos, newPos, inp.author, inp.ts)];
    } else {
      assert out + [] == out;
    }
  }

  /** What an insertion adds: the text around the moves into it, or one range. */
  method TransformInsert(inp: Input, ghost st: State, insertionMoveRanges: map<nat, seq<Range>>, d: ByteDiff,
                         out: seq<Attribution>, oldPos: nat, newPos: nat, insertionIdx: nat,
                         prevWhitespaceDelete: bool, cursor: nat)
    returns (out': seq<Attribution>, cursor': nat)
    requires ValidInput(inp) && d.op.Insert?
    requires st.out == out && st.oldPos == oldPos && st.newPos == newPos && st.insertionIdx == insertionIdx
    requires st.prevWhitespaceDelete == prevWhitespaceDelete
    requires (insertionIdx in insertionMoveRanges <==> TargetsOf(inp.mappings, insertionIdx) != [])
          && (insertionIdx in insertionMoveRanges ==>
                insertionMoveRanges[insertionIdx] == TargetsOf(inp.mappings, insertionIdx))
    requires CursorAt(inp.attrs, cursor, oldPos)
    ensures out' == out + Added(inp, st, d) && CursorAt(inp.attrs, cursor', oldPos)
  {
    hide TargetsOf, InsertOwner, FillGaps;
    cursor' := cursor;
    if insertionIdx in insertionMoveRanges {
      var covered := Sorting.Sort(insertionMoveRanges[insertionIdx], StartLe);
      StartOrder();
      Sorting.SortIsSorted(insertionMoveRanges[insertionIdx], StartLe);
      var merged := MergeSorted(covered);
      out' := PushGaps(merged, |d.data|, newPos, inp.author, inp.ts, out);
    } else if inp.isAi {
      out' := out + [Attribution(newPos, newPos + |d.data|, inp.author, inp.ts)];
    } else {
      var owner;
      owner, cursor' := ChooseInsertOwner(inp, st, out, oldPos, newPos, prevWhitespaceDelete, d.data, cursor);
      out' := out + [Attribution(newPos, newPos + |d.data|, owner.0, owner.1)];
    }
  }

  lemma {:induction false} DeletionFits(ds: seq<ByteDiff>, mappings: seq<MoveMapping>, d: nat, oldPos: nat, len: nat)
    requires MovesFit(ds, mappings) && d < |Deletions(ds)| && Deletions(ds)[d] == Segment(oldPos, oldPos + len)
    ensures forall m | m in mappings && m.deletionIdx == d :: m.sourceRange.1 <= len
  {
  }

  lemma {:induction false} StepIs(inp: Input, st: State, d: ByteDiff)
    requires ValidInput(inp)
    ensures Step(inp, st, d)
         == State(st.out + Added(inp, st, d),
                  if d.op.Insert? then st.oldPos else st.oldPos + |d.data|,
                  if d.op.Delete? then st.newPos else st.newPos + |d.data|,
                  if d.op.Delete? then st.deletionIdx + 1 else st.deletionIdx,
                  if d.op.Insert? then st.insertionIdx + 1 else st.insertionIdx,
                  d.op.Delete? && DataIsWhitespace(inp.cc, d.data))
    ensures d.op.Equal? ==> Added(inp, st, d) == CopyOverlaps(inp.attrs, st.oldPos, st.oldPos + |d.data|, st.newPos)
  {
  }

  ghost predicate MapsFor(inp: Input, deletionToMove: map<nat, seq<MoveMapping>>,
                          insertionMoveRanges: map<nat, seq<Range>>) {
    && (forall d: nat :: (d in deletionToMove <==> MovesOf(inp.mappings, d) != [])
                      && (d in deletionToMove ==> deletionToMove[d] == MovesOf(inp.mappings, d)))
    && (forall i: nat :: (i in insertionMoveRanges <==> TargetsOf(inp.mappings, i) != [])
                      && (i in insertionMoveRanges ==> insertionMoveRanges[i] == TargetsOf(inp.mappings, i)))
  }

  /** The positions and counters of the loop, with the two cursors. */
  datatype Loop = Loop(oldPos: nat, newPos: nat, deletionIdx: nat, insertionIdx: nat, prevWhitespaceDelete: bool,
                       oldAttrCursor: nat, insertionAttrCursor: nat)

  ghost predicate LoopAt(inp: Input, st: State, out: seq<Attribution>, l: Loop) {
    && st == State(out, l.oldPos, l.newPos, l.deletionIdx, l.insertionIdx, l.prevWhitespaceDelete)
    && CursorAt(inp.attrs, l.oldAttrCursor, l.oldPos)
    && CursorAt(inp.attrs, l.insertionAttrCursor, l.oldPos)
  }

  /** The loop body. */
  method TransformOne(inp: Input, ghost st: State, deletionToMove: map<nat, seq<MoveMapping>>,
                      insertionMoveRanges: map<nat, seq<Range>>, d: ByteDiff, out: seq<Attribution>, l: Loop)
    returns (out': seq<Attribution>, l': Loop)
    requires ValidInput(inp) && MapsFor(inp, deletionToMove, insertionMoveRanges) && LoopAt(inp, st, out, l)
    requires d.op.Delete? ==> forall m | m in inp.mappings
             && m.deletionIdx == l.deletionIdx :: m.sourceRange.1 <= |d.data|
    ensures LoopAt(inp, Step(inp, st, d), out', l')
  {
    hide Step, Added, CopyOverlaps, MovesOf, TargetsOf, DataIsWhitespace, CursorAt;
    var len := |d.data|;
    StepIs(inp, st, d);
    CursorLater(inp.attrs, l.insertionAttrCursor, l.oldPos, l.oldPos + len);
    var cursor;
    match d.op {
      case Equal =>
        out', cursor := CollectOverlaps(inp.attrs, l.oldAttrCursor, l.oldPos, l.oldPos + len, l.newPos, out, l.oldPos);
        CursorLater(inp.attrs, cursor, l.oldPos, l.oldPos + len);
        l' := Loop(l.oldPos + len, l.newPos + len, l.deletionIdx, l.insertionIdx, false, cursor, l.insertionAttrCursor);
      case Delete =>
        out', cursor :=
          TransformDelete(inp, st, deletionToMove, d, out, l.oldPos, l.newPos, l.deletionIdx, l.oldAttrCursor);
        l' := Loop(l.oldPos + len, l.newPos, l.deletionIdx + 1, l.insertionIdx, DataIsWhitespace(inp.cc, d.data),
                   cursor, l.insertionAttrCursor);
      case Insert =>
        out', cursor := TransformInsert(inp, st, insertionMoveRanges, d, out, l.oldPos, l.newPos, l.insertionIdx,
                                        l.prevWhitespaceDelete, l.insertionAttrCursor);
        l' := Loop(l.oldPos, l.newPos + len, l.deletionIdx, l.insertionIdx + 1, false, l.oldAttrCursor, cursor);
    }
  }

  /** `transform_attributions`: the cursors change nothing. */
  method TransformAttributions(inp: Input, diffs: seq<ByteDiff>) returns (out: seq<Attribution>)
    requires ValidInput(inp) && MovesFit(diffs, inp.mappings)
    ensures out == Run(inp, START, diffs).out
  {
    var deletionToMove, insertionMoveRanges := BuildMoveMaps(inp.mappings);
    assert MapsFor(inp, deletionToMove, insertionMoveRanges);
    out := [];
    var l := Loop(0, 0, 0, 0, false, 0, 0);
    ghost var st := START;
    assert LoopAt(inp, st, out, l);
    assert diffs[0..] == diffs;
    hide *;
    for k := 0 to |diffs|
      invariant LoopAt(inp, st, out, l)
      invariant Run(inp, st, diffs[k..]) == Run(inp, START, diffs)
      invariant l.deletionIdx <= |Deletions(diffs)|
      invariant Deletions(diffs)[l.deletionIdx..] == Deletions(diffs[k..], l.oldPos)
    {
      RunStep(inp, st, diffs, k);
      ghost var st' := Step(inp, st, diffs[k]);
      NextDeletion(inp, diffs, k, st, out, l);
      out, l := TransformOne(inp, st, deletionToMove, insertionMoveRanges, diffs[k], out, l);
      st := st';
      LoopCounters(inp, st, out, l);
    }
    RunNothing(inp, st, out, l);
    assert diffs[|diffs|..] == [];
  }

  lemma {:induction false} RunNothing(inp: Input, st: State, out: seq<Attribution>, l: Loop)
    requires ValidInput(inp) && LoopAt(inp, st, out, l)
    ensures Run(inp, st, []).out == out
  {
  }

  lemma {:induction false} StartOrder()
    ensures Sorting.TotalPreorder(StartLe)
  {
  }

  lemma {:induction false} MovesSorted(mappings: seq<MoveMapping>, d: nat)
    ensures Sorting.SortedBy(MovesOf(mappings, d), SourceLe)
  {
    MoveOrder();
    Sorting.SortIsSorted(MovesFound(mappings, d), SourceLe);
  }
}
