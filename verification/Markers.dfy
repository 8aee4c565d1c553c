/** Where deletions leave their marks. */
module Markers {
  import opened Prelude
  import opened EditScript
  import opened HunkDiffs
  import opened Attributions
  import opened Cursors
  import opened Transform
  import opened Ownership
  import opened Checkpoint
  import opened Inheritance
  import D = DiffOps
  import Ranges
  import Sorting

  /** Diff `n` deletes text that no move takes away, and in a human checkpoint the text is not blank. */
  ghost predicate Marks(inp: Input, ds: seq<ByteDiff>, n: nat) {
    && n < |ds| && ds[n].op.Delete?
    && (forall m | m in inp.mappings :: m.deletionIdx != |Deletions(ds[..n])|)
    && (inp.isAi || exists c | c in ds[n].data :: !inp.cc.isWhitespace(c))
  }

  /** Then the current author's empty range stands where the text was, in the new text. */
  ghost predicate MarkedBy(inp: Input, ds: seq<ByteDiff>, n: nat, e: Attribution) {
    && Marks(inp, ds, n)
    && e == Attribution(|NewText(ds[..n])|, |NewText(ds[..n])|, inp.author, inp.ts)
  }

  lemma {:induction false} FoundIff(mappings: seq<MoveMapping>, d: nat)
    ensures MovesOf(mappings, d) == [] <==> forall m | m in mappings :: m.deletionIdx != d
  {
    MovesAreMappings(mappings, d);
    Sorting.SortMembers(MovesFound(mappings, d), SourceLe);
    SomeFound(mappings, d);
    var found, sorted := MovesFound(mappings, d), MovesOf(mappings, d);
    hide MovesFound;
    assert found != [] ==> found[0] in found;
    assert sorted != [] ==> sorted[0] in sorted;
  }

  lemma {:induction false} SomeFound(mappings: seq<MoveMapping>, d: nat)
    ensures (exists m | m in mappings :: m.deletionIdx == d) ==> MovesFound(mappings, d) != []
  {
    if mappings != [] {
      var front := mappings[..|mappings| - 1];
      assert mappings == front + [mappings[|mappings| - 1]];
      SomeFound(front, d);
    }
  }

  lemma {:induction false} CopiesLeaveNoMark(attrs: seq<Attribution>, lo: nat, hi: nat, to: nat, e: Attribution)
    requires lo <= hi && IsEmpty(e)
    ensures e !in CopyOverlaps(attrs, lo, hi, to)
  {
    CopyEntries(attrs, 0, |attrs|, lo, hi, to);
  }

  lemma {:induction false} MovesLeaveNoMark(inp: Input, moves: seq<MoveMapping>, oldPos: nat, e: Attribution)
    requires IsEmpty(e) && forall m | m in moves :: m.insertionIdx < |inp.insertions|
    ensures e !in CopyMoves(inp, moves, oldPos)
  {
    if moves != [] {
      var front, m := moves[..|moves| - 1], moves[|moves| - 1];
      assert CopyMoves(inp, moves, oldPos) == CopyMoves(inp, front, oldPos) + CopyMove(inp, m, oldPos);
      hide *;
      MovesLeaveNoMark(inp, front, oldPos, e);
      MoveLeavesNoMark(inp, m, oldPos, e);
    }
  }

  lemma {:induction false} MoveLeavesNoMark(inp: Input, m: MoveMapping, oldPos: nat, e: Attribution)
    requires IsEmpty(e) && m.insertionIdx < |inp.insertions|
    ensures e !in CopyMove(inp, m, oldPos)
  {
    hide CopyOverlaps;
    if m.sourceRange.0 < m.sourceRange.1 {
      CopiesLeaveNoMark(inp.attrs, oldPos + m.sourceRange.0, oldPos + m.sourceRange.1,
                        inp.insertions[m.insertionIdx].start + m.targetRange.0, e);
    }
  }

  lemma {:induction false} GapsLeaveNoMark(targets: seq<Ranges.Range>, cursor: nat, len: nat, newPos: nat,
                                           author: string, ts: nat, e: Attribution)
    requires IsEmpty(e)
    ensures e !in FillGaps(targets, cursor, len, newPos, author, ts)
    decreases targets
  {
    if targets != [] {
      GapsLeaveNoMark(targets[1..], Max(cursor, Min(targets[0].1, len)), len, newPos, author, ts, e);
    }
  }

  lemma {:induction false} InsertsLeaveNoMark(inp: Input, st: State, d: ByteDiff, e: Attribution)
    requires ValidInput(inp) && d.op.Insert? && d.data != [] && IsEmpty(e)
    ensures e !in Added(inp, st, d)
  {
    hide TargetsOf, InsertOwner, FillGaps, ValidInput;
    var targets := TargetsOf(inp.mappings, st.insertionIdx);
    if targets != [] {
      GapsLeaveNoMark(MergeTargets(targets), 0, |d.data|, st.newPos, inp.author, inp.ts, e);
    }
  }

  ghost function MergeTargets(targets: seq<Ranges.Range>): seq<Ranges.Range> {
    Ranges.MergeFrom([], Sorting.Sort(targets, Ranges.StartLe))
  }

  lemma {:induction false} DeletionMark(inp: Input, st: State, d: ByteDiff, e: Attribution)
    requires ValidInput(inp) && d.op.Delete? && IsEmpty(e)
    ensures e in Added(inp, st, d)
       <==> && (forall m | m in inp.mappings :: m.deletionIdx != st.deletionIdx)
            && (inp.isAi || !DataIsWhitespace(inp.cc, d.data))
            && e == Attribution(st.newPos, st.newPos, inp.author, inp.ts)
  {
    FoundIff(inp.mappings, st.deletionIdx);
    MovesAreMappings(inp.mappings, st.deletionIdx);
    var moves := MovesOf(inp.mappings, st.deletionIdx);
    hide MovesOf, CopyMoves, DataIsWhitespace;
    MovesLeaveNoMark(inp, moves, st.oldPos, e);
  }

  lemma {:induction false} MarkOf(inp: Input, ds: seq<ByteDiff>, n: nat, e: Attribution)
    requires ValidInput(inp) && NoEmpty(ds) && n < |ds| && IsEmpty(e)
    ensures e in Added(inp, StateAt(inp, ds, n), ds[n]) <==> MarkedBy(inp, ds, n, e)
  {
    hide *;
    StateIs(inp, ds, n);
    var st := StateAt(inp, ds, n);
    match ds[n].op
    case Equal =>
      CopiesLeaveNoMark(inp.attrs, st.oldPos, st.oldPos + |ds[n].data|, st.newPos, e);
      StepIs(inp, st, ds[n]);
      OnlyDeletionsMark(inp, ds, n, e);
    case Delete =>
      SomeText(ds, n);
      DeletionMark(inp, st, ds[n], e);
      MarkedByIs(inp, ds, n, e);
    case Insert =>
      SomeText(ds, n);
      InsertsLeaveNoMark(inp, st, ds[n], e);
      OnlyDeletionsMark(inp, ds, n, e);
  }

  lemma {:induction false} OnlyDeletionsMark(inp: Input, ds: seq<ByteDiff>, n: nat, e: Attribution)
    requires n < |ds| && !ds[n].op.Delete?
    ensures !MarkedBy(inp, ds, n, e)
  {
  }

  lemma {:induction false} MarkedByIs(inp: Input, ds: seq<ByteDiff>, n: nat, e: Attribution)
    requires n < |ds| && ds[n].op.Delete? && ds[n].data != []
    ensures MarkedBy(inp, ds, n, e)
       <==> && (forall m | m in inp.mappings :: m.deletionIdx != |Deletions(ds[..n])|)
            && (inp.isAi || !DataIsWhitespace(inp.cc, ds[n].data))
            && e == Attribution(|NewText(ds[..n])|, |NewText(ds[..n])|, inp.author, inp.ts)
  {
    BlankData(inp.cc, ds[n].data);
    hide Deletions, NewText, DataIsWhitespace;
  }

  lemma {:induction false} MarksUpTo(inp: Input, ds: seq<ByteDiff>, n: nat, e: Attribution)
    requires ValidInput(inp) && NoEmpty(ds) && n <= |ds| && IsEmpty(e)
    ensures e in StateAt(inp, ds, n).out <==> MarkedBefore(inp, ds, n, e)
  {
    hide *;
    if n == 0 {
      NoMarks(inp, ds, e);
    } else {
      MarksUpTo(inp, ds, n - 1, e);
      MarkOf(inp, ds, n - 1, e);
      NextState(inp, ds, n - 1, e);
      MarkedMore(inp, ds, n - 1, e);
    }
  }

  lemma {:induction false} NoMarks(inp: Input, ds: seq<ByteDiff>, e: Attribution)
    requires ValidInput(inp)
    ensures e !in StateAt(inp, ds, 0).out && !MarkedBefore(inp, ds, 0, e)
  {
    hide MarkedBy;
  }

  lemma {:induction false} NextState(inp: Input, ds: seq<ByteDiff>, n: nat, e: Attribution)
    requires ValidInput(inp) && n < |ds|
    ensures e in StateAt(inp, ds, n + 1).out
       <==> e in StateAt(inp, ds, n).out || e in Added(inp, StateAt(inp, ds, n), ds[n])
  {
    var st := StateAt(inp, ds, n);
    assert StateAt(inp, ds, n + 1) == Step(inp, st, ds[n]);
    hide *;
    StepParts(inp, st, ds[n]);
  }

  ghost predicate MarkedBefore(inp: Input, ds: seq<ByteDiff>, n: nat, e: Attribution) {
    exists k: nat | k < n :: MarkedBy(inp, ds, k, e)
  }

  lemma {:induction false} MarkedMore(inp: Input, ds: seq<ByteDiff>, n: nat, e: Attribution)
    ensures MarkedBefore(inp, ds, n + 1, e) <==> MarkedBefore(inp, ds, n, e) || MarkedBy(inp, ds, n, e)
  {
    hide MarkedBy;
  }

  /** The empty ranges of a run are exactly the marks of its deletions. */
  lemma {:induction false} RunMarksIff(inp: Input, ds: seq<ByteDiff>, e: Attribution)
    requires ValidInput(inp) && NoEmpty(ds) && IsEmpty(e)
    ensures e in Run(inp, START, ds).out <==> exists n: nat :: MarkedBy(inp, ds, n, e)
  {
    RunFrom(inp, ds, |ds|);
    assert ds[|ds|..] == [];
    MarksUpTo(inp, ds, |ds|, e);
    hide StateAt, Step, ValidInput, NoEmpty;
    assert Run(inp, START, ds) == StateAt(inp, ds, |ds|);
    forall n: nat | MarkedBy(inp, ds, n, e) ensures n < |ds| {
    }
  }

  /** So are those of a checkpoint's result. */
  lemma {:induction false} ResultMarksIff(r: Request, f: Findings, sorted: seq<Attribution>, result: seq<Attribution>,
                                          e: Attribution)
    requires D.HonestDiffer(r.differ) && DiffsFor(r, f) && IsRunOf(r, f, sorted, result) && e.start >= e.end
    ensures e in result <==> exists n: nat :: MarkedBy(InputOf(r, f, r.attrs), f.diffs, n, e)
  {
    var inp := InputOf(r, f, sorted);
    assert NoEmpty(f.diffs) && ValidInput(inp) && result == MergeSpec(Run(inp, START, f.diffs).out);
    forall n: nat ensures MarkedBy(inp, f.diffs, n, e) <==> MarkedBy(InputOf(r, f, r.attrs), f.diffs, n, e) {
      SameMarks(r, f, sorted, n, e);
    }
    assert IsEmpty(e);
    hide *;
    RunMarksIff(inp, f.diffs, e);
    MergeCorrect(Run(inp, START, f.diffs).out);
  }

  lemma {:induction false} SameMarks(r: Request, f: Findings, sorted: seq<Attribution>, n: nat, e: Attribution)
    ensures MarkedBy(InputOf(r, f, sorted), f.diffs, n, e) <==> MarkedBy(InputOf(r, f, r.attrs), f.diffs, n, e)
  {
    hide Deletions, NewText, DataIsWhitespace, Insertions;
  }
}
