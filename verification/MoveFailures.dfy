/** A block that loses its indentation as it moves: the checkpoint lays its longer source over what follows. */
module MoveFailures {
  import opened Prelude
  import opened Text
  import opened EditScript
  import opened Ranges
  import opened Tokenizer
  import opened TokenDiff
  import opened HunkDiffs
  import opened Attributions
  import opened Cursors
  import opened Transform
  import opened Ownership
  import opened Moves
  import opened Checkpoint
  import opened MovedText
  import opened EditExamples
  import D = DiffOps
  import M = MoveDetection

  const OLD_BLOCK := " a\n b\n c\nX\n"
  const NEW_BLOCK := "X\na\nb\nc\n"
  const OLD_LINES := [" a\n", " b\n", " c\n", "X\n"]
  const NEW_LINES := ["X\n", "a\n", "b\n", "c\n"]

  // ----- The lines -----

  lemma {:induction false} FourConcat(a: string, b: string, c: string, d: string)
    ensures Concat([a, b, c, d]) == a + (b + (c + d))
  {
    var all := [a, b, c, d];
    assert all[1..] == [b, c, d] && [b, c, d][1..] == [c, d] && [c, d][1..] == [d] && [d][1..] == [];
    assert Concat([d]) == d + Concat([]);
    assert Concat([c, d]) == c + Concat([d]);
    assert Concat([b, c, d]) == b + Concat([c, d]);
    assert d + [] == d;
  }

  lemma {:induction false} BlockLines(t: string)
    ensures Lines(OLD_BLOCK + t) == OLD_LINES + Lines(t) && Lines(NEW_BLOCK + t) == NEW_LINES + Lines(t)
  {
    FourConcat(" a\n", " b\n", " c\n", "X\n");
    FourConcat("X\n", "a\n", "b\n", "c\n");
    assert " a\n" + (" b\n" + (" c\n" + "X\n")) == OLD_BLOCK;
    assert "X\n" + ("a\n" + ("b\n" + "c\n")) == NEW_BLOCK;
    assert WholeLines(OLD_LINES) && WholeLines(NEW_LINES);
    hide Concat, Lines, WholeLines;
    LinesThen(OLD_LINES, t);
    LinesThen(NEW_LINES, t);
  }

  lemma {:induction false} BlockStarts(t: string)
    ensures var olds, news := OLD_BLOCK + t, NEW_BLOCK + t;
            && LineStart(olds, 0) == 0 && LineStart(olds, 1) == 3 && LineStart(olds, 2) == 6
            && LineStart(olds, 3) == 9 && LineStart(olds, 4) == 11 && LineStart(olds, |Lines(olds)|) == |olds|
            && LineStart(news, 0) == 0 && LineStart(news, 1) == 2 && LineStart(news, 2) == 4
            && LineStart(news, 3) == 6 && LineStart(news, 4) == 8 && LineStart(news, |Lines(news)|) == |news|
  {
    var olds, news := OLD_BLOCK + t, NEW_BLOCK + t;
    BlockLines(t);
    hide Lines, LineStart;
    FirstStart(olds);
    FirstStart(news);
    forall k: nat | k < 4
      ensures LineStart(olds, k + 1) == LineStart(olds, k) + |OLD_LINES[k]|
      ensures LineStart(news, k + 1) == LineStart(news, k) + |NEW_LINES[k]|
    {
      NextStart(olds, k);
      NextStart(news, k);
    }
    assert LineStart(olds, 0 + 1) == 3 && LineStart(olds, 1 + 1) == 6 && LineStart(olds, 2 + 1) == 9;
    assert LineStart(news, 0 + 1) == 2 && LineStart(news, 1 + 1) == 4 && LineStart(news, 2 + 1) == 6;
    assert LineStart(olds, 3 + 1) == 11 && LineStart(news, 3 + 1) == 8;
  }

  /** The metadata of a text that starts with the old block, or with the new one. */
  ghost predicate OldHead(lines: seq<LineMetadata>) {
    && Numbered(lines) && |lines| >= 4
    && lines[0] == LineMetadata(1, 0, 3, " a") && lines[1] == LineMetadata(2, 3, 6, " b")
    && lines[2] == LineMetadata(3, 6, 9, " c") && lines[3] == LineMetadata(4, 9, 11, "X")
    && forall m | 4 <= m < |lines| :: 11 <= lines[m].start
  }

  ghost predicate NewHead(lines: seq<LineMetadata>) {
    && Numbered(lines) && |lines| >= 4
    && lines[0] == LineMetadata(1, 0, 2, "X") && lines[1] == LineMetadata(2, 2, 4, "a")
    && lines[2] == LineMetadata(3, 4, 6, "b") && lines[3] == LineMetadata(4, 6, 8, "c")
    && forall m | 4 <= m < |lines| :: 8 <= lines[m].start
  }

  lemma {:induction false} OldHeadOf(c: string, t: string)
    requires Lines(c) == OLD_LINES + Lines(t) && LineStart(c, 0) == 0 && LineStart(c, 1) == 3 && LineStart(c, 2) == 6
    requires LineStart(c, 3) == 9 && LineStart(c, 4) == 11
    ensures OldHead(TextLines(c))
  {
    TextLinesNumbered(c);
    hide Lines, LineStart, TextLines, Numbered;
    FirstLine(c, OLD_LINES, t, 0, " a");
    FirstLine(c, OLD_LINES, t, 1, " b");
    FirstLine(c, OLD_LINES, t, 2, " c");
    FirstLine(c, OLD_LINES, t, 3, "X");
    LinesAfter(c, OLD_LINES, t);
  }

  lemma {:induction false} NewHeadOf(c: string, t: string)
    requires Lines(c) == NEW_LINES + Lines(t) && LineStart(c, 0) == 0 && LineStart(c, 1) == 2 && LineStart(c, 2) == 4
    requires LineStart(c, 3) == 6 && LineStart(c, 4) == 8
    ensures NewHead(TextLines(c))
  {
    TextLinesNumbered(c);
    hide Lines, LineStart, TextLines, Numbered;
    FirstLine(c, NEW_LINES, t, 0, "X");
    FirstLine(c, NEW_LINES, t, 1, "a");
    FirstLine(c, NEW_LINES, t, 2, "b");
    FirstLine(c, NEW_LINES, t, 3, "c");
    LinesAfter(c, NEW_LINES, t);
  }

  lemma {:induction false} BlockHeads(t: string)
    ensures OldHead(TextLines(OLD_BLOCK + t)) && NewHead(TextLines(NEW_BLOCK + t))
  {
    hide *;
    BlockLines(t);
    BlockStarts(t);
    OldHeadOf(OLD_BLOCK + t, t);
    NewHeadOf(NEW_BLOCK + t, t);
  }

  // ----- The script -----

  const DELETED := [Segment(0, 1), Segment(1, 8), Segment(8, 9)]
  const INSERTED := [Segment(2, 7), Segment(7, 8)]

  const KEPT := [ByteDiff(Equal, "X\n")]

  function DeletedPiece(): seq<ByteDiff> {
    [ByteDiff(Delete, " ")] + Cut(Delete, "a\n b\n c")
  }

  function InsertedPiece(): seq<ByteDiff> {
    Cut(Insert, "a\nb\nc")
  }

  function BlockDiffs(t: string): seq<ByteDiff> {
    ((DeletedPiece() + KEPT) + InsertedPiece()) + Tail(t)
  }

  lemma {:induction false} BlockPieces()
    ensures Piece(DeletedPiece(), 0, 0, 9, 0, DELETED, [])
    ensures Piece(KEPT, 9, 0, 2, 2, [], []) && Piece(InsertedPiece(), 11, 2, 0, 6, [], INSERTED)
  {
    var x, y := [ByteDiff(Delete, " ")], Cut(Delete, "a\n b\n c");
    OnePiece(x[0], 0, 0);
    CutPiece(Delete, "a\n b\n c", 1, 0);
    OnePiece(KEPT[0], 9, 0);
    CutPiece(Insert, "a\nb\nc", 11, 2);
    assert [Segment(0, 1)] + [Segment(1, 8), Segment(8, 9)] == DELETED;
    hide OldText, NewText, Cut, Piece;
    PieceJoin(x, y, 0, 0, 1, 0, [Segment(0, 1)], [], 8, 0, [Segment(1, 8), Segment(8, 9)], []);
  }

  lemma {:induction false} BlockSums()
    ensures ((DELETED + []) + []) + [] == DELETED && (([] + []) + INSERTED) + [] == INSERTED
  {
  }

  lemma {:induction false} BlockEdits(t: string)
    ensures Deletions(BlockDiffs(t)) == DELETED && Insertions(BlockDiffs(t)) == INSERTED
  {
    BlockDiffsAre(t);
    hide *;
    var x, y := DeletedPiece(), InsertedPiece();
    BlockPieces();
    TailPiece(t, 11, 8);
    PieceJoin(x, KEPT, 0, 0, 9, 0, DELETED, [], 2, 2, [], []);
    PieceJoin(x + KEPT, y, 0, 0, 9 + 2, 0 + 2, DELETED + [], [] + [], 0, 6, [], INSERTED);
    PieceJoin((x + KEPT) + y, Tail(t), 0, 0, 9 + 2 + 0, 0 + 2 + 6, (DELETED + []) + [], ([] + []) + INSERTED,
              |t|, |t|, [], []);
    BlockSums();
    PieceEdits(BlockDiffs(t), 9 + 2 + 0 + |t|, 0 + 2 + 6 + |t|, ((DELETED + []) + []) + [],
               (([] + []) + INSERTED) + []);
  }

  /** The diff of the lines: three deleted, one kept, three inserted, the rest kept. */
  function BlockOps(m: nat): seq<D.DiffOp> {
    [D.Delete(0, 3, 0), D.Equal(3, 0, 1), D.Insert(4, 1, 3)] + if m == 0 then [] else [D.Equal(4, 4, m)]
  }

  lemma {:induction false} BlockLineOps(hunks: seq<D.Hunk>, m: nat)
    requires hunks == [D.Hunk(0, 3, 0, 0), D.Hunk(4, 4, 1, 4)]
    ensures D.OpsOf(hunks, 4 + m) == BlockOps(m)
    ensures forall k: nat :: D.Counterpart(hunks, k) == if k == 0 then Some(3) else if k < 4 then None else Some(k)
  {
    assert D.OpsOf(hunks, 4 + m, 2) == D.GapOp(4, 4, 4 + m);
    assert D.OpsOf(hunks, 4 + m, 1) == [D.Equal(3, 0, 1)] + ([D.Insert(4, 1, 3)] + D.OpsOf(hunks, 4 + m, 2));
    assert D.OpsOf(hunks, 4 + m) == [] + ([D.Delete(0, 3, 0)] + D.OpsOf(hunks, 4 + m, 1));
    forall k: nat
      ensures D.Counterpart(hunks, k) == if k == 0 then Some(3) else if k < 4 then None else Some(k)
    {
      if k >= 4 {
        assert D.Counterpart(hunks, k, 2) == Some(k);
        assert D.Counterpart(hunks, k, 1) == D.Counterpart(hunks, k, 2);
      }
    }
  }

  // ----- The checkpoint's diff -----

  /** A human checkpoint on the two texts, with a line diff that keeps the line `X` and the rest. */
  ghost predicate OnBlock(r: Request, t: string) {
    && !r.isAi && r.olds == OLD_BLOCK + t && r.news == NEW_BLOCK + t && KeepsBlockWhole(r.differ)
    && r.differ(Lines(r.olds), Lines(r.news)) == [D.Hunk(0, 3, 0, 0), D.Hunk(4, 4, 1, 4)]
  }

  /** There is such a checkpoint, whatever the attributions. */
  lemma {:induction false} SomeOnBlock(cc: CharClass, t: string, attrs: seq<Attribution>, author: string, ts: nat)
    returns (r: Request)
    ensures OnBlock(r, t) && r.attrs == attrs && r.cc == cc && r.author == author && r.ts == ts
  {
    var before, after := Lines(OLD_BLOCK + t), Lines(NEW_BLOCK + t);
    var hunks := [D.Hunk(0, 3, 0, 0), D.Hunk(4, 4, 1, 4)];
    BlockLines(t);
    assert |before| >= 4 && |after| >= 4;
    hide Lines;
    BlockHunks(before, after, Lines(t));
    D.HonestAnswers(before, after, hunks);
    WholeByDefault(before, after, hunks);
    hide *;
    r := Request(cc, D.DifferGiving(before, after, hunks), OLD_BLOCK + t, NEW_BLOCK + t, attrs, author, ts, false);
    OnBlockIntro(r, t);
  }

  lemma {:induction false} OnBlockIntro(r: Request, t: string)
    requires !r.isAi && r.olds == OLD_BLOCK + t && r.news == NEW_BLOCK + t && KeepsBlockWhole(r.differ)
    requires r.differ(Lines(r.olds), Lines(r.news)) == [D.Hunk(0, 3, 0, 0), D.Hunk(4, 4, 1, 4)]
    ensures OnBlock(r, t)
  {
  }

  lemma {:induction false} BlockHunks(before: seq<string>, after: seq<string>, rest: seq<string>)
    requires before == OLD_LINES + rest && after == NEW_LINES + rest
    ensures D.ValidHunks(before, after, [D.Hunk(0, 3, 0, 0), D.Hunk(4, 4, 1, 4)])
  {
    var hunks := [D.Hunk(0, 3, 0, 0), D.Hunk(4, 4, 1, 4)];
    KeptSlices(rest);
    assert before[4..|before|] == rest == after[4..|after|];
    assert D.HunkFits(before, after, hunks, 0) && D.HunkFits(before, after, hunks, 1);
  }

  lemma {:induction false} KeptSlices(rest: seq<string>)
    ensures (OLD_LINES + rest)[3..3 + 1] == (NEW_LINES + rest)[0..0 + 1]
    ensures (OLD_LINES + rest)[4..4 + |rest|] == rest == (NEW_LINES + rest)[4..4 + |rest|]
  {
    assert (OLD_LINES + rest)[3] == OLD_LINES[3] == NEW_LINES[0] == (NEW_LINES + rest)[0];
  }

  /** What the steps below need to know of the job. */
  ghost predicate BlockJob(job: Job, t: string, m: nat) {
    && !job.isAi && job.olds == OLD_BLOCK + t && job.news == NEW_BLOCK + t && KeepsBlockWhole(job.differ)
    && job.ops == BlockOps(m) && |Lines(t)| == m
    && |LineRanges(job.olds)| == |LineRanges(job.news)| == 4 + m
  }

  lemma {:induction false} BlockJobOf(r: Request, t: string)
    requires OnBlock(r, t)
    ensures D.HonestDiffer(r.differ) && BlockJob(JobFor(r), t, |Lines(t)|)
    ensures |Lines(r.olds)| == |Lines(r.news)| == 4 + |Lines(t)|
  {
    BlockLines(t);
    BlockOpsAre(r, t);
    assert |LineRanges(r.olds)| == |Lines(r.olds)| && |LineRanges(r.news)| == |Lines(r.news)|;
    hide Lines, LineRanges, BlockOps, D.HonestDiffer, D.DiffSpec;
  }

  lemma {:induction false} BlockOpsAre(r: Request, t: string)
    requires OnBlock(r, t)
    ensures D.HonestDiffer(r.differ)
    ensures D.DiffSpec(r.differ, Lines(r.olds), Lines(r.news)) == BlockOps(|Lines(t)|)
  {
    var hunks, m := [D.Hunk(0, 3, 0, 0), D.Hunk(4, 4, 1, 4)], |Lines(t)|;
    BlockLines(t);
    hide Lines, D.Counterpart, D.OpsOf, BlockOps, D.DiffSpec, D.ValidHunks, D.HonestDiffer;
    BlockLineOps(hunks, m);
    OpsAre(r.differ, Lines(r.olds), Lines(r.news), hunks);
  }

  lemma {:induction false} BlockRuns(m: nat)
    ensures ChangedRun(BlockOps(m), 0, 1) && ChangedRun(BlockOps(m), 2, 3)
    ensures |BlockOps(m)| == if m == 0 then 3 else 4
    ensures BlockOps(m)[0] == D.Delete(0, 3, 0) && BlockOps(m)[1] == D.Equal(3, 0, 1)
    ensures BlockOps(m)[2] == D.Insert(4, 1, 3) && (m > 0 ==> BlockOps(m)[3] == D.Equal(4, 4, m))
  {
  }

  lemma {:induction false} KeptText(t: string)
    ensures EqualPiece(OLD_BLOCK + t, 9, 11) == KEPT
    ensures t != [] ==> EqualPiece(OLD_BLOCK + t, 11, |OLD_BLOCK + t|) == Tail(t)
    ensures |OLD_BLOCK + t| == 11 + |t| && |NEW_BLOCK + t| == 8 + |t|
  {
    assert (OLD_BLOCK + t)[9..11] == "X\n";
    assert (OLD_BLOCK + t)[11..|OLD_BLOCK + t|] == t;
  }

  lemma {:induction false} NoLines(t: string)
    ensures |Lines(t)| == 0 <==> t == []
  {
    LinesAreLineList(t);
    LineRangesPartition(t, 0);
    hide LineRanges;
  }

  /** What is used of the job, one op at a time. */
  lemma {:induction false} BlockJobParts(job: Job, t: string, m: nat)
    requires BlockJob(job, t, m)
    ensures !job.isAi && KeepsBlockWhole(job.differ) && D.HonestDiffer(job.differ)
    ensures job.olds == OLD_BLOCK + t && job.news == NEW_BLOCK + t && |job.olds| == 11 + |t| && |job.news| == 8 + |t|
    ensures |job.ops| == (if m == 0 then 3 else 4) && (m == 0 <==> t == [])
    ensures ChangedRun(job.ops, 0, 1) && job.ops[0] == D.Delete(0, 3, 0) && job.ops[1] == D.Equal(3, 0, 1)
    ensures ChangedRun(job.ops, 2, 3) && job.ops[2] == D.Insert(4, 1, 3)
    ensures m > 0 ==> job.ops[3] == D.Equal(4, 4, m)
    ensures LineStart(job.olds, 0) == 0 && LineStart(job.olds, 3) == 9 && LineStart(job.olds, 4) == 11
    ensures LineStart(job.olds, 4 + m) == |job.olds|
    ensures LineStart(job.news, 0) == 0 && LineStart(job.news, 1) == 2 && LineStart(job.news, 4) == 8
    ensures 9 - 0 < TOKEN_DIFF_FAST_PATH_MIN_BYTES
  {
    BlockStarts(t);
    BlockRuns(m);
    BlockLines(t);
    NoLines(t);
    KeptText(t);
    hide LineStart, LineRanges, Lines, BlockOps, D.HonestDiffer, ChangedRun, EqualPiece, Tail;
  }

  /** The block with its indentation: its tokens, and the text before, between and after them. */
  lemma {:induction false} IndentedTokens(cc: CharClass, t: string)
    ensures Tokens(cc, OLD_BLOCK + t, 0, 9) == BlockTokens(1, 4, 7)
    ensures var c := OLD_BLOCK + t; |c| >= 9 && c[0..1] == " " && c[1..8] == "a\n b\n c" && c[8..9] == "\n"
  {
    var c := OLD_BLOCK + t;
    IndentedText(t);
    IndentedLetters(t);
    hide Tokens, OLD_BLOCK;
    BlankFirst(cc, c, 0, 9);
    LetterLine(cc, c, 1, 9);
    BlankFirst(cc, c, 3, 9);
    LetterLine(cc, c, 4, 9);
    BlankFirst(cc, c, 6, 9);
    LetterLine(cc, c, 7, 9);
    NoTokens(cc, c, 9);
    TokensInRow([c[1]], [c[4]], [c[7]], 1, 4, 7);
  }

  lemma {:induction false} IndentedLetters(t: string)
    ensures var c := OLD_BLOCK + t;
            && |c| >= 9 && c[0] == c[3] == c[6] == ' ' && c[2] == c[5] == c[8] == '\n'
            && c[1] == 'a' && c[4] == 'b' && c[7] == 'c'
  {
  }

  lemma {:induction false} IndentedText(t: string)
    ensures var c := OLD_BLOCK + t; |c| >= 9 && c[0..1] == " " && c[1..8] == "a\n b\n c" && c[8..9] == "\n"
  {
  }

  lemma {:induction false} IndentedCutOut(c: string, news: string)
    requires |c| >= 9 && c[0..1] == " " && c[1..8] == "a\n b\n c" && c[8..9] == "\n"
    ensures (RangeDiffs(c, news, 0, 1, 0, 0, false) + [ByteDiff(Delete, c[1..8])])
            + RangeDiffs(c, news, 8, 9, 0, 0, true)
         == DeletedPiece()
  {
    var text := c[1..8];
    assert news[0..0] == [];
    assert (([ByteDiff(Delete, " ")] + []) + [ByteDiff(Delete, text)]) + ([ByteDiff(Delete, "\n")] + [])
        == [ByteDiff(Delete, " ")] + Cut(Delete, text);
  }

  lemma {:induction false} IndentedDeleted(cc: CharClass, differ: D.Differ, t: string, news: string)
    requires KeepsBlockWhole(differ)
    ensures |OLD_BLOCK + t| >= 9 && TokenDiffs(WorkOf(cc, differ, OLD_BLOCK + t, 0, 9, news, 0, 0)) == DeletedPiece()
  {
    var c := OLD_BLOCK + t;
    IndentedTokens(cc, t);
    BlockLexemes(1, 4, 7);
    IndentedCutOut(c, news);
    hide Tokens, Lexemes, D.HonestDiffer, TokenDiffs, WorkOf, RangeDiffs, LETTERS, DeletedPiece, OLD_BLOCK;
    DeletedTokens(cc, differ, c, 0, 9, news, 0, 1, 8);
  }

  lemma {:induction false} PlainBlockStands(t: string)
    ensures BlockStands(NEW_BLOCK + t, 2)
  {
  }

  lemma {:induction false} WrittenFirst(job: Job, t: string, m: nat)
    requires BlockJob(job, t, m)
    ensures D.HonestDiffer(job.differ) && |job.ops| >= 3 && Written(job, 1).diffs == DeletedPiece()
  {
    hide *;
    BlockJobParts(job, t, m);
    SmallDeletion(job, 0, 0, 0, 3);
    WriteRun(job, 0, HunkRecord(0, 9, 0, 0, false));
    IndentedDeleted(job.cc, job.differ, t, job.news);
    NothingWritten(job);
    assert [] + DeletedPiece() == DeletedPiece();
  }

  lemma {:induction false} WrittenThird(job: Job, t: string, m: nat)
    requires BlockJob(job, t, m)
    ensures D.HonestDiffer(job.differ) && |job.ops| >= 3
    ensures Written(job, 3).diffs == (DeletedPiece() + KEPT) + InsertedPiece()
  {
    hide *;
    BlockJobParts(job, t, m);
    WrittenFirst(job, t, m);
    KeptText(t);
    WriteKept(job, 1, 3, 0, 1, 9, 11);
    SmallInsertion(job, 2, 4, 1, 3);
    WriteRun(job, 2, HunkRecord(11, 11, 2, 8, false));
    PlainBlockStands(t);
    BlockInserted(job.cc, job.differ, job.olds, 11, job.news, 2);
    InsertedPieceIs();
  }

  lemma {:induction false} InsertedPieceIs()
    ensures InsertedPiece() == Cut(Insert, BLOCK)
  {
  }

  lemma {:induction false} WrittenAll(job: Job, t: string, m: nat)
    requires BlockJob(job, t, m)
    ensures D.HonestDiffer(job.differ) && Written(job, |job.ops|).diffs == BlockDiffs(t)
  {
    BlockDiffsAre(t);
    hide *;
    BlockJobParts(job, t, m);
    WrittenThird(job, t, m);
    KeptText(t);
    if m > 0 {
      WriteKept(job, 3, 4, 4, m, 11, |job.olds|);
    }
  }

  lemma {:induction false} BlockDiffsAre(t: string)
    ensures BlockDiffs(t) == ((DeletedPiece() + KEPT) + InsertedPiece()) + Tail(t)
    ensures t == [] ==> BlockDiffs(t) == (DeletedPiece() + KEPT) + InsertedPiece()
  {
    hide DeletedPiece, InsertedPiece, KEPT;
  }

  /** The script that such a checkpoint computes. */
  lemma {:induction false} BlockScript(r: Request, f: Findings, t: string)
    requires OnBlock(r, t) && D.HonestDiffer(r.differ) && DiffsFor(r, f)
    ensures f.diffs == BlockDiffs(t) && Separated(f.substantive)
  {
    BlockJobOf(r, t);
    assert f.diffs == Written(JobFor(r), |JobFor(r).ops|).diffs && Separated(f.substantive);
    var job := JobFor(r);
    hide *;
    WrittenAll(job, t, |Lines(t)|);
  }

  // ----- The search -----

  const BLOCK_MOVE := MoveMapping(1, 0, (0, 7), (0, 5))

  function NewRecords(): seq<M.LineRecord> {
    [Rec("a", "", 2, 0), Rec("b", "", 3, 0), Rec("c", "", 4, 0), Rec("c", "", 4, 1)]
  }

  function OldRecords(): seq<M.LineRecord> {
    [Rec(" a", "", 1, 0), Rec(" a", "", 1, 1), Rec(" b", "", 2, 1), Rec(" c", "", 3, 1), Rec(" c", "", 3, 2)]
  }

  lemma {:induction false} NewTouched(lines: seq<LineMetadata>)
    requires NewHead(lines)
    ensures Touched(lines, INSERTED) == NewRecords()
  {
    forall r ensures r in NewRecords() <==> IsTouching(lines, INSERTED, r) {
      if IsTouching(lines, INSERTED, r) {
        assert r.number <= 4;
        assert lines[r.number - 1] in lines[..4];
      }
    }
    assert InOrder(NewRecords());
    hide NewHead, IsTouching, Touched, InOrder;
    NewNumbered(lines);
    TouchedDetermined(lines, INSERTED, NewRecords());
  }

  lemma {:induction false} NewNumbered(lines: seq<LineMetadata>)
    requires NewHead(lines)
    ensures Numbered(lines)
  {
  }

  lemma {:induction false} OldNumbered(lines: seq<LineMetadata>)
    requires OldHead(lines)
    ensures Numbered(lines)
  {
  }

  lemma {:induction false} OldTouched(lines: seq<LineMetadata>)
    requires OldHead(lines)
    ensures Touched(lines, DELETED) == OldRecords()
  {
    forall r ensures r in OldRecords() <==> IsTouching(lines, DELETED, r) {
      if IsTouching(lines, DELETED, r) {
        assert r.number <= 4;
        assert lines[r.number - 1] in lines[..4];
      }
    }
    assert InOrder(OldRecords());
    hide OldHead, IsTouching, Touched, InOrder;
    OldNumbered(lines);
    TouchedDetermined(lines, DELETED, OldRecords());
  }

  function NewTrimmed(): seq<M.LineRecord> {
    [Rec("a", "a", 2, 0), Rec("b", "b", 3, 0), Rec("c", "c", 4, 0), Rec("c", "c", 4, 1)]
  }

  function OldTrimmed(): seq<M.LineRecord> {
    [Rec(" a", "a", 1, 0), Rec(" a", "a", 1, 1), Rec(" b", "b", 2, 1), Rec(" c", "c", 3, 1), Rec(" c", "c", 3, 2)]
  }

  lemma {:induction false} NewPrepared(cc: CharClass)
    ensures M.Prepared(cc, NewRecords()) == NewTrimmed()
  {
    TrimLetters(cc);
    hide Trim, M.Prepared;
    PreparedOf(cc, NewRecords(), NewTrimmed());
  }

  lemma {:induction false} OldPrepared(cc: CharClass)
    ensures M.Prepared(cc, OldRecords()) == OldTrimmed()
  {
    TrimLetters(cc);
    hide Trim, M.Prepared;
    PreparedOf(cc, OldRecords(), OldTrimmed());
  }

  lemma {:induction false} NewGroups(ls: seq<M.LineRecord>)
    requires ls == NewTrimmed()
    ensures M.GroupsOf(ls, 3) == [[0, 1, 2]]
  {
    assert M.GroupUpTo(ls, 0, 3) == M.Grouping([], [], None);
    hide M.GroupUpTo;
    M.GroupUnfold(ls, 1, 3);
    M.GroupUnfold(ls, 2, 3);
    M.GroupUnfold(ls, 3, 3);
    M.GroupUnfold(ls, 4, 3);
    assert M.GroupUpTo(ls, 3, 3) == M.Grouping([], [0, 1, 2], Some(4));
    assert M.GroupUpTo(ls, 4, 3) == M.Grouping([[0, 1, 2]], [3], Some(4));
  }

  lemma {:induction false} OldGroups(ls: seq<M.LineRecord>)
    requires ls == OldTrimmed()
    ensures M.GroupsOf(ls, 3) == [[1, 2, 3]]
  {
    assert M.GroupUpTo(ls, 0, 3) == M.Grouping([], [], None);
    hide M.GroupUpTo;
    M.GroupUnfold(ls, 1, 3);
    M.GroupUnfold(ls, 2, 3);
    M.GroupUnfold(ls, 3, 3);
    M.GroupUnfold(ls, 4, 3);
    M.GroupUnfold(ls, 5, 3);
    assert M.GroupUpTo(ls, 2, 3) == M.Grouping([], [1], Some(1));
    assert M.GroupUpTo(ls, 4, 3) == M.Grouping([], [1, 2, 3], Some(3));
    assert M.GroupUpTo(ls, 5, 3) == M.Grouping([[1, 2, 3]], [4], Some(3));
  }

  lemma {:induction false} BlockSides()
    ensures M.SidesOf(NewTrimmed(), OldTrimmed(), 3) == M.Sides(NewTrimmed(), [[0, 1, 2]], OldTrimmed(), [[1, 2, 3]])
    ensures M.ScanGroups(M.SidesOf(NewTrimmed(), OldTrimmed(), 3), 0, 3) == [M.Match(0, 0, 0, 0, 3)]
  {
    NewGroups(NewTrimmed());
    OldGroups(OldTrimmed());
    hide M.GroupsOf, M.ScanGroups, NewTrimmed, OldTrimmed;
    var s := M.SidesOf(NewTrimmed(), OldTrimmed(), 3);
    SameLines(s);
    hide M.SidesOf;
    GroupMatches(s, 0);
    M.ScanGroupsUnfold(s, 0, 3);
    M.ScanGroupsUnfold(s, 1, 3);
    assert [M.Match(0, 0, 0, 0, 3)] + [] == [M.Match(0, 0, 0, 0, 3)];
  }

  lemma {:induction false} SameLines(s: M.Sides)
    requires M.ValidSides(s) && s == M.Sides(NewTrimmed(), [[0, 1, 2]], OldTrimmed(), [[1, 2, 3]])
    ensures forall k | 0 <= k < 3 :: M.SameText(s, 0, k, 0, k)
  {
    assert s.insGroups[0] == [0, 1, 2] && s.delGroups[0] == [1, 2, 3];
    assert s.ins[0].normalized == s.del[1].normalized && s.ins[1].normalized == s.del[2].normalized
           && s.ins[2].normalized == s.del[3].normalized;
    hide M.ValidSides;
  }

  lemma {:induction false} BlockFound(cc: CharClass, lms: seq<M.LineMapping>)
    requires Found(cc, NewRecords(), OldRecords(), 3, lms)
    ensures |lms| == 1
    ensures lms[0].deleted == [Rec(" a", "a", 1, 1), Rec(" b", "b", 2, 1), Rec(" c", "c", 3, 1)]
    ensures lms[0].inserted == [Rec("a", "a", 2, 0), Rec("b", "b", 3, 0), Rec("c", "c", 4, 0)]
  {
    NewPrepared(cc);
    OldPrepared(cc);
    BlockSides();
    M.DetectedAre(cc, NewRecords(), OldRecords(), 3);
    hide M.Prepared, M.SidesOf, M.ScanGroups, M.DetectedMatches, NewRecords, OldRecords;
    RenderedBlock(M.SidesOf(NewTrimmed(), OldTrimmed(), 3), lms);
  }

  lemma {:induction false} RenderedBlock(s: M.Sides, lms: seq<M.LineMapping>)
    requires M.ValidSides(s) && s == M.Sides(NewTrimmed(), [[0, 1, 2]], OldTrimmed(), [[1, 2, 3]])
    requires M.Rendered(s, [M.Match(0, 0, 0, 0, 3)], lms)
    ensures |lms| == 1
    ensures lms[0].deleted == [Rec(" a", "a", 1, 1), Rec(" b", "b", 2, 1), Rec(" c", "c", 3, 1)]
    ensures lms[0].inserted == [Rec("a", "a", 2, 0), Rec("b", "b", 3, 0), Rec("c", "c", 4, 0)]
  {
    assert [0, 1, 2][0..3] == [0, 1, 2] && [1, 2, 3][0..3] == [1, 2, 3];
    hide M.ValidSides;
  }

  lemma {:induction false} BlockBytes(oldLines: seq<LineMetadata>, newLines: seq<LineMetadata>, lms: seq<M.LineMapping>)
    requires OldHead(oldLines) && NewHead(newLines) && |lms| == 1
    requires lms[0].deleted == [Rec(" a", "a", 1, 1), Rec(" b", "b", 2, 1), Rec(" c", "c", 3, 1)]
    requires lms[0].inserted == [Rec("a", "a", 2, 0), Rec("b", "b", 3, 0), Rec("c", "c", 4, 0)]
    ensures ByteMoves(lms, oldLines, newLines, DELETED, INSERTED) == [BLOCK_MOVE]
  {
    assert Spans(lms[0].deleted, oldLines, Segment(1, 8)) && Spans(lms[0].inserted, newLines, Segment(2, 7));
    assert ByteMove(lms[0], oldLines, newLines, DELETED, INSERTED) == Some(BLOCK_MOVE);
    assert ByteMoves(lms[..0], oldLines, newLines, DELETED, INSERTED) == [];
  }

  /**
   * On these edits the search finds one move of three lines: seven characters of the old text, and five of
   * the new.
   */
  lemma {:induction false} SearchFindsBlock(cc: CharClass, t: string, lms: seq<M.LineMapping>)
    requires FoundOn(cc, TextLines(OLD_BLOCK + t), TextLines(NEW_BLOCK + t), 3, DELETED, INSERTED, lms)
    ensures ByteMoves(lms, TextLines(OLD_BLOCK + t), TextLines(NEW_BLOCK + t), DELETED, INSERTED) == [BLOCK_MOVE]
  {
    hide *;
    BlockHeads(t);
    BlockTouched(cc, TextLines(OLD_BLOCK + t), TextLines(NEW_BLOCK + t), lms);
    BlockFound(cc, lms);
    BlockBytes(TextLines(OLD_BLOCK + t), TextLines(NEW_BLOCK + t), lms);
  }

  lemma {:induction false} BlockTouched(cc: CharClass, oldLines: seq<LineMetadata>, newLines: seq<LineMetadata>,
                                        lms: seq<M.LineMapping>)
    requires OldHead(oldLines) && NewHead(newLines)
    requires FoundOn(cc, oldLines, newLines, 3, DELETED, INSERTED, lms)
    ensures Found(cc, NewRecords(), OldRecords(), 3, lms)
  {
    hide OldHead, NewHead, Touched, Found;
    NewTouched(newLines);
    OldTouched(oldLines);
    assert NewRecords() != [] && OldRecords() != [];
    hide NewRecords, OldRecords;
  }

  // ----- What becomes of it -----

  lemma {:induction false} BlockNotSkipped(n: nat, m: nat)
    ensures !ShouldSkipMoveDetection(3, n, m, DELETED, INSERTED)
  {
    TotalNext([], Segment(0, 1));
    TotalNext([] + [Segment(0, 1)], Segment(1, 8));
    TotalNext(([] + [Segment(0, 1)]) + [Segment(1, 8)], Segment(8, 9));
    TotalNext([], Segment(2, 7));
    TotalNext([] + [Segment(2, 7)], Segment(7, 8));
    assert ([] + [Segment(0, 1)]) + [Segment(1, 8)] + [Segment(8, 9)] == DELETED;
    assert [] + [Segment(2, 7)] + [Segment(7, 8)] == INSERTED;
    assert TotalLength([]) == 0;
    hide TotalLength;
  }

  /** The moves of such a checkpoint. */
  lemma {:induction false} BlockMoveIsFound(r: Request, f: Findings, t: string)
    requires OnBlock(r, t) && f.diffs == BlockDiffs(t) && MovesFoundBy(r, f, 3)
    ensures f.mappings == [BLOCK_MOVE] && DELETED == Deletions(f.diffs) && INSERTED == Insertions(f.diffs)
  {
    BlockEdits(t);
    BlockNotSkipped(|r.olds|, |r.news|);
    assert r.olds == OLD_BLOCK + t && r.news == NEW_BLOCK + t && !r.isAi;
    hide BlockDiffs, Deletions, Insertions, FoundOn, ByteMoves, TextLines, ShouldSkipMoveDetection, AllMovesFit;
    hide OLD_BLOCK, NEW_BLOCK, DELETED, INSERTED;
    var lms :| FoundOn(r.cc, TextLines(r.olds), TextLines(r.news), 3, DELETED, INSERTED, lms)
               && f.mappings == ByteMoves(lms, TextLines(r.olds), TextLines(r.news), DELETED, INSERTED);
    SearchFindsBlock(r.cc, t, lms);
  }

  lemma {:induction false} BlockReaches(f: Findings)
    requires Insertions(f.diffs) == INSERTED && f.mappings == [BLOCK_MOVE]
    ensures Reaches(f, BLOCK_MOVE, 8)
  {
    hide Insertions;
    assert MovesFound([], 1) == [] && f.mappings[..0] == [];
    assert MovesFound(f.mappings, 1) == [] + [BLOCK_MOVE];
  }

  /**
   * A block loses its indentation as it moves to the end of the text: whatever the attributions of the old text,
   * as long as every character has one, the output leaves the new text.
   */
  lemma {:induction false} ReindentedBlockLeavesText(r: Request, f: Findings, sorted: seq<Attribution>,
                                                     result: seq<Attribution>)
    requires OnBlock(r, []) && D.HonestDiffer(r.differ) && DiffsFor(r, f) && MovesFoundBy(r, f, 3)
    requires IsRunOf(r, f, sorted, result) && FullyAttributed(r.attrs, |r.olds|)
    ensures f.diffs == BlockDiffs([]) && f.mappings == [BLOCK_MOVE] && !EndsBy(result, |r.news|)
  {
    BlockScript(r, f, []);
    BlockMoveIsFound(r, f, []);
    BlockReaches(f);
    KeptText([]);
    assert |r.news| == 8;
    hide *;
    CheckpointFits(r, f, 3);
    BroughtBeyond(r, f, sorted, result, BLOCK_MOVE, 8);
  }

  lemma {:induction false} BroughtBeyond(r: Request, f: Findings, sorted: seq<Attribution>, result: seq<Attribution>,
                                         m: MoveMapping, p: nat)
    requires Fitting(r, f) && IsRunOf(r, f, sorted, result) && FullyAttributed(r.attrs, |r.olds|)
    requires Reaches(f, m, p) && |r.news| <= p
    ensures !EndsBy(result, |r.news|)
  {
    RunIsScript(r, f, sorted, result);
    ByScriptHolds(r, f, sorted, result);
    ReachedIsOwned(r, f, m, p);
    hide Fitting, IsRunOf, FullyAttributed, Reaches, Owners, MovedTo, EndsBy;
    OwnersBeyond(result, |r.news|, p);
  }

  /** The first character after the block is copied from the first one after the old line `X`. */
  lemma {:induction false} AfterBlockCopied(r: Request, f: Findings, t: string)
    requires OnBlock(r, t) && t != [] && D.HonestDiffer(r.differ) && DiffsFor(r, f)
    ensures 8 < |r.news| && SourceAt(f.diffs, 8) == Some(11)
  {
    BlockLines(t);
    BlockStarts(t);
    NoLines(t);
    BlockLineOps([D.Hunk(0, 3, 0, 0), D.Hunk(4, 4, 1, 4)], |Lines(t)|);
    assert |LineRanges(r.news)| == |Lines(r.news)| && |LineRanges(r.olds)| == |Lines(r.olds)|;
    hide Lines, LineRanges, LineStart, DiffsFor, SourceAt, D.Counterpart, D.OpsOf, BlockOps, D.HonestDiffer, JobFor;
    AccountOf(r, f, 4);
    LineBounds(r.news, 4);
    LineBounds(r.olds, 4);
  }

  /**
   * With more text after it, the source of the same move is laid over the first character of that text: copied
   * text need not keep its owners.
   */
  lemma {:induction false} ReindentedBlockCoversCopy(r: Request, f: Findings, t: string)
    requires OnBlock(r, t) && t != [] && D.HonestDiffer(r.differ) && DiffsFor(r, f) && MovesFoundBy(r, f, 3)
    ensures f.diffs == BlockDiffs(t) && f.mappings == [BLOCK_MOVE] && Fitting(r, f)
    ensures SourceAt(f.diffs, 8) == Some(11) && !ImagesAvoidCopies(r, f) && !AlwaysCopiesExact(r, f)
  {
    hide *;
    BlockScript(r, f, t);
    BlockMoveIsFound(r, f, t);
    BlockReaches(f);
    AfterBlockCopied(r, f, t);
    CheckpointFits(r, f, 3);
    CopyReached(r, f, BLOCK_MOVE, 8);
    CopiedIff(r, f);
  }

  lemma {:induction false} CopyReached(r: Request, f: Findings, m: MoveMapping, p: nat)
    requires Reaches(f, m, p) && p < |r.news| && SourceAt(f.diffs, p).Some?
    ensures !ImagesAvoidCopies(r, f)
  {
    hide Reaches, SourceAt;
  }
}
