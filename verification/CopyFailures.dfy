/** A block that is moved and copied whole to a second place: the checkpoint leaves its second copy to nobody. */
module CopyFailures {
  import opened Prelude
  import opened Text
  import opened EditScript
  import opened Ranges
  import opened HunkDiffs
  import opened Attributions
  import opened Transform
  import opened Ownership
  import opened Moves
  import opened Checkpoint
  import opened MovedText
  import opened EditExamples
  import D = DiffOps
  import M = MoveDetection

  // The lines `a b c` move down past four lines, and once more past the last one.
  const OLD_LETTERS := "abc12345"
  const NEW_LETTERS := "1234abc5abc"

  function LineHunks(): seq<D.Hunk> {
    [D.Hunk(0, 3, 0, 0), D.Hunk(7, 7, 4, 7), D.Hunk(8, 8, 8, 11)]
  }

  /** A human checkpoint on the two texts, with the line diff that keeps the five numbered lines. */
  ghost predicate OnCopy(r: Request) {
    && !r.isAi && r.olds == TextOf(OLD_LETTERS) && r.news == TextOf(NEW_LETTERS) && KeepsBlockWhole(r.differ)
    && r.differ(Lines(r.olds), Lines(r.news)) == LineHunks()
  }

  lemma {:induction false} PlainLetters()
    ensures '\n' !in OLD_LETTERS && '\r' !in OLD_LETTERS && '\n' !in NEW_LETTERS && '\r' !in NEW_LETTERS
  {
  }

  /** There is such a checkpoint, whatever the attributions. */
  lemma {:induction false} SomeOnCopy(cc: CharClass, attrs: seq<Attribution>, author: string, ts: nat)
    returns (r: Request)
    ensures OnCopy(r) && r.attrs == attrs && r.cc == cc && r.author == author && r.ts == ts
  {
    var olds, news := TextOf(OLD_LETTERS), TextOf(NEW_LETTERS);
    hide *;
    PlainLetters();
    LettersAreLines(OLD_LETTERS);
    LettersAreLines(NEW_LETTERS);
    CopyHunks();
    D.HonestAnswers(Lines(olds), Lines(news), LineHunks());
    SomeLines();
    WholeByDefault(Lines(olds), Lines(news), LineHunks());
    r := Request(cc, D.DifferGiving(Lines(olds), Lines(news), LineHunks()), olds, news, attrs, author, ts, false);
    OnCopyIntro(r);
  }

  lemma {:induction false} SomeLines()
    ensures LinesOf(OLD_LETTERS) != [] && LinesOf(NEW_LETTERS) != []
  {
  }

  lemma {:induction false} OnCopyIntro(r: Request)
    requires !r.isAi && r.olds == TextOf(OLD_LETTERS) && r.news == TextOf(NEW_LETTERS) && KeepsBlockWhole(r.differ)
    requires r.differ(Lines(r.olds), Lines(r.news)) == LineHunks()
    ensures OnCopy(r)
  {
  }

  lemma {:induction false} OnCopyParts(r: Request)
    requires OnCopy(r)
    ensures !r.isAi && r.olds == TextOf(OLD_LETTERS) && r.news == TextOf(NEW_LETTERS) && KeepsBlockWhole(r.differ)
    ensures D.HonestDiffer(r.differ)
    ensures r.differ(Lines(r.olds), Lines(r.news)) == LineHunks()
  {
  }

  lemma {:induction false} CopyHunks()
    ensures D.ValidHunks(LinesOf(OLD_LETTERS), LinesOf(NEW_LETTERS), LineHunks())
  {
    var before, after := LinesOf(OLD_LETTERS), LinesOf(NEW_LETTERS);
    assert before[3..7] == after[0..4] && before[7..8] == after[7..8];
    assert D.HunkFits(before, after, LineHunks(), 0) && D.HunkFits(before, after, LineHunks(), 1)
           && D.HunkFits(before, after, LineHunks(), 2);
    hide LinesOf;
  }

  // ----- The script -----

  // The block goes, four lines stay, the block comes, one line stays, and the block comes once more.

  function Removed(): seq<ByteDiff> {
    Cut(Delete, BLOCK)
  }

  function KeptFour(olds: string): seq<ByteDiff>
    requires |olds| == 16
  {
    Removed() + EqualPiece(olds, 6, 14)
  }

  function MovedOnce(olds: string): seq<ByteDiff>
    requires |olds| == 16
  {
    KeptFour(olds) + Cut(Insert, BLOCK)
  }

  function KeptFive(olds: string): seq<ByteDiff>
    requires |olds| == 16
  {
    MovedOnce(olds) + EqualPiece(olds, 14, 16)
  }

  function CopyDiffs(olds: string): seq<ByteDiff>
    requires |olds| == 16
  {
    KeptFive(olds) + Cut(Insert, BLOCK)
  }

  const DELETED := [Segment(0, 5), Segment(5, 6)]
  const INSERTED := [Segment(8, 13), Segment(13, 14), Segment(16, 21), Segment(21, 22)]

  lemma {:induction false} EqualIsPiece(olds: string, a: nat, a': nat, b: nat)
    requires a < a' <= |olds|
    ensures Piece(EqualPiece(olds, a, a'), a, b, a' - a, a' - a, [], [])
  {
    OnePiece(ByteDiff(Equal, olds[a..a']), a, b);
  }

  lemma {:induction false} BlockPieces()
    ensures Piece(Cut(Delete, BLOCK), 0, 0, 6, 0, DELETED, [])
    ensures Piece(Cut(Insert, BLOCK), 14, 8, 0, 6, [], [Segment(8, 13), Segment(13, 14)])
    ensures Piece(Cut(Insert, BLOCK), 16, 16, 0, 6, [], [Segment(16, 21), Segment(21, 22)])
  {
    assert |BLOCK| == 5;
    CutPiece(Delete, BLOCK, 0, 0);
    CutPiece(Insert, BLOCK, 14, 8);
    CutPiece(Insert, BLOCK, 16, 16);
    hide Cut, Piece;
  }

  lemma {:induction false} Sums()
    ensures ((([] + []) + [Segment(8, 13), Segment(13, 14)]) + []) + [Segment(16, 21), Segment(21, 22)] == INSERTED
    ensures (((DELETED + []) + []) + []) + [] == DELETED
  {
  }

  lemma {:induction false} CopyEdits(olds: string)
    requires |olds| == 16
    ensures Deletions(CopyDiffs(olds)) == DELETED && Insertions(CopyDiffs(olds)) == INSERTED
  {
    hide *;
    var y := Cut(Insert, BLOCK);
    var early, late := [Segment(8, 13), Segment(13, 14)], [Segment(16, 21), Segment(21, 22)];
    BlockPieces();
    CopyParts(olds);
    EqualIsPiece(olds, 6, 14, 0);
    EqualIsPiece(olds, 14, 16, 14);
    PieceJoin(Removed(), EqualPiece(olds, 6, 14), 0, 0, 6, 0, DELETED, [], 8, 8, [], []);
    PieceJoin(KeptFour(olds), y, 0, 0, 6 + 8, 0 + 8, DELETED + [], [] + [], 0, 6, [], early);
    PieceJoin(MovedOnce(olds), EqualPiece(olds, 14, 16), 0, 0, 6 + 8 + 0, 0 + 8 + 6, (DELETED + []) + [],
              ([] + []) + early, 2, 2, [], []);
    PieceJoin(KeptFive(olds), y, 0, 0, 6 + 8 + 0 + 2, 0 + 8 + 6 + 2, ((DELETED + []) + []) + [],
              (([] + []) + early) + [], 0, 6, [], late);
    Sums();
    PieceEdits(CopyDiffs(olds), 6 + 8 + 0 + 2 + 0, 0 + 8 + 6 + 2 + 6, (((DELETED + []) + []) + []) + [],
               ((([] + []) + early) + []) + late);
  }

  // ----- The checkpoint's diff -----

  function CopyOps(): seq<D.DiffOp> {
    [D.Delete(0, 3, 0), D.Equal(3, 0, 4), D.Insert(7, 4, 3), D.Equal(7, 7, 1), D.Insert(8, 8, 3)]
  }

  lemma {:induction false} OpsAreCopyOps()
    ensures (forall k | 0 <= k < |LineHunks()| :: D.WellShaped(LineHunks()[k])) && D.OpsOf(LineHunks(), 8) == CopyOps()
  {
    var hunks := LineHunks();
    assert D.OpsOf(hunks, 8, 3) == [];
    assert D.OpsOf(hunks, 8, 2) == [D.Equal(7, 7, 1)] + ([D.Insert(8, 8, 3)] + D.OpsOf(hunks, 8, 3));
    assert D.OpsOf(hunks, 8, 1) == [D.Equal(3, 0, 4)] + ([D.Insert(7, 4, 3)] + D.OpsOf(hunks, 8, 2));
    assert D.OpsOf(hunks, 8) == [] + ([D.Delete(0, 3, 0)] + D.OpsOf(hunks, 8, 1));
  }

  /** What the steps below need to know of the job. */
  ghost predicate CopyJob(job: Job) {
    && !job.isAi && KeepsBlockWhole(job.differ) && job.ops == CopyOps()
    && OneLetterLines(job.olds, OLD_LETTERS) && OneLetterLines(job.news, NEW_LETTERS)
  }

  lemma {:induction false} CopyJobOf(r: Request)
    requires OnCopy(r)
    ensures D.HonestDiffer(r.differ) && CopyJob(JobFor(r))
  {
    hide *;
    OnCopyParts(r);
    PlainLetters();
    TextOfLetters(OLD_LETTERS);
    TextOfLetters(NEW_LETTERS);
    TwoTexts(r);
    OpsAreCopyOps();
    OpsAre(r.differ, Lines(r.olds), Lines(r.news), LineHunks());
    CopyJobIntro(r);
  }

  lemma {:induction false} CopyJobIntro(r: Request)
    requires !r.isAi && OneLetterLines(r.olds, OLD_LETTERS) && OneLetterLines(r.news, NEW_LETTERS)
    requires D.HonestDiffer(r.differ) && D.DiffSpec(r.differ, Lines(r.olds), Lines(r.news)) == CopyOps()
    requires KeepsBlockWhole(r.differ)
    ensures CopyJob(JobFor(r))
  {
    hide OneLetterLines, CopyOps, D.DiffSpec, D.HonestDiffer, Lines, OLD_LETTERS, NEW_LETTERS, KeepsBlockWhole;
  }

  lemma {:induction false} TwoTexts(r: Request)
    requires OneLetterLines(r.olds, OLD_LETTERS) && OneLetterLines(r.news, NEW_LETTERS)
    ensures |Lines(r.olds)| == 8 && |Lines(r.news)| == 11 && |r.olds| == 16 && |r.news| == 22
  {
  }

  lemma {:induction false} CopyRuns()
    ensures ChangedRun(CopyOps(), 0, 1) && ChangedRun(CopyOps(), 2, 3) && ChangedRun(CopyOps(), 4, 5)
    ensures |CopyOps()| == 5 && CopyOps()[0] == D.Delete(0, 3, 0) && CopyOps()[2] == D.Insert(7, 4, 3)
    ensures CopyOps()[1] == D.Equal(3, 0, 4) && CopyOps()[3] == D.Equal(7, 7, 1) && CopyOps()[4] == D.Insert(8, 8, 3)
  {
  }

  /** Three lines of the text are the block. */
  predicate BlockAt(letters: string, k: nat) {
    k + 3 <= |letters| && letters[k] == 'a' && letters[k + 1] == 'b' && letters[k + 2] == 'c'
  }

  lemma {:induction false} BlocksAt()
    ensures BlockAt(OLD_LETTERS, 0) && BlockAt(NEW_LETTERS, 4) && BlockAt(NEW_LETTERS, 8)
    ensures |OLD_LETTERS| == 8 && |NEW_LETTERS| == 11
  {
  }

  lemma {:induction false} LettersStand(c: string, letters: string, k: nat)
    requires OneLetterLines(c, letters) && BlockAt(letters, k)
    ensures BlockStands(c, 2 * k)
  {
    LetterSlice(c, letters, k);
    LetterSlice(c, letters, k + 1);
    LetterSlice(c, letters, k + 2);
    hide OneLetterLines;
    var p := 2 * k;
    assert c[p] == c[p..p + 2][0] && c[p + 1] == c[p..p + 2][1];
    assert c[p + 2] == c[p + 2..p + 4][0] && c[p + 3] == c[p + 2..p + 4][1];
    assert c[p + 4] == c[p + 4..p + 6][0] && c[p + 5] == c[p + 4..p + 6][1];
  }

  /** What is used of the job, op by op. */
  lemma {:induction false} CopyJobParts(job: Job)
    requires CopyJob(job)
    ensures !job.isAi && KeepsBlockWhole(job.differ) && D.HonestDiffer(job.differ)
    ensures |job.olds| == 16 && |job.news| == 22 && |job.ops| == 5
    ensures ChangedRun(job.ops, 0, 1) && job.ops[0] == D.Delete(0, 3, 0) && job.ops[1] == D.Equal(3, 0, 4)
    ensures ChangedRun(job.ops, 2, 3) && job.ops[2] == D.Insert(7, 4, 3) && job.ops[3] == D.Equal(7, 7, 1)
    ensures ChangedRun(job.ops, 4, 5) && job.ops[4] == D.Insert(8, 8, 3)
    ensures 6 - 0 < TOKEN_DIFF_FAST_PATH_MIN_BYTES
  {
    CopyRuns();
    hide CopyOps, ChangedRun, D.HonestDiffer, LineStart, LineRanges, Lines, TextLines, LinesOf;
  }

  lemma {:induction false} JobStarts(job: Job)
    requires CopyJob(job)
    ensures LineStart(job.olds, 0) == 0 && LineStart(job.olds, 3) == 6 && LineStart(job.olds, 7) == 14
    ensures LineStart(job.olds, 8) == 16 && LineStart(job.news, 0) == 0 && LineStart(job.news, 4) == 8
    ensures LineStart(job.news, 7) == 14 && LineStart(job.news, 8) == 16 && LineStart(job.news, 11) == 22
    ensures BlockStands(job.olds, 0) && BlockStands(job.news, 8) && BlockStands(job.news, 16)
  {
    BlocksAt();
    LettersStand(job.olds, OLD_LETTERS, 0);
    LettersStand(job.news, NEW_LETTERS, 4);
    LettersStand(job.news, NEW_LETTERS, 8);
    hide LineStart, LineRanges, Lines, TextLines, BlockStands, BlockAt, OLD_LETTERS, NEW_LETTERS, LinesOf;
  }

  lemma {:induction false} WrittenOnce(job: Job)
    requires CopyJob(job)
    ensures D.HonestDiffer(job.differ) && |job.olds| == 16 && |job.ops| == 5
    ensures Written(job, 3).diffs == MovedOnce(job.olds)
  {
    hide *;
    CopyJobParts(job);
    JobStarts(job);
    CopyParts(job.olds);
    NothingWritten(job);
    SmallDeletion(job, 0, 0, 0, 3);
    WriteRun(job, 0, HunkRecord(0, 6, 0, 0, false));
    BlockDeleted(job.cc, job.differ, job.olds, 0, job.news, 0);
    assert [] + Removed() == Removed();
    WriteKept(job, 1, 3, 0, 4, 6, 14);
    SmallInsertion(job, 2, 7, 4, 3);
    WriteRun(job, 2, HunkRecord(14, 14, 8, 14, false));
    BlockInserted(job.cc, job.differ, job.olds, 14, job.news, 8);
  }

  lemma {:induction false} WrittenTwice(job: Job)
    requires CopyJob(job)
    ensures D.HonestDiffer(job.differ) && |job.olds| == 16 && Written(job, |job.ops|).diffs == CopyDiffs(job.olds)
  {
    hide *;
    CopyJobParts(job);
    JobStarts(job);
    CopyParts(job.olds);
    WrittenOnce(job);
    WriteKept(job, 3, 7, 7, 1, 14, 16);
    SmallInsertion(job, 4, 8, 8, 3);
    WriteRun(job, 4, HunkRecord(16, 16, 16, 22, false));
    BlockInserted(job.cc, job.differ, job.olds, 16, job.news, 16);
  }

  lemma {:induction false} CopyParts(olds: string)
    requires |olds| == 16
    ensures Removed() == Cut(Delete, BLOCK) && KeptFour(olds) == Removed() + EqualPiece(olds, 6, 14)
    ensures MovedOnce(olds) == KeptFour(olds) + Cut(Insert, BLOCK)
    ensures KeptFive(olds) == MovedOnce(olds) + EqualPiece(olds, 14, 16)
    ensures CopyDiffs(olds) == KeptFive(olds) + Cut(Insert, BLOCK)
  {
  }

  /** The script that such a checkpoint computes. */
  lemma {:induction false} CopyScript(r: Request, f: Findings)
    requires OnCopy(r) && D.HonestDiffer(r.differ) && DiffsFor(r, f)
    ensures |r.olds| == 16 && f.diffs == CopyDiffs(r.olds) && Separated(f.substantive)
  {
    CopyJobOf(r);
    assert f.diffs == Written(JobFor(r), |JobFor(r).ops|).diffs && Separated(f.substantive);
    var job := JobFor(r);
    hide *;
    WrittenTwice(job);
  }

  // ----- The search -----

  function FirstMove(): MoveMapping {
    MoveMapping(0, 0, (0, 5), (0, 5))
  }

  function SecondMove(): MoveMapping {
    MoveMapping(0, 2, (0, 5), (0, 5))
  }

  function NewRecords(): seq<M.LineRecord> {
    [Rec("a", "", 5, 0), Rec("b", "", 6, 0), Rec("c", "", 7, 0), Rec("c", "", 7, 1),
     Rec("a", "", 9, 2), Rec("b", "", 10, 2), Rec("c", "", 11, 2), Rec("c", "", 11, 3)]
  }

  function OldRecords(): seq<M.LineRecord> {
    [Rec("a", "", 1, 0), Rec("b", "", 2, 0), Rec("c", "", 3, 0), Rec("c", "", 3, 1)]
  }

  /** The metadata of a text whose lines have one letter. */
  ghost predicate Letters(lines: seq<LineMetadata>, letters: string) {
    && Numbered(lines) && |lines| == |letters|
    && forall k | 0 <= k < |letters| :: lines[k] == LineMetadata(k + 1, 2 * k, 2 * k + 2, [letters[k]])
  }

  lemma {:induction false} CopyLetters(r: Request)
    requires OnCopy(r)
    ensures Letters(TextLines(r.olds), OLD_LETTERS) && Letters(TextLines(r.news), NEW_LETTERS)
    ensures |r.olds| == 16 && |r.news| == 22
  {
    hide *;
    OnCopyParts(r);
    PlainLetters();
    TextOfLetters(OLD_LETTERS);
    TextOfLetters(NEW_LETTERS);
    TwoTexts(r);
    LettersIntro(r.olds, OLD_LETTERS);
    LettersIntro(r.news, NEW_LETTERS);
  }

  lemma {:induction false} LettersIntro(c: string, letters: string)
    requires OneLetterLines(c, letters)
    ensures Letters(TextLines(c), letters)
  {
    TextLinesNumbered(c);
    hide Lines, LineRanges, LineStart, TextLines, LinesOf, Numbered;
  }

  lemma {:induction false} NewTouched(lines: seq<LineMetadata>)
    requires Letters(lines, NEW_LETTERS)
    ensures Touched(lines, INSERTED) == NewRecords()
  {
    forall r ensures r in NewRecords() <==> IsTouching(lines, INSERTED, r) {}
    assert InOrder(NewRecords());
    assert Numbered(lines);
    hide Letters, IsTouching, Touched, InOrder, Numbered;
    TouchedDetermined(lines, INSERTED, NewRecords());
  }

  lemma {:induction false} OldTouched(lines: seq<LineMetadata>)
    requires Letters(lines, OLD_LETTERS)
    ensures Touched(lines, DELETED) == OldRecords()
  {
    forall r ensures r in OldRecords() <==> IsTouching(lines, DELETED, r) {}
    assert InOrder(OldRecords());
    assert Numbered(lines);
    hide Letters, IsTouching, Touched, InOrder, Numbered;
    TouchedDetermined(lines, DELETED, OldRecords());
  }

  function NewTrimmed(): seq<M.LineRecord> {
    [Rec("a", "a", 5, 0), Rec("b", "b", 6, 0), Rec("c", "c", 7, 0), Rec("c", "c", 7, 1),
     Rec("a", "a", 9, 2), Rec("b", "b", 10, 2), Rec("c", "c", 11, 2), Rec("c", "c", 11, 3)]
  }

  function OldTrimmed(): seq<M.LineRecord> {
    [Rec("a", "a", 1, 0), Rec("b", "b", 2, 0), Rec("c", "c", 3, 0), Rec("c", "c", 3, 1)]
  }

  lemma {:induction false} CopyPrepared(cc: CharClass)
    ensures M.Prepared(cc, NewRecords()) == NewTrimmed() && M.Prepared(cc, OldRecords()) == OldTrimmed()
  {
    TrimLetters(cc);
    hide Trim, M.Prepared;
    PreparedOf(cc, NewRecords(), NewTrimmed());
    PreparedOf(cc, OldRecords(), OldTrimmed());
  }

  lemma {:induction false} NewGroups(ls: seq<M.LineRecord>)
    requires ls == NewTrimmed()
    ensures M.GroupsOf(ls, 3) == [[0, 1, 2], [4, 5, 6]]
  {
    assert M.GroupUpTo(ls, 0, 3) == M.Grouping([], [], None);
    hide M.GroupUpTo;
    M.GroupUnfold(ls, 1, 3);
    M.GroupUnfold(ls, 2, 3);
    M.GroupUnfold(ls, 3, 3);
    assert M.GroupUpTo(ls, 3, 3) == M.Grouping([], [0, 1, 2], Some(7));
    M.GroupUnfold(ls, 4, 3);
    assert M.GroupUpTo(ls, 4, 3) == M.Grouping([[0, 1, 2]], [3], Some(7));
    M.GroupUnfold(ls, 5, 3);
    M.GroupUnfold(ls, 6, 3);
    M.GroupUnfold(ls, 7, 3);
    assert M.GroupUpTo(ls, 7, 3) == M.Grouping([[0, 1, 2]], [4, 5, 6], Some(11));
    M.GroupUnfold(ls, 8, 3);
    assert M.GroupUpTo(ls, 8, 3) == M.Grouping([[0, 1, 2], [4, 5, 6]], [7], Some(11));
  }

  lemma {:induction false} OldGroups(ls: seq<M.LineRecord>)
    requires ls == OldTrimmed()
    ensures M.GroupsOf(ls, 3) == [[0, 1, 2]]
  {
    assert M.GroupUpTo(ls, 0, 3) == M.Grouping([], [], None);
    hide M.GroupUpTo;
    M.GroupUnfold(ls, 1, 3);
    M.GroupUnfold(ls, 2, 3);
    M.GroupUnfold(ls, 3, 3);
    M.GroupUnfold(ls, 4, 3);
    assert M.GroupUpTo(ls, 3, 3) == M.Grouping([], [0, 1, 2], Some(3));
    assert M.GroupUpTo(ls, 4, 3) == M.Grouping([[0, 1, 2]], [3], Some(3));
  }

  function CopySides(): M.Sides {
    M.Sides(NewTrimmed(), [[0, 1, 2], [4, 5, 6]], OldTrimmed(), [[0, 1, 2]])
  }

  function CopyMatches(): seq<M.Match> {
    [M.Match(0, 0, 0, 0, 3), M.Match(1, 0, 0, 0, 3)]
  }

  lemma {:induction false} CopySidesAre()
    ensures M.SidesOf(NewTrimmed(), OldTrimmed(), 3) == CopySides()
  {
    NewGroups(NewTrimmed());
    OldGroups(OldTrimmed());
    hide M.GroupsOf, NewTrimmed, OldTrimmed;
  }

  lemma {:induction false} CopyScanned(s: M.Sides)
    requires M.ValidSides(s) && s == CopySides()
    ensures M.ScanGroups(s, 0, 3) == CopyMatches()
  {
    SameLines(s);
    assert |s.insGroups| == 2 && |s.delGroups| == 1 && |s.delGroups[0]| == 3;
    assert |s.insGroups[0]| == 3 && |s.insGroups[1]| == 3;
    hide M.ScanGroups, M.ScanGroup, M.ValidSides, M.SameText, CopySides;
    GroupMatches(s, 0);
    GroupMatches(s, 1);
    M.ScanGroupsUnfold(s, 0, 3);
    M.ScanGroupsUnfold(s, 1, 3);
    M.ScanGroupsUnfold(s, 2, 3);
  }

  lemma {:induction false} SameLines(s: M.Sides)
    requires M.ValidSides(s) && s == CopySides()
    ensures forall k | 0 <= k < 3 :: M.SameText(s, 0, k, 0, k) && M.SameText(s, 1, k, 0, k)
  {
    assert s.insGroups[0] == [0, 1, 2] && s.insGroups[1] == [4, 5, 6] && s.delGroups[0] == [0, 1, 2];
    assert s.ins[0].normalized == s.del[0].normalized == s.ins[4].normalized;
    assert s.ins[1].normalized == s.del[1].normalized == s.ins[5].normalized;
    assert s.ins[2].normalized == s.del[2].normalized == s.ins[6].normalized;
    hide M.ValidSides;
  }

  /** The two line moves of the block, with the lines that they take. */
  ghost predicate BothMoves(lms: seq<M.LineMapping>) {
    && |lms| == 2
    && lms[0].deleted == lms[1].deleted == [Rec("a", "a", 1, 0), Rec("b", "b", 2, 0), Rec("c", "c", 3, 0)]
    && lms[0].inserted == [Rec("a", "a", 5, 0), Rec("b", "b", 6, 0), Rec("c", "c", 7, 0)]
    && lms[1].inserted == [Rec("a", "a", 9, 2), Rec("b", "b", 10, 2), Rec("c", "c", 11, 2)]
  }

  lemma {:induction false} CopyFound(cc: CharClass, lms: seq<M.LineMapping>)
    requires Found(cc, NewRecords(), OldRecords(), 3, lms)
    ensures BothMoves(lms)
  {
    CopyPrepared(cc);
    CopySidesAre();
    M.DetectedAre(cc, NewRecords(), OldRecords(), 3);
    hide M.Prepared, M.SidesOf, M.ScanGroups, M.DetectedMatches, NewRecords, OldRecords, NewTrimmed, OldTrimmed;
    hide BothMoves, CopySides, CopyMatches;
    CopyScanned(M.SidesOf(NewTrimmed(), OldTrimmed(), 3));
    RenderedCopies(M.SidesOf(NewTrimmed(), OldTrimmed(), 3), lms);
  }

  lemma {:induction false} RenderedCopies(s: M.Sides, lms: seq<M.LineMapping>)
    requires M.ValidSides(s) && s == CopySides() && M.Rendered(s, CopyMatches(), lms)
    ensures BothMoves(lms)
  {
    assert [0, 1, 2][0..3] == [0, 1, 2] && [4, 5, 6][0..3] == [4, 5, 6];
    hide M.ValidSides;
  }

  lemma {:induction false} CopyBytes(oldLines: seq<LineMetadata>, newLines: seq<LineMetadata>, lms: seq<M.LineMapping>)
    requires Letters(oldLines, OLD_LETTERS) && Letters(newLines, NEW_LETTERS) && BothMoves(lms)
    ensures ByteMoves(lms, oldLines, newLines, DELETED, INSERTED) == [FirstMove(), SecondMove()]
  {
    FirstBytes(oldLines, newLines, lms);
    SecondBytes(oldLines, newLines, lms);
    hide ByteMove, BothMoves, Letters, DELETED, INSERTED;
    assert |lms| == 2 by { TwoMoves(lms); }
    NoByteMoves(oldLines, newLines, DELETED, INSERTED);
    ByteMovesNext(lms, 0, oldLines, newLines, DELETED, INSERTED);
    ByteMovesNext(lms, 1, oldLines, newLines, DELETED, INSERTED);
    assert lms[..2] == lms;
  }

  lemma {:induction false} TwoMoves(lms: seq<M.LineMapping>)
    requires BothMoves(lms)
    ensures |lms| == 2
  {
  }

  lemma {:induction false} FirstBytes(oldLines: seq<LineMetadata>, newLines: seq<LineMetadata>,
                                      lms: seq<M.LineMapping>)
    requires Letters(oldLines, OLD_LETTERS) && Letters(newLines, NEW_LETTERS) && BothMoves(lms)
    ensures ByteMove(lms[0], oldLines, newLines, DELETED, INSERTED) == Some(FirstMove())
  {
    assert Spans(lms[0].deleted, oldLines, DELETED[0]) && Spans(lms[0].inserted, newLines, INSERTED[0]);
  }

  lemma {:induction false} SecondBytes(oldLines: seq<LineMetadata>, newLines: seq<LineMetadata>,
                                       lms: seq<M.LineMapping>)
    requires Letters(oldLines, OLD_LETTERS) && Letters(newLines, NEW_LETTERS) && BothMoves(lms)
    ensures ByteMove(lms[1], oldLines, newLines, DELETED, INSERTED) == Some(SecondMove())
  {
    assert Spans(lms[1].deleted, oldLines, DELETED[0]) && Spans(lms[1].inserted, newLines, INSERTED[2]);
  }

  lemma {:induction false} CopyTouched(cc: CharClass, oldLines: seq<LineMetadata>, newLines: seq<LineMetadata>,
                                       lms: seq<M.LineMapping>)
    requires Letters(oldLines, OLD_LETTERS) && Letters(newLines, NEW_LETTERS)
    requires FoundOn(cc, oldLines, newLines, 3, DELETED, INSERTED, lms)
    ensures Found(cc, NewRecords(), OldRecords(), 3, lms)
  {
    hide Letters, Touched, Found, DELETED, INSERTED;
    NewTouched(newLines);
    OldTouched(oldLines);
    assert NewRecords() != [] && OldRecords() != [];
    hide NewRecords, OldRecords;
  }

  /** On these edits the search finds both moves, with the same source and the same range in their insertions. */
  lemma {:induction false} SearchFindsBoth(r: Request, lms: seq<M.LineMapping>)
    requires OnCopy(r) && FoundOn(r.cc, TextLines(r.olds), TextLines(r.news), 3, DELETED, INSERTED, lms)
    ensures ByteMoves(lms, TextLines(r.olds), TextLines(r.news), DELETED, INSERTED) == [FirstMove(), SecondMove()]
  {
    hide *;
    CopyLetters(r);
    CopyTouched(r.cc, TextLines(r.olds), TextLines(r.news), lms);
    CopyFound(r.cc, lms);
    CopyBytes(TextLines(r.olds), TextLines(r.news), lms);
  }

  // ----- What becomes of it -----

  lemma {:induction false} CopyNotSkipped(n: nat, m: nat)
    ensures !ShouldSkipMoveDetection(3, n, m, DELETED, INSERTED)
  {
    CopySizes();
    hide TotalLength;
  }

  lemma {:induction false} CopySizes()
    ensures TotalLength(DELETED) == 6 && TotalLength(INSERTED) == 12
  {
    TotalNext([], Segment(0, 5));
    TotalNext([] + [Segment(0, 5)], Segment(5, 6));
    TotalNext([], Segment(8, 13));
    TotalNext([] + [Segment(8, 13)], Segment(13, 14));
    TotalNext(([] + [Segment(8, 13)]) + [Segment(13, 14)], Segment(16, 21));
    TotalNext((([] + [Segment(8, 13)]) + [Segment(13, 14)]) + [Segment(16, 21)], Segment(21, 22));
    assert ([] + [Segment(0, 5)]) + [Segment(5, 6)] == DELETED;
    assert (([] + [Segment(8, 13)]) + [Segment(13, 14)]) + [Segment(16, 21)] + [Segment(21, 22)] == INSERTED;
    assert TotalLength([]) == 0;
    hide TotalLength;
  }

  /** The moves of such a checkpoint. */
  lemma {:induction false} BothAreFound(r: Request, f: Findings)
    requires OnCopy(r) && |r.olds| == 16 && f.diffs == CopyDiffs(r.olds) && MovesFoundBy(r, f, 3)
    ensures f.mappings == [FirstMove(), SecondMove()] && Insertions(f.diffs) == INSERTED
  {
    CopyEdits(r.olds);
    CopyNotSkipped(|r.olds|, |r.news|);
    OnCopyParts(r);
    hide OnCopy, CopyDiffs, Deletions, Insertions, FoundOn, ByteMoves, TextLines, ShouldSkipMoveDetection, AllMovesFit;
    hide DELETED, INSERTED;
    var lms :| FoundOn(r.cc, TextLines(r.olds), TextLines(r.news), 3, DELETED, INSERTED, lms)
               && f.mappings == ByteMoves(lms, TextLines(r.olds), TextLines(r.news), DELETED, INSERTED);
    SearchFindsBoth(r, lms);
  }

  lemma {:induction false} SecondIsDropped(f: Findings)
    requires f.mappings == [FirstMove(), SecondMove()]
    ensures SameSizes(f) && SecondMove() in f.mappings && !Kept(f.mappings, SecondMove()) && !NoneDropped(f)
  {
    var m, m' := FirstMove(), SecondMove();
    assert MovesFound([], 0) == [] && f.mappings[..1] == [m] && [m][..0] == [];
    assert MovesFound([m], 0) == [m];
    assert MovesFound(f.mappings, 0) == [m] by { assert SeenRanges([m], m'); }
  }

  /** The positions of the second copy, without its last newline. */
  lemma {:induction false} SecondTarget(insertions: seq<Segment>, p: nat)
    requires insertions == INSERTED && 16 <= p < 21
    ensures IsTarget(insertions, SecondMove(), p)
  {
  }

  lemma {:induction false} DroppedIsUnowned(r: Request, f: Findings, result: seq<Attribution>, m: MoveMapping, p: nat)
    requires Fitting(r, f) && SameSizes(f) && m in f.mappings && !Kept(f.mappings, m)
    requires ByScript(r, f, result) && FullyAttributed(r.attrs, |r.olds|) && p < |r.news|
    requires IsTarget(Insertions(f.diffs), m, p)
    ensures Owners(result, p) == {}
  {
    hide Fitting, SameSizes, Kept, ByScript, FullyAttributed, IsTarget, Owners, Reaches, Insertions;
    forall m' ensures !Reaches(f, m', p) {
      DroppedReach(r, f, m, m', p);
    }
    assert InTarget(InputOf(r, f, r.attrs), p);
    OwnedIff(r, f, result, p);
  }

  /**
   * The second move is dropped as a duplicate of the first, and the text it should have carried belongs to nobody:
   * whatever the attributions of the old text, as long as every character has one.
   */
  lemma {:induction false} SecondCopyHasNoOwner(r: Request, f: Findings, sorted: seq<Attribution>,
                                                result: seq<Attribution>)
    requires OnCopy(r) && D.HonestDiffer(r.differ) && DiffsFor(r, f) && MovesFoundBy(r, f, 3)
    requires IsRunOf(r, f, sorted, result) && FullyAttributed(r.attrs, |r.olds|)
    ensures |r.olds| == 16 && f.diffs == CopyDiffs(r.olds) && f.mappings == [FirstMove(), SecondMove()] && Fitting(r, f)
    ensures SameSizes(f) && !NoneDropped(f) && !TargetsFilled(r, f)
    ensures forall p: nat | 16 <= p < 21 :: Owners(result, p) == {}
    ensures |r.news| == 22 && !FullyAttributed(result, |r.news|)
  {
    hide *;
    OnCopyParts(r);
    CopyLetters(r);
    CopyScript(r, f);
    BothAreFound(r, f);
    CheckpointFits(r, f, 3);
    SecondIsDropped(f);
    FilledIff(r, f);
    RunIsScript(r, f, sorted, result);
    ByScriptHolds(r, f, sorted, result);
    CoverageIff(r, f, result);
    forall p: nat | 16 <= p < 21 ensures Owners(result, p) == {} {
      SecondTarget(Insertions(f.diffs), p);
      DroppedIsUnowned(r, f, result, SecondMove(), p);
    }
  }
}
