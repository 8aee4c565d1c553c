/** Scripts put together op by op: what `compute_diffs` does with small deletions, insertions and equal lines. */
module EditExamples {
  import opened Prelude
  import opened Text
  import opened EditScript
  import opened Ranges
  import opened Tokenizer
  import opened TokenDiff
  import opened HunkDiffs
  import opened Transform
  import opened Moves
  import D = DiffOps
  import M = MoveDetection
  import Sorting

  // ----- Scripts -----

  /** A whole line without its newline, and the newline: how the token path cuts deleted and inserted lines. */
  function Cut(op: ByteDiffOp, text: string): seq<ByteDiff> {
    [ByteDiff(op, text), ByteDiff(op, "\n")]
  }

  /** What follows the last edit. */
  function Tail(text: string): seq<ByteDiff> {
    if text == [] then [] else [ByteDiff(Equal, text)]
  }

  lemma {:induction false} EditsAppend(x: seq<ByteDiff>, y: seq<ByteDiff>, a: nat, b: nat)
    ensures Deletions(x + y, a) == Deletions(x, a) + Deletions(y, a + |OldText(x)|)
    ensures Insertions(x + y, b) == Insertions(x, b) + Insertions(y, b + |NewText(x)|)
    decreases x
  {
    if x == [] {
      assert x + y == y;
    } else {
      assert (x + y)[0] == x[0] && (x + y)[1..] == x[1..] + y;
      assert |OldText(x)| == |OldPart(x[0])| + |OldText(x[1..])|;
      assert |NewText(x)| == |NewPart(x[0])| + |NewText(x[1..])|;
      EditsAppend(x[1..], y, a + |OldPart(x[0])|, b + |NewPart(x[0])|);
      hide OldText, NewText;
    }
  }

  /** The piece `ds` at old position `a` and new position `b`: how much it reads and writes, and its edits. */
  ghost predicate Piece(ds: seq<ByteDiff>, a: nat, b: nat, m: nat, n: nat, dels: seq<Segment>, ins: seq<Segment>) {
    |OldText(ds)| == m && |NewText(ds)| == n && Deletions(ds, a) == dels && Insertions(ds, b) == ins
  }

  lemma {:induction false} PieceJoin(x: seq<ByteDiff>, y: seq<ByteDiff>, a: nat, b: nat, m: nat, n: nat,
                                     xd: seq<Segment>, xi: seq<Segment>, m': nat, n': nat,
                                     yd: seq<Segment>, yi: seq<Segment>)
    requires Piece(x, a, b, m, n, xd, xi) && Piece(y, a + m, b + n, m', n', yd, yi)
    ensures Piece(x + y, a, b, m + m', n + n', xd + yd, xi + yi)
  {
    hide Deletions, Insertions, OldText, NewText;
    EditsAppend(x, y, a, b);
    TextAppend(x, y);
  }

  lemma {:induction false} PieceEdits(ds: seq<ByteDiff>, m: nat, n: nat, dels: seq<Segment>, ins: seq<Segment>)
    requires Piece(ds, 0, 0, m, n, dels, ins)
    ensures Deletions(ds) == dels && Insertions(ds) == ins
  {
  }

  lemma {:induction false} OnePiece(d: ByteDiff, a: nat, b: nat)
    ensures Piece([d], a, b, |OldPart(d)|, |NewPart(d)|, if d.op.Delete? then [Segment(a, a + |d.data|)] else [],
                  if d.op.Insert? then [Segment(b, b + |d.data|)] else [])
    ensures OldText([d]) == OldPart(d) && NewText([d]) == NewPart(d)
  {
    assert [d][1..] == [] && OldPart(d) + [] == OldPart(d) && NewPart(d) + [] == NewPart(d);
  }

  lemma {:induction false} CutPiece(op: ByteDiffOp, text: string, a: nat, b: nat)
    requires !op.Equal?
    ensures var n := |text|;
            if op.Delete? then Piece(Cut(op, text), a, b, n + 1, 0, [Segment(a, a + n), Segment(a + n, a + n + 1)], [])
            else Piece(Cut(op, text), a, b, 0, n + 1, [], [Segment(b, b + n), Segment(b + n, b + n + 1)])
    ensures OldText(Cut(op, text)) == (if op.Delete? then text + "\n" else [])
    ensures NewText(Cut(op, text)) == (if op.Insert? then text + "\n" else [])
  {
    var x, y := [ByteDiff(op, text)], [ByteDiff(op, "\n")];
    assert Cut(op, text) == x + y;
    OnePiece(x[0], a, b);
    OnePiece(y[0], if op.Delete? then a + |text| else a, if op.Insert? then b + |text| else b);
    EditsAppend(x, y, a, b);
    TextAppend(x, y);
    hide OldText, NewText, Deletions, Insertions;
  }

  lemma {:induction false} TailPiece(text: string, a: nat, b: nat)
    ensures Piece(Tail(text), a, b, |text|, |text|, [], [])
  {
    if text != [] {
      OnePiece(ByteDiff(Equal, text), a, b);
      hide OldText, NewText, Deletions, Insertions;
    }
  }

  // ----- Tokens -----

  /** A line of one letter is one token. */
  lemma {:induction false} LetterLine(cc: CharClass, c: string, i: nat, end: nat)
    requires i + 2 <= end <= |c| && 'a' <= c[i] <= 'z' && c[i + 1] == '\n'
    ensures Tokens(cc, c, i, end) == [Token([c[i]], i, i + 1)] + Tokens(cc, c, i + 2, end)
  {
    assert cc.isWhitespace('\n') by { assert '\n' in "\t\n\r "; }
    assert !cc.isWhitespace(c[i]) && !cc.isAlphanumeric('\n');
    LetterEnd(cc, c, i, end);
    assert c[i..i + 1] == [c[i]];
    hide TokenEnd;
    assert Tokens(cc, c, i + 1, end) == Tokens(cc, c, i + 2, end);
  }

  lemma {:induction false} LetterEnd(cc: CharClass, c: string, i: nat, end: nat)
    requires i + 2 <= end <= |c| && 'a' <= c[i] <= 'z' && c[i + 1] == '\n' && !cc.isAlphanumeric('\n')
    ensures TokenEnd(cc, c, i, end) == i + 1
  {
    assert [c[i], '\n'] !in MULTI_CHAR_OPS by {
      forall k | 0 <= k < |MULTI_CHAR_OPS| ensures MULTI_CHAR_OPS[k] != [c[i], '\n'] {
        assert MULTI_CHAR_OPS[k][1] in "=&|:>.+-<";
      }
    }
    assert RunEnd(c, i + 1, end, ch => IsIdentifierChar(cc, ch)) == i + 1;
  }

  lemma {:induction false} BlankFirst(cc: CharClass, c: string, i: nat, end: nat)
    requires i < end <= |c| && c[i] == ' '
    ensures Tokens(cc, c, i, end) == Tokens(cc, c, i + 1, end)
  {
    assert cc.isWhitespace(' ') by { assert ' ' in "\t\n\r "; }
  }

  /** A deletion whose tokens the library deletes in one hunk: the text before, around and after the tokens. */
  lemma {:induction false} DeletedTokens(cc: CharClass, differ: D.Differ, olds: string, a: nat, a': nat, news: string,
                                         b: nat, m: nat, m': nat)
    requires D.HonestDiffer(differ) && a <= m < m' <= a' <= |olds| && b <= |news|
    requires var ts := Tokens(cc, olds, a, a');
             && ts != [] && ts[0].start == m && ts[|ts| - 1].end == m'
             && differ(Lexemes(ts), []) == [D.Hunk(0, |ts|, 0, 0)]
    ensures TokenDiffs(WorkOf(cc, differ, olds, a, a', news, b, b))
         == (RangeDiffs(olds, news, a, m, b, b, false) + [ByteDiff(Delete, olds[m..m'])])
            + RangeDiffs(olds, news, m', a', b, b, true)
  {
    var w := WorkOf(cc, differ, olds, a, a', news, b, b);
    var n := |w.oldToks|;
    assert Tokens(cc, news, b, b) == [] && Lexemes([]) == [];
    assert |Lexemes(w.oldToks)| == n;
    hide Tokens, Lexemes, D.HonestDiffer, RangeDiffs;
    OneDeletion(differ, Lexemes(w.oldToks));
    assert w.ops == [D.Delete(0, n, 0)];
    hide WorkOf, D.DiffSpec;
    assert AfterOps(w, 1) == AfterOp(w, AfterOps(w, 0), w.ops[0]);
    assert [] + RangeDiffs(olds, news, a, m, b, b, false) == RangeDiffs(olds, news, a, m, b, b, false);
  }

  lemma {:induction false} OneDeletion(differ: D.Differ, before: seq<string>)
    requires D.HonestDiffer(differ) && before != [] && differ(before, []) == [D.Hunk(0, |before|, 0, 0)]
    ensures D.DiffSpec(differ, before, []) == [D.Delete(0, |before|, 0)]
  {
    OpsAre(differ, before, [], [D.Hunk(0, |before|, 0, 0)]);
    var hunks := [D.Hunk(0, |before|, 0, 0)];
    hide D.HonestDiffer, D.ValidHunks, D.DiffSpec;
    assert D.OpsOf(hunks, |before|, 1) == [];
    assert D.OpsOf(hunks, |before|) == [] + ([D.Delete(0, |before|, 0)] + []);
  }

  lemma {:induction false} InsertedTokens(cc: CharClass, differ: D.Differ, olds: string, a: nat, news: string,
                                          b: nat, b': nat, n: nat, n': nat)
    requires D.HonestDiffer(differ) && b <= n < n' <= b' <= |news| && a <= |olds|
    requires var ts := Tokens(cc, news, b, b');
             && ts != [] && ts[0].start == n && ts[|ts| - 1].end == n'
             && differ([], Lexemes(ts)) == [D.Hunk(0, 0, 0, |ts|)]
    ensures TokenDiffs(WorkOf(cc, differ, olds, a, a, news, b, b'))
         == (RangeDiffs(olds, news, a, a, b, n, false) + [ByteDiff(Insert, news[n..n'])])
            + RangeDiffs(olds, news, a, a, n', b', true)
  {
    var w := WorkOf(cc, differ, olds, a, a, news, b, b');
    var l := |w.newToks|;
    assert Tokens(cc, olds, a, a) == [] && Lexemes([]) == [];
    assert |Lexemes(w.newToks)| == l;
    hide Tokens, Lexemes, D.HonestDiffer, RangeDiffs;
    OneInsertion(differ, Lexemes(w.newToks));
    assert w.ops == [D.Insert(0, 0, l)];
    hide WorkOf, D.DiffSpec;
    assert AfterOps(w, 1) == AfterOp(w, AfterOps(w, 0), w.ops[0]);
    assert [] + RangeDiffs(olds, news, a, a, b, n, false) == RangeDiffs(olds, news, a, a, b, n, false);
  }

  lemma {:induction false} OneInsertion(differ: D.Differ, after: seq<string>)
    requires D.HonestDiffer(differ) && after != [] && differ([], after) == [D.Hunk(0, 0, 0, |after|)]
    ensures D.DiffSpec(differ, [], after) == [D.Insert(0, 0, |after|)]
  {
    OpsAre(differ, [], after, [D.Hunk(0, 0, 0, |after|)]);
    var hunks := [D.Hunk(0, 0, 0, |after|)];
    hide D.HonestDiffer, D.ValidHunks, D.DiffSpec;
    assert D.OpsOf(hunks, 0, 1) == [];
    assert D.OpsOf(hunks, 0) == [] + ([D.Insert(0, 0, |after|)] + []);
  }

  // ----- A block of three lines -----

  const BLOCK := "a\nb\nc"
  const LETTERS := ["a", "b", "c"]

  /** The block stands at `i`, with its last newline. */
  predicate BlockStands(c: string, i: nat) {
    && i + 6 <= |c| && c[i] == 'a' && c[i + 1] == '\n' && c[i + 2] == 'b' && c[i + 3] == '\n' && c[i + 4] == 'c'
    && c[i + 5] == '\n'
  }

  /** The library takes the three tokens of the block as one hunk. */
  ghost predicate KeepsBlockWhole(differ: D.Differ) {
    && D.HonestDiffer(differ)
    && differ(LETTERS, []) == [D.Hunk(0, 3, 0, 0)] && differ([], LETTERS) == [D.Hunk(0, 0, 0, 3)]
  }

  /** As it does where nothing else is asked of it. */
  lemma {:induction false} WholeByDefault(before: seq<string>, after: seq<string>, hunks: seq<D.Hunk>)
    requires D.ValidHunks(before, after, hunks) && before != [] && after != []
    ensures KeepsBlockWhole(D.DifferGiving(before, after, hunks))
  {
    D.HonestAnswers(before, after, hunks);
    hide D.HonestDiffer, D.ValidHunks;
    assert |LETTERS| == 3;
  }

  function BlockTokens(i: nat, j: nat, k: nat): seq<Token> {
    [Token("a", i, i + 1), Token("b", j, j + 1), Token("c", k, k + 1)]
  }

  lemma {:induction false} BlockLexemes(i: nat, j: nat, k: nat)
    ensures Lexemes(BlockTokens(i, j, k)) == LETTERS && |LETTERS| == 3
  {
    var ts := BlockTokens(i, j, k);
    assert |Lexemes(ts)| == 3 && Lexemes(ts)[0] == "a" && Lexemes(ts)[1] == "b" && Lexemes(ts)[2] == "c";
  }

  lemma {:induction false} BlockIsTokens(cc: CharClass, c: string, i: nat)
    requires BlockStands(c, i)
    ensures Tokens(cc, c, i, i + 6) == BlockTokens(i, i + 2, i + 4)
    ensures c[i..i + 5] == BLOCK && c[i + 5..i + 6] == "\n"
  {
    BlockText(c, i);
    hide Tokens;
    LetterLine(cc, c, i, i + 6);
    LetterLine(cc, c, i + 2, i + 6);
    LetterLine(cc, c, i + 4, i + 6);
    NoTokens(cc, c, i + 6);
    hide BLOCK, BlockStands;
    TokensInRow([c[i]], [c[i + 2]], [c[i + 4]], i, i + 2, i + 4);
  }

  lemma {:induction false} BlockText(c: string, i: nat)
    requires BlockStands(c, i)
    ensures c[i..i + 5] == BLOCK && c[i + 5..i + 6] == "\n"
  {
  }

  lemma {:induction false} NoTokens(cc: CharClass, c: string, i: nat)
    requires i <= |c|
    ensures Tokens(cc, c, i, i) == []
  {
  }

  lemma {:induction false} TokensInRow(x: string, y: string, z: string, i: nat, j: nat, k: nat)
    requires x == "a" && y == "b" && z == "c"
    ensures [Token(x, i, i + 1)] + ([Token(y, j, j + 1)] + ([Token(z, k, k + 1)] + [])) == BlockTokens(i, j, k)
  {
  }

  lemma {:induction false} BlockDeleted(cc: CharClass, differ: D.Differ, olds: string, a: nat, news: string, b: nat)
    requires KeepsBlockWhole(differ) && BlockStands(olds, a) && b <= |news|
    ensures TokenDiffs(WorkOf(cc, differ, olds, a, a + 6, news, b, b)) == Cut(Delete, BLOCK)
  {
    BlockIsTokens(cc, olds, a);
    BlockLexemes(a, a + 2, a + 4);
    BlockCutOut(olds, a, news, b);
    hide Tokens, Lexemes, D.HonestDiffer, TokenDiffs, WorkOf, RangeDiffs, LETTERS, BLOCK, Cut;
    DeletedTokens(cc, differ, olds, a, a + 6, news, b, a, a + 5);
  }

  lemma {:induction false} BlockCutOut(olds: string, a: nat, news: string, b: nat)
    requires a + 6 <= |olds| && b <= |news| && olds[a..a + 5] == BLOCK && olds[a + 5..a + 6] == "\n"
    ensures (RangeDiffs(olds, news, a, a, b, b, false) + [ByteDiff(Delete, olds[a..a + 5])])
            + RangeDiffs(olds, news, a + 5, a + 6, b, b, true)
         == Cut(Delete, BLOCK)
  {
    hide BLOCK;
    assert olds[a..a] == [] == news[b..b];
    assert ([] + [ByteDiff(Delete, BLOCK)]) + ([ByteDiff(Delete, "\n")] + []) == Cut(Delete, BLOCK);
  }

  lemma {:induction false} BlockInserted(cc: CharClass, differ: D.Differ, olds: string, a: nat, news: string, b: nat)
    requires KeepsBlockWhole(differ) && BlockStands(news, b) && a <= |olds|
    ensures TokenDiffs(WorkOf(cc, differ, olds, a, a, news, b, b + 6)) == Cut(Insert, BLOCK)
  {
    BlockIsTokens(cc, news, b);
    BlockLexemes(b, b + 2, b + 4);
    BlockCutIn(olds, a, news, b);
    hide Tokens, Lexemes, D.HonestDiffer, TokenDiffs, WorkOf, RangeDiffs, LETTERS, BLOCK, Cut;
    InsertedTokens(cc, differ, olds, a, news, b, b + 6, b, b + 5);
  }

  lemma {:induction false} BlockCutIn(olds: string, a: nat, news: string, b: nat)
    requires b + 6 <= |news| && a <= |olds| && news[b..b + 5] == BLOCK && news[b + 5..b + 6] == "\n"
    ensures (RangeDiffs(olds, news, a, a, b, b, false) + [ByteDiff(Insert, news[b..b + 5])])
            + RangeDiffs(olds, news, a, a, b + 5, b + 6, true)
         == Cut(Insert, BLOCK)
  {
    hide BLOCK;
    assert olds[a..a] == [] == news[b..b];
    assert ([] + [ByteDiff(Insert, BLOCK)]) + ([] + [ByteDiff(Insert, "\n")]) == Cut(Insert, BLOCK);
  }

  // ----- Op by op -----

  /** The hunk of a run of one small deletion, and of one small insertion. */
  lemma {:induction false} SmallDeletion(job: Job, t: nat, i: nat, j: nat, n: nat)
    requires t < |job.ops| && !job.isAi && job.ops[t] == D.Delete(i, n, j)
    requires LineStart(job.olds, i + n) - LineStart(job.olds, i) < TOKEN_DIFF_FAST_PATH_MIN_BYTES
    ensures RunHunk(job, t, t + 1)
         == HunkRecord(LineStart(job.olds, i), LineStart(job.olds, i + n), LineStart(job.news, j),
                       LineStart(job.news, j), false)
  {
    hide LineStart;
  }

  lemma {:induction false} SmallInsertion(job: Job, t: nat, i: nat, j: nat, n: nat)
    requires t < |job.ops| && !job.isAi && job.ops[t] == D.Insert(i, j, n)
    requires LineStart(job.news, j + n) - LineStart(job.news, j) < TOKEN_DIFF_FAST_PATH_MIN_BYTES
    ensures RunHunk(job, t, t + 1)
         == HunkRecord(LineStart(job.olds, i), LineStart(job.olds, i), LineStart(job.news, j),
                       LineStart(job.news, j + n), false)
  {
    hide LineStart;
  }

  /** A run that is one op, with a hunk that is split by tokens. */
  lemma {:induction false} WriteRun(job: Job, t: nat, h: HunkRecord)
    requires D.HonestDiffer(job.differ) && !job.isAi && ChangedRun(job.ops, t, t + 1) && RunHunk(job, t, t + 1) == h
    requires h.a <= h.a' <= |job.olds| && h.b <= h.b' <= |job.news| && !h.lineAligned
    ensures Written(job, t + 1).diffs
         == Written(job, t).diffs + TokenDiffs(WorkOf(job.cc, job.differ, job.olds, h.a, h.a', job.news, h.b, h.b'))
  {
    hide ChangedRun, RunHunk, D.HonestDiffer, TokenDiffs, WorkOf, HunkPiece, HunkRanges;
    WrittenRun(job, t, t + 1);
    TokenSplitPiece(job.cc, job.differ, job.olds, job.news, h);
  }

  /** An op that keeps lines. */
  lemma {:induction false} WriteKept(job: Job, t: nat, i: nat, j: nat, n: nat, a: nat, a': nat)
    requires D.HonestDiffer(job.differ) && t < |job.ops| && job.ops[t] == D.Equal(i, j, n)
    requires a == LineStart(job.olds, i) && a' == LineStart(job.olds, i + n) && a <= a' <= |job.olds|
    ensures Written(job, t + 1).diffs == Written(job, t).diffs + EqualPiece(job.olds, a, a')
  {
    hide LineStart, EqualPiece, D.HonestDiffer;
    WrittenKept(job, t, a, a');
  }

  // ----- Texts given by their first lines -----

  /** Every entry is a line with its newline. */
  ghost predicate WholeLines(ls: seq<string>) {
    forall k | 0 <= k < |ls| :: IsLine(ls[k]) && Terminated(ls[k])
  }

  lemma {:induction false} WholeLinesThen(ls: seq<string>, rest: seq<string>)
    requires WholeLines(ls) && IsLineList(rest)
    ensures IsLineList(ls + rest)
  {
    if ls == [] {
      assert ls + rest == rest;
    } else {
      assert (ls + rest)[0] == ls[0] && (ls + rest)[1..] == ls[1..] + rest;
      WholeLinesThen(ls[1..], rest);
    }
  }

  lemma {:induction false} LinesThen(ls: seq<string>, t: string)
    requires WholeLines(ls)
    ensures Lines(Concat(ls) + t) == ls + Lines(t)
  {
    LinesAreLineList(t);
    hide WholeLines, Lines, IsLineList, Concat;
    WholeLinesThen(ls, Lines(t));
    ConcatAppend(ls, Lines(t));
    LinesOfConcat(ls + Lines(t));
  }

  /** Line `k` starts where the one before ends. */
  lemma {:induction false} NextStart(c: string, k: nat)
    requires k < |Lines(c)|
    ensures LineStart(c, k + 1) == LineStart(c, k) + |Lines(c)[k]| <= |c|
    ensures c[LineStart(c, k)..LineStart(c, k + 1)] == Lines(c)[k]
  {
    LineStep(c, k);
    LineRangesPartition(c, 0);
  }

  lemma {:induction false} FirstStart(c: string)
    ensures LineStart(c, 0) == 0 && LineStart(c, |Lines(c)|) == |c|
  {
    LineRangesPartition(c, 0);
  }

  /** What is recorded of a line that ends in a newline. */
  lemma {:induction false} LineRecorded(c: string, k: nat, text: string)
    requires k < |Lines(c)| && Lines(c)[k] == text + "\n" && '\r' !in text
    ensures |TextLines(c)| == |Lines(c)|
    ensures TextLines(c)[k] == LineMetadata(k + 1, LineStart(c, k), LineStart(c, k) + |text| + 1, text)
  {
    NextStart(c, k);
    LineBounds(c, k);
    hide LineStart, LineRanges, Lines, LineText;
    TextOfLine(c, LineStart(c, k), LineStart(c, k + 1), text);
  }

  lemma {:induction false} TextOfLine(c: string, s: nat, e: nat, text: string)
    requires s < e <= |c| && c[s..e] == text + "\n" && '\r' !in text
    ensures LineText(c, s, e) == text
  {
    assert c[e - 1] == c[s..e][e - s - 1] == '\n';
    assert c[s..e - 1] == c[s..e][..e - s - 1] == text;
  }

  lemma {:induction false} LaterLines(c: string, k: nat, m: nat)
    requires k <= m < |TextLines(c)|
    ensures LineStart(c, k) <= TextLines(c)[m].start
  {
    StartMonotone(c, k, m);
    LineBounds(c, m);
  }

  /** The same for a text given by its first lines. */
  lemma {:induction false} FirstLine(c: string, ls: seq<string>, t: string, k: nat, text: string)
    requires Lines(c) == ls + Lines(t) && k < |ls| && ls[k] == text + "\n" && '\r' !in text
    ensures k < |TextLines(c)|
    ensures TextLines(c)[k] == LineMetadata(k + 1, LineStart(c, k), LineStart(c, k) + |text| + 1, text)
  {
    hide Lines, LineStart, TextLines;
    LineRecorded(c, k, text);
  }

  lemma {:induction false} LinesAfter(c: string, ls: seq<string>, t: string)
    requires Lines(c) == ls + Lines(t)
    ensures forall m | |ls| <= m < |TextLines(c)| :: LineStart(c, |ls|) <= TextLines(c)[m].start
  {
    hide Lines, LineStart, TextLines;
    forall m | |ls| <= m < |TextLines(c)| ensures LineStart(c, |ls|) <= TextLines(c)[m].start {
      LaterLines(c, |ls|, m);
    }
  }

  // ----- Texts whose lines have one letter -----

  function LinesOf(letters: string): seq<string> {
    seq(|letters|, k requires 0 <= k < |letters| => [letters[k], '\n'])
  }

  /** The text with these letters as its lines. */
  function TextOf(letters: string): string {
    Concat(LinesOf(letters))
  }

  ghost predicate OneLetterLines(c: string, letters: string) {
    && Lines(c) == LinesOf(letters) && |c| == 2 * |letters| && |LineRanges(c)| == |letters|
    && (forall k: nat | k <= |letters| :: LineStart(c, k) == 2 * k)
    && |TextLines(c)| == |letters|
    && forall k | 0 <= k < |letters| :: TextLines(c)[k] == LineMetadata(k + 1, 2 * k, 2 * k + 2, [letters[k]])
  }

  lemma {:induction false} TextOfLetters(letters: string)
    requires '\n' !in letters && '\r' !in letters
    ensures OneLetterLines(TextOf(letters), letters)
  {
    var c := TextOf(letters);
    LettersAreLines(letters);
    assert |LineRanges(c)| == |Lines(c)|;
    hide Lines, LineRanges, LineStart, TextLines, TextOf;
    FirstStart(c);
    forall k: nat | k <= |letters| ensures LineStart(c, k) == 2 * k {
      LetterStart(c, letters, k);
    }
    forall k | 0 <= k < |letters|
      ensures TextLines(c)[k] == LineMetadata(k + 1, 2 * k, 2 * k + 2, [letters[k]]) && |TextLines(c)| == |letters|
    {
      assert [letters[k]] + "\n" == [letters[k], '\n'];
      LineRecorded(c, k, [letters[k]]);
    }
    SameNumber(c);
  }

  lemma {:induction false} SameNumber(c: string)
    ensures |TextLines(c)| == |LineRanges(c)|
  {
  }

  lemma {:induction false} LettersAreLines(letters: string)
    requires '\n' !in letters
    ensures Lines(TextOf(letters)) == LinesOf(letters)
  {
    forall k | 0 <= k < |LinesOf(letters)| ensures IsLine(LinesOf(letters)[k]) && Terminated(LinesOf(letters)[k]) {
      assert letters[k] in letters;
    }
    assert LinesOf(letters) + [] == LinesOf(letters);
    assert Concat(LinesOf(letters)) + [] == Concat(LinesOf(letters));
    assert Lines([]) == [];
    hide Lines, Concat, LinesOf;
    LinesThen(LinesOf(letters), []);
  }

  lemma {:induction false} LetterStart(c: string, letters: string, k: nat)
    requires Lines(c) == LinesOf(letters) && k <= |letters|
    ensures LineStart(c, k) == 2 * k
  {
    hide Lines, LineStart;
    if k == 0 {
      FirstStart(c);
    } else {
      LetterStart(c, letters, k - 1);
      NextStart(c, k - 1);
    }
  }

  lemma {:induction false} LetterSlice(c: string, letters: string, k: nat)
    requires OneLetterLines(c, letters) && k < |letters|
    ensures |c| == 2 * |letters| && c[2 * k..2 * k + 2] == [letters[k], '\n']
  {
    hide Lines, LineRanges, LineStart, TextLines;
    NextStart(c, k);
  }

  // ----- The line operations -----

  lemma {:induction false} OpsAre(differ: D.Differ, before: seq<string>, after: seq<string>, hunks: seq<D.Hunk>)
    requires D.HonestDiffer(differ) && differ(before, after) == hunks
    ensures D.ValidHunks(before, after, hunks)
    ensures D.DiffSpec(differ, before, after) == D.OpsOf(hunks, |before|)
  {
    assert D.ValidHunks(before, after, differ(before, after));
    hide D.ValidHunks, D.HonestDiffer, D.OpsOf;
  }

  // ----- The search -----

  lemma {:induction false} TotalNext(segments: seq<Segment>, s: Segment)
    requires s.start <= s.end
    ensures TotalLength(segments + [s]) == TotalLength(segments) + (s.end - s.start)
  {
    assert (segments + [s])[..|segments|] == segments;
  }

  function Rec(content: string, normalized: string, number: nat, edit: nat): M.LineRecord {
    M.LineRecord(content, normalized, number, edit)
  }

  /** Records in order of their numbers are only trimmed. */
  lemma {:induction false} PreparedOf(cc: CharClass, ls: seq<M.LineRecord>, ps: seq<M.LineRecord>)
    requires |ls| == |ps| && Sorting.SortedBy(ls, M.NumberLe)
    requires forall k | 0 <= k < |ls| :: ps[k] == ls[k].(normalized := Trim(cc, ls[k].content))
    ensures M.Prepared(cc, ls) == ps
  {
    hide Trim, M.NormalizeAll, Sorting.Sort;
    Sorting.SortOfSorted(ls, M.NumberLe);
    assert M.NormalizeAll(cc, ls) == ps;
  }

  lemma {:induction false} TrimLetter(cc: CharClass, c: char)
    requires '!' <= c <= '~'
    ensures Trim(cc, [' ', c]) == [c] && Trim(cc, [c]) == [c]
  {
    assert cc.isWhitespace(' ') by { assert ' ' in "\t\n\r "; }
    assert !cc.isWhitespace(c);
    assert [' ', c][1..] == [c];
    assert TrimStart(cc, [c]) == [c] && TrimStart(cc, [' ', c]) == TrimStart(cc, [c]) && TrimEnd(cc, [c]) == [c];
  }

  lemma {:induction false} TrimLetters(cc: CharClass)
    ensures Trim(cc, "a") == "a" && Trim(cc, "b") == "b" && Trim(cc, "c") == "c"
    ensures Trim(cc, " a") == "a" && Trim(cc, " b") == "b" && Trim(cc, " c") == "c"
  {
    TrimLetter(cc, 'a');
    TrimLetter(cc, 'b');
    TrimLetter(cc, 'c');
  }

  /** A group of three lines that equals the only deleted group: one match. */
  lemma {:induction false} GroupMatches(s: M.Sides, g: nat)
    requires M.ValidSides(s) && g < |s.insGroups| && |s.delGroups| == 1
    requires |s.insGroups[g]| == 3 && |s.delGroups[0]| == 3
    requires forall k | 0 <= k < 3 :: M.SameText(s, g, k, 0, k)
    ensures M.ScanGroup(s, g, 0, 3) == [M.Match(g, 0, 0, 0, 3)]
  {
    M.ScanUnfold(s, g, 0, 3);
    assert M.MatchLen(s, g, 3, 0, 3) == 0;
    assert M.MatchLen(s, g, 2, 0, 2) == 1;
    assert M.MatchLen(s, g, 1, 0, 1) == 2;
    assert M.MatchLen(s, g, 0, 0, 0) == 3;
    FirstPlace(s, g);
    assert M.ScanGroup(s, g, 3, 3) == [];
  }

  lemma {:induction false} FirstPlace(s: M.Sides, g: nat)
    requires M.ValidSides(s) && g < |s.insGroups| && |s.delGroups| == 1
    requires |s.insGroups[g]| == 3 && |s.delGroups[0]| == 3 && M.MatchLen(s, g, 0, 0, 0) == 3
    requires M.ValidPlaces(s, M.PlacesUpTo(s.delGroups, 1))
    ensures M.FirstMatch(s, g, 0, M.PlacesUpTo(s.delGroups, 1), 3) == Some((0, 0))
  {
    assert M.PlacesUpTo(s.delGroups, 0) == [] && M.PlacesIn(0, 0) == [] && M.PlacesIn(0, 1) == [(0, 0)];
    assert M.PlacesIn(0, 2) == [(0, 0)] + [(0, 1)] && M.PlacesIn(0, 3) == [(0, 0)] + [(0, 1)] + [(0, 2)];
    assert M.PlacesUpTo(s.delGroups, 1) == [] + M.PlacesIn(0, 3);
    hide M.MatchLen, M.PlacesIn, M.PlacesUpTo;
  }
}
