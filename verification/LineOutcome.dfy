/** The line authors after a checkpoint (`make_entry_for_file`): who is named for a changed line. */
module LineOutcome {
  import opened Prelude
  import opened Text
  import opened EditScript
  import opened Ranges
  import opened Tokenizer
  import opened TokenDiff
  import opened HunkDiffs
  import opened Attributions
  import opened Cursors
  import opened Transform
  import opened Ownership
  import opened Checkpoint
  import opened MovedText
  import D = DiffOps
  import L = LineOwnership
  import Sorting

  // ----- Empty ranges -----

  /** Every empty range is the current author's: old deletion markers are not copied. */
  ghost predicate MarkersAreCurrent(author: string, ts: nat, out: seq<Attribution>) {
    forall a | a in out && IsEmpty(a) :: OwnerOf(a) == (author, ts)
  }

  lemma {:induction false} MovesMark(inp: Input, moves: seq<MoveMapping>, oldPos: nat)
    requires forall m | m in moves :: m.insertionIdx < |inp.insertions|
    ensures MarkersAreCurrent(inp.author, inp.ts, CopyMoves(inp, moves, oldPos))
  {
    if moves != [] {
      var m := moves[|moves| - 1];
      MovesMark(inp, moves[..|moves| - 1], oldPos);
      if m.sourceRange.0 < m.sourceRange.1 {
        CopyEntries(inp.attrs, 0, |inp.attrs|, oldPos + m.sourceRange.0, oldPos + m.sourceRange.1,
                    inp.insertions[m.insertionIdx].start + m.targetRange.0);
      }
    }
  }

  lemma {:induction false} GapsMark(targets: seq<Range>, cursor: nat, len: nat, newPos: nat, author: string, ts: nat)
    ensures MarkersAreCurrent(author, ts, FillGaps(targets, cursor, len, newPos, author, ts))
    decreases targets
  {
    if targets != [] {
      GapsMark(targets[1..], Max(cursor, Min(targets[0].1, len)), len, newPos, author, ts);
    }
  }

  lemma {:induction false} AddedMarks(inp: Input, st: State, d: ByteDiff)
    requires ValidInput(inp) && inp.isAi
    ensures MarkersAreCurrent(inp.author, inp.ts, Added(inp, st, d))
  {
    match d.op
    case Equal =>
      CopyEntries(inp.attrs, 0, |inp.attrs|, st.oldPos, st.oldPos + |d.data|, st.newPos);
    case Delete =>
      MovesAreMappings(inp.mappings, st.deletionIdx);
      hide CopyMoves, MovesOf;
      MovesMark(inp, MovesOf(inp.mappings, st.deletionIdx), st.oldPos);
    case Insert =>
      hide FillGaps, TargetsOf;
      GapsMark(MergeFrom([], Sorting.Sort(TargetsOf(inp.mappings, st.insertionIdx), StartLe)), 0, |d.data|,
               st.newPos, inp.author, inp.ts);
  }

  lemma {:induction false} RunMarks(inp: Input, st: State, ds: seq<ByteDiff>)
    requires ValidInput(inp) && inp.isAi && MarkersAreCurrent(inp.author, inp.ts, st.out)
    ensures MarkersAreCurrent(inp.author, inp.ts, Run(inp, st, ds).out)
    decreases ds
  {
    if ds != [] {
      AddedMarks(inp, st, ds[0]);
      hide Added;
      RunMarks(inp, Step(inp, st, ds[0]), ds[1..]);
    }
  }

  lemma {:induction false} ResultMarks(r: Request, f: Findings, sorted: seq<Attribution>, result: seq<Attribution>)
    requires IsRunOf(r, f, sorted, result) && r.isAi
    ensures MarkersAreCurrent(r.author, r.ts, result)
  {
    var inp := InputOf(r, f, sorted);
    RunMarks(inp, START, f.diffs);
    MergeCorrect(Run(inp, START, f.diffs).out);
    hide Run, MergeSpec, Owners, Insertions, ValidInput;
  }

  // ----- Lines with one owner -----

  /** Every range that overlaps a line of one owner is that owner's. */
  lemma {:induction false} OverlapIsOwners(result: seq<Attribution>, lo: nat, hi: nat, author: string, ts: nat,
                                           a: Attribution)
    requires lo < hi && forall p: nat | lo <= p < hi :: Owners(result, p) == {(author, ts)}
    requires MarkersAreCurrent(author, ts, result) && a in result && Attributions.Overlaps(a, lo, hi)
    ensures OwnerOf(a) == (author, ts)
  {
    if !IsEmpty(a) {
      var p: nat := Max(a.start, lo);
      assert OwnerOf(a) in Owners(result, p);
    }
  }

  /** A range with a character of the line that is not blank, or with any character of a blank line, counts for it. */
  lemma {:induction false} CharacterCounts(cc: CharClass, attrs: seq<Attribution>, content: string, lo: nat, hi: nat,
                                           isAi: bool, k: nat, p: nat)
    requires lo <= p < hi <= |content| && k < |attrs| && Covers(attrs[k], p)
    requires !cc.isWhitespace(content[p]) || AllWhitespace(cc, content[lo..hi])
    ensures L.Candidate(cc, attrs, content, lo, hi, isAi, k)
  {
    var s, e := Max(lo, attrs[k].start), Min(hi, attrs[k].end);
    assert content[s..e][p - s] == content[p];
  }

  lemma {:induction false} CountingCharacter(cc: CharClass, content: string, lo: nat, hi: nat) returns (p: nat)
    requires lo < hi <= |content|
    ensures lo <= p < hi && (!cc.isWhitespace(content[p]) || AllWhitespace(cc, content[lo..hi]))
  {
    var line := content[lo..hi];
    if AllWhitespace(cc, line) {
      return lo;
    }
    var i :| 0 <= i < |line| && !cc.isWhitespace(line[i]);
    assert line[i] == content[lo + i];
    return lo + i;
  }

  /** A line whose characters all have one owner names that owner, and nobody's work that it overrode. */
  lemma {:induction false} OneOwnerLabel(cc: CharClass, attrs: seq<Attribution>, content: string, lo: nat, hi: nat,
                                         isAi: bool, author: string, ts: nat)
    requires lo < hi <= |content| && MarkersAreCurrent(author, ts, attrs)
    requires forall p: nat | lo <= p < hi :: Owners(attrs, p) == {(author, ts)}
    ensures L.LineLabel(cc, attrs, content, lo, hi, isAi) == (author, None)
  {
    OnlyCandidates(cc, attrs, content, lo, hi, isAi, author, ts);
    var p := CountingCharacter(cc, content, lo, hi);
    assert (author, ts) in Owners(attrs, p);
    var k :| 0 <= k < |attrs| && Covers(attrs[k], p) && OwnerOf(attrs[k]) == (author, ts);
    CharacterCounts(cc, attrs, content, lo, hi, isAi, k, p);
    hide L.LineLabel, L.Candidate, Owners, MarkersAreCurrent;
    LatestNamed(cc, attrs, content, lo, hi, isAi, author, ts, k);
    forall x ensures L.LineLabel(cc, attrs, content, lo, hi, isAi).1 != Some(x) {
      L.LineOverrodeIff(cc, attrs, content, lo, hi, isAi, x);
    }
  }

  lemma {:induction false} OnlyCandidates(cc: CharClass, attrs: seq<Attribution>, content: string, lo: nat, hi: nat,
                                          isAi: bool, author: string, ts: nat)
    requires lo < hi <= |content| && MarkersAreCurrent(author, ts, attrs)
    requires forall p: nat | lo <= p < hi :: Owners(attrs, p) == {(author, ts)}
    ensures forall i: nat | L.Candidate(cc, attrs, content, lo, hi, isAi, i) ::
              i < |attrs| && OwnerOf(attrs[i]) == (author, ts)
  {
    hide L.CountsForLine, Owners, MarkersAreCurrent;
    forall i: nat | L.Candidate(cc, attrs, content, lo, hi, isAi, i)
      ensures i < |attrs| && OwnerOf(attrs[i]) == (author, ts)
    {
      OverlapIsOwners(attrs, lo, hi, author, ts, attrs[i]);
    }
  }

  /** A candidate with the latest timestamp, which only its author has, gives the line its author. */
  lemma {:induction false} LatestNamed(cc: CharClass, attrs: seq<Attribution>, content: string, lo: nat, hi: nat,
                                       isAi: bool, author: string, ts: nat, k: nat)
    requires lo <= hi <= |content| && L.Candidate(cc, attrs, content, lo, hi, isAi, k)
    requires k < |attrs| && OwnerOf(attrs[k]) == (author, ts)
    requires forall i: nat | L.Candidate(cc, attrs, content, lo, hi, isAi, i) ::
               i < |attrs| && attrs[i].ts <= ts && (attrs[i].ts == ts ==> attrs[i].author == author)
    ensures L.LineLabel(cc, attrs, content, lo, hi, isAi).0 == author
  {
    hide L.LineLabel, L.Candidate;
    var i := L.LineAuthorIsLatest(cc, attrs, content, lo, hi, isAi);
    assert attrs[k].ts <= attrs[i].ts;
  }

  // ----- AI checkpoints -----

  /** Every line of a changed hunk names the AI author, and nobody's work that it overrode. */
  ghost predicate NewLinesNamed(r: Request, result: seq<Attribution>) {
    forall k: nat | k < |LineRanges(r.news)| && D.Counterpart(r.differ(Lines(r.olds), Lines(r.news)), k) == None ::
      L.LabelAt(r.cc, result, r.news, true, k + 1) == Some((r.author, None))
  }

  lemma {:induction false} NewLineNamed(r: Request, result: seq<Attribution>, k: nat)
    requires k < |LineRanges(r.news)| && AiLine(r, result, k) && MarkersAreCurrent(r.author, r.ts, result)
    requires D.Counterpart(r.differ(Lines(r.olds), Lines(r.news)), k) == None
    ensures L.LabelAt(r.cc, result, r.news, true, k + 1) == Some((r.author, None))
  {
    hide LineRanges, Lines, D.Counterpart, L.LineLabel, Owners, MarkersAreCurrent;
    L.NextLine(r.news, k);
    var line := LineRanges(r.news)[k];
    OneOwnerLabel(r.cc, result, r.news, line.0, line.1, true, r.author, r.ts);
  }

  lemma {:induction false} NewLinesAreNamed(r: Request, f: Findings, sorted: seq<Attribution>,
                                            result: seq<Attribution>)
    requires D.HonestDiffer(r.differ) && r.isAi && IsRunOf(r, f, sorted, result) && Outcome(r, f, result)
    ensures NewLinesNamed(r, result)
  {
    ResultMarks(r, f, sorted, result);
    assert forall k | 0 <= k < |LineRanges(r.news)| :: AiLine(r, result, k);
    hide IsRunOf, Outcome, LineRanges, Lines, AiLine, D.Counterpart, L.LabelAt, MarkersAreCurrent, D.HonestDiffer;
    forall k: nat | k < |LineRanges(r.news)| && D.Counterpart(r.differ(Lines(r.olds), Lines(r.news)), k) == None
      ensures L.LabelAt(r.cc, result, r.news, true, k + 1) == Some((r.author, None))
    {
      NewLineNamed(r, result, k);
    }
  }

  // ----- Human checkpoints -----

  /** The checkpoint is later than everything that the old text's attributions know. */
  ghost predicate IsLatest(r: Request) {
    forall b | b in r.attrs :: b.ts < r.ts
  }

  lemma {:induction false} CurrentIsLatest(r: Request, result: seq<Attribution>)
    requires OnlyKnownOwners(r, result) && IsLatest(r)
    ensures forall i | 0 <= i < |result| ::
              result[i].ts <= r.ts && (result[i].ts == r.ts ==> result[i].author == r.author)
  {
    forall i | 0 <= i < |result|
      ensures result[i].ts <= r.ts && (result[i].ts == r.ts ==> result[i].author == r.author)
    {
      assert result[i] in result;
    }
  }

  /** A line with one character of the current author that is not blank names the current author. */
  lemma {:induction false} CurrentCharacterNamed(r: Request, result: seq<Attribution>, k: nat, p: nat)
    requires OnlyKnownOwners(r, result) && IsLatest(r) && k < |LineRanges(r.news)|
    requires LineRanges(r.news)[k].0 <= p < LineRanges(r.news)[k].1 && p < |r.news| && !r.cc.isWhitespace(r.news[p])
    requires Current(r) in Owners(result, p)
    ensures L.LabelAt(r.cc, result, r.news, r.isAi, k + 1).Some?
    ensures L.LabelAt(r.cc, result, r.news, r.isAi, k + 1).value.0 == r.author
  {
    CurrentIsLatest(r, result);
    L.NextLine(r.news, k);
    var (lo, hi) := LineRanges(r.news)[k];
    var i :| 0 <= i < |result| && Covers(result[i], p) && OwnerOf(result[i]) == Current(r);
    hide LineRanges, Owners, L.LineLabel, OnlyKnownOwners, IsLatest;
    CharacterCounts(r.cc, result, r.news, lo, hi, r.isAi, i, p);
    forall j: nat | L.Candidate(r.cc, result, r.news, lo, hi, r.isAi, j)
      ensures j < |result| && result[j].ts <= r.ts && (result[j].ts == r.ts ==> result[j].author == r.author)
    {
      L.CandidateInRange(r.cc, result, r.news, lo, hi, r.isAi, j);
    }
    hide L.Candidate;
    LatestNamed(r.cc, result, r.news, lo, hi, r.isAi, r.author, r.ts, i);
  }

  /** Line `k` of the new text, counted from 0, has a character at `p` that is not blank. */
  ghost predicate VisibleOn(r: Request, k: nat, p: nat) {
    && k < |LineRanges(r.news)| && LineRanges(r.news)[k].0 <= p < LineRanges(r.news)[k].1
    && p < |r.news| && !r.cc.isWhitespace(r.news[p])
  }

  ghost predicate NamesCurrent(r: Request, result: seq<Attribution>, k: nat) {
    var who := L.LabelAt(r.cc, result, r.news, r.isAi, k + 1);
    who.Some? && who.value.0 == r.author
  }

  /** New text of a changed hunk: all of a large hunk, and otherwise the tokens without a partner. */
  ghost predicate IsNewText(r: Request, h: HunkRecord, p: nat) {
    && h.a' <= |r.olds| && h.b' <= |r.news|
    && if h.lineAligned then h.b <= p < h.b' else InNewToken(r, h, p)
  }

  ghost predicate InNewToken(r: Request, h: HunkRecord, p: nat)
    requires h.a' <= |r.olds| && h.b' <= |r.news|
  {
    var oldToks, newToks := Tokens(r.cc, r.olds, h.a, h.a'), Tokens(r.cc, r.news, h.b, h.b');
    var hunks := r.differ(Lexemes(oldToks), Lexemes(newToks));
    exists i | 0 <= i < |newToks| ::
      newToks[i].start <= p < newToks[i].end && D.Counterpart(hunks, i) == None
  }

  lemma {:induction false} NewTokenIsCurrent(r: Request, f: Findings, result: seq<Attribution>, h: HunkRecord, p: nat)
    requires h.a' <= |r.olds| && h.b' <= |r.news| && HumanTokens(r, f, result, h) && InNewToken(r, h, p)
    ensures Owners(result, p) == ByCurrent(r, f, p)
  {
    hide Tokens, Lexemes, Owners, ByCurrent, D.Counterpart, KeepsOwners;
    var oldToks, newToks := Tokens(r.cc, r.olds, h.a, h.a'), Tokens(r.cc, r.news, h.b, h.b');
    var hunks := r.differ(Lexemes(oldToks), Lexemes(newToks));
    var i :| 0 <= i < |newToks| && newToks[i].start <= p < newToks[i].end && D.Counterpart(hunks, i) == None;
    assert HumanToken(r, f, result, oldToks, newToks[i], D.Counterpart(hunks, i));
  }

  lemma {:induction false} NewLineTextIsCurrent(r: Request, f: Findings, result: seq<Attribution>, h: HunkRecord,
                                                p: nat)
    requires h.b' <= |r.news| && HumanLines(r, f, result, h) && h.b <= p < h.b' && !r.cc.isWhitespace(r.news[p])
    ensures Owners(result, p) == ByCurrent(r, f, p)
  {
    hide Owners, ByCurrent, OneOwner;
    assert r.news[h.b..h.b'][p - h.b] == r.news[p];
  }

  /** New text of a human checkpoint that no move brought makes its line the current author's. */
  lemma {:induction false} NewTextNamed(r: Request, f: Findings, result: seq<Attribution>, h: HunkRecord, k: nat,
                                        p: nat)
    requires OnlyKnownOwners(r, result) && IsLatest(r) && HumanHunk(r, f, result, h)
    requires IsNewText(r, h, p) && VisibleOn(r, k, p) && !InTarget(InputOf(r, f, r.attrs), p)
    ensures NamesCurrent(r, result, k)
  {
    assert Owners(result, p) == ByCurrent(r, f, p) by {
      hide Owners, ByCurrent, HumanLines, HumanTokens, InNewToken, OnlyKnownOwners, InTarget, LineRanges, NamesCurrent;
      if h.lineAligned {
        NewLineTextIsCurrent(r, f, result, h, p);
      } else {
        NewTokenIsCurrent(r, f, result, h, p);
      }
    }
    hide LineRanges, OnlyKnownOwners, IsLatest, L.LabelAt, InTarget, MovedTo, Owners, HumanHunk, IsNewText;
    CurrentCharacterNamed(r, result, k, p);
  }

  /** Every line with new text in one of the changed hunks names the current author. */
  ghost predicate NewTextsNamed(r: Request, f: Findings, result: seq<Attribution>)
    requires D.HonestDiffer(r.differ)
  {
    forall s: nat, e: nat, k: nat, p: nat |
      && ChangedRun(JobFor(r).ops, s, e) && IsNewText(r, RunHunk(JobFor(r), s, e), p) && VisibleOn(r, k, p)
      && !InTarget(InputOf(r, f, r.attrs), p) ::
      NamesCurrent(r, result, k)
  }

  lemma {:induction false} NewTextsAreNamed(r: Request, f: Findings, result: seq<Attribution>)
    requires D.HonestDiffer(r.differ) && !r.isAi && Outcome(r, f, result)
    requires OnlyKnownOwners(r, result) && IsLatest(r)
    ensures NewTextsNamed(r, f, result)
  {
    assert HumanHunks(r, f, result);
    hide Outcome, OnlyKnownOwners, IsLatest, IsNewText, VisibleOn, NamesCurrent, InTarget, HumanHunk, JobFor, RunHunk;
    hide D.HonestDiffer;
    forall s: nat, e: nat, k: nat, p: nat |
      && ChangedRun(JobFor(r).ops, s, e) && IsNewText(r, RunHunk(JobFor(r), s, e), p) && VisibleOn(r, k, p)
      && !InTarget(InputOf(r, f, r.attrs), p)
      ensures NamesCurrent(r, result, k)
    {
      NewTextNamed(r, f, result, RunHunk(JobFor(r), s, e), k, p);
    }
  }

  // ----- The entry -----

  datatype FileEntry = FileEntry(attributions: seq<Attribution>, lineAttributions: seq<L.LineAttribution>)

  /** The line list names `author` for line `n`; plain human lines are not listed. */
  ghost predicate Names(las: seq<L.LineAttribution>, n: nat, author: string) {
    match L.Decode(las, n)
    case Some(who) => who.0 == author
    case None => author == L.HUMAN
  }

  /** Every line of an AI checkpoint's changed hunks is listed for the AI alone. */
  ghost predicate AiEntry(r: Request, entry: FileEntry) {
    forall k: nat | k < |LineRanges(r.news)| && D.Counterpart(r.differ(Lines(r.olds), Lines(r.news)), k) == None ::
      L.Decode(entry.lineAttributions, k + 1) == if r.author == L.HUMAN then None else Some((r.author, None))
  }

  /** Every line with new text that no move brought is listed for the human. */
  ghost predicate HumanEntry(r: Request, f: Findings, entry: FileEntry)
    requires D.HonestDiffer(r.differ)
  {
    forall s: nat, e: nat, k: nat, p: nat |
      && ChangedRun(JobFor(r).ops, s, e) && IsNewText(r, RunHunk(JobFor(r), s, e), p) && VisibleOn(r, k, p)
      && !InTarget(InputOf(r, f, r.attrs), p) ::
      Names(entry.lineAttributions, k + 1, r.author)
  }

  ghost predicate EntryHolds(r: Request, f: Findings, entry: FileEntry)
    requires D.HonestDiffer(r.differ)
  {
    && L.IsLineAuthorship(r.cc, entry.attributions, r.news, r.isAi, entry.lineAttributions)
    && (r.isAi ==> AiEntry(r, entry))
    && (!r.isAi && IsLatest(r) ==> HumanEntry(r, f, entry))
    && (f.mappings == [] && FullyAttributed(r.attrs, |r.olds|) ==> FullyAttributed(entry.attributions, |r.news|))
  }

  lemma {:induction false} ListedIfKept(cc: CharClass, attrs: seq<Attribution>, content: string, isAi: bool,
                                        las: seq<L.LineAttribution>, n: nat)
    requires L.IsLineAuthorship(cc, attrs, content, isAi, las) && L.LabelAt(cc, attrs, content, isAi, n).Some?
    ensures var who := L.LabelAt(cc, attrs, content, isAi, n).value;
            L.Decode(las, n) == if who.0 != L.HUMAN || who.1.Some? then Some(who) else None
  {
    hide L.LabelAt, L.Decode, L.NormalForm;
  }

  lemma {:induction false} AiEntryHolds(r: Request, entry: FileEntry)
    requires r.isAi && NewLinesNamed(r, entry.attributions)
    requires L.IsLineAuthorship(r.cc, entry.attributions, r.news, true, entry.lineAttributions)
    ensures AiEntry(r, entry)
  {
    hide L.LabelAt, L.Decode, L.IsLineAuthorship, LineRanges, Lines, D.Counterpart;
    forall k: nat | k < |LineRanges(r.news)| && D.Counterpart(r.differ(Lines(r.olds), Lines(r.news)), k) == None
      ensures L.Decode(entry.lineAttributions, k + 1) == if r.author == L.HUMAN then None else Some((r.author, None))
    {
      ListedIfKept(r.cc, entry.attributions, r.news, true, entry.lineAttributions, k + 1);
    }
  }

  lemma {:induction false} NamedIsListed(r: Request, entry: FileEntry, k: nat)
    requires NamesCurrent(r, entry.attributions, k)
    requires L.IsLineAuthorship(r.cc, entry.attributions, r.news, r.isAi, entry.lineAttributions)
    ensures Names(entry.lineAttributions, k + 1, r.author)
  {
    hide L.LabelAt, L.Decode, L.IsLineAuthorship;
    ListedIfKept(r.cc, entry.attributions, r.news, r.isAi, entry.lineAttributions, k + 1);
  }

  lemma {:induction false} HumanEntryHolds(r: Request, f: Findings, entry: FileEntry)
    requires D.HonestDiffer(r.differ) && NewTextsNamed(r, f, entry.attributions)
    requires L.IsLineAuthorship(r.cc, entry.attributions, r.news, r.isAi, entry.lineAttributions)
    ensures HumanEntry(r, f, entry)
  {
    hide L.IsLineAuthorship, IsNewText, VisibleOn, NamesCurrent, Names, InTarget, JobFor, RunHunk;
    hide D.HonestDiffer;
    forall s: nat, e: nat, k: nat, p: nat |
      && ChangedRun(JobFor(r).ops, s, e) && IsNewText(r, RunHunk(JobFor(r), s, e), p) && VisibleOn(r, k, p)
      && !InTarget(InputOf(r, f, r.attrs), p)
      ensures Names(entry.lineAttributions, k + 1, r.author)
    {
      assert NamesCurrent(r, entry.attributions, k);
      NamedIsListed(r, entry, k);
    }
  }

  lemma {:induction false} EntryIntro(r: Request, f: Findings, sorted: seq<Attribution>, entry: FileEntry)
    requires D.HonestDiffer(r.differ) && DiffsFor(r, f) && IsRunOf(r, f, sorted, entry.attributions)
    requires Outcome(r, f, entry.attributions) && OnlyKnownOwners(r, entry.attributions)
    requires L.IsLineAuthorship(r.cc, entry.attributions, r.news, r.isAi, entry.lineAttributions)
    ensures EntryHolds(r, f, entry)
  {
    OutcomeParts(r, f, entry.attributions);
    hide DiffsFor, IsRunOf, Outcome, OnlyKnownOwners, L.IsLineAuthorship, IsLatest, AiEntry, HumanEntry, IsScript;
    hide NewLinesNamed, NewTextsNamed, FullyAttributed, ByScript, D.HonestDiffer;
    if r.isAi {
      NewLinesAreNamed(r, f, sorted, entry.attributions);
      AiEntryHolds(r, entry);
    } else if IsLatest(r) {
      NewTextsAreNamed(r, f, entry.attributions);
      HumanEntryHolds(r, f, entry);
    }
    if f.mappings == [] && FullyAttributed(r.attrs, |r.olds|) {
      CoverageIsKept(r, f, entry.attributions);
    }
  }

  lemma {:induction false} OutcomeParts(r: Request, f: Findings, result: seq<Attribution>)
    requires D.HonestDiffer(r.differ) && DiffsFor(r, f) && Outcome(r, f, result)
    ensures IsScript(f.diffs, r.olds, r.news) && ByScript(r, f, result)
  {
  }

  /** `make_entry_for_file`, from the filled-in attributions of the old text on: update them, then convert to lines. */
  method MakeEntryForFile(r: Request, hash: string -> nat, threshold: nat)
    returns (result: Result<FileEntry, string>, ghost f: Findings, ghost sorted: seq<Attribution>)
    requires D.HonestDiffer(r.differ) && WellFormed(r.attrs)
    ensures result.Ok? && DiffsFor(r, f) && MovesFoundBy(r, f, threshold)
    ensures IsRunOf(r, f, sorted, result.value.attributions) && Outcome(r, f, result.value.attributions)
    ensures EntryHolds(r, f, result.value)
  {
    hide *;
    var newAttributions;
    newAttributions, f, sorted := UpdateAttributionsForCheckpoint(r, hash, threshold);
    // The error return of the original is never taken: the update always succeeds.
    var lineAttributions := L.AttributionsToLineAttributions(r.cc, newAttributions.value, r.news, r.isAi);
    var entry := FileEntry(newAttributions.value, lineAttributions);
    EntryIntro(r, f, sorted, entry);
    result := Ok(entry);
  }
}
