/** A checkpoint from end to end (`update_attributions_for_checkpoint`). */
module Checkpoint {
  import opened Prelude
  import opened Text
  import opened EditScript
  import opened Ranges
  import opened Tokenizer
  import opened TokenDiff
  import opened HunkDiffs
  import opened Attributions
  import opened Cursors
  import opened Transform
  import opened Ownership
  import opened Moves
  import D = DiffOps
  import M = MoveDetection
  import Sorting

  // ----- Sorting at the boundary -----

  /** `is_attribution_list_sorted`. */
  predicate IsAttributionListSorted(attrs: seq<Attribution>) {
    forall k | 0 < k < |attrs| :: InOrderAt(attrs, k)
  }

  predicate InOrderAt(attrs: seq<Attribution>, k: nat)
    requires 0 < k < |attrs|
  {
    AttrLe(attrs[k - 1], attrs[k])
  }

  lemma {:induction false} PairwiseSorted(attrs: seq<Attribution>, i: nat, j: nat)
    requires IsAttributionListSorted(attrs) && i < j < |attrs|
    ensures AttrLe(attrs[i], attrs[j])
    decreases j - i
  {
    assert InOrderAt(attrs, j);
    if i < j - 1 {
      PairwiseSorted(attrs, i, j - 1);
      AttrLeTransitive(attrs[i], attrs[j - 1], attrs[j]);
    }
  }

  /** The list the transformation works on: sorted, same members. */
  ghost predicate SortedVersion(sorted: seq<Attribution>, attrs: seq<Attribution>) {
    && Sorting.SortedBy(sorted, AttrLe)
    && forall a :: a in sorted <==> a in attrs
  }

  method SortForTransform(attrs: seq<Attribution>) returns (sorted: seq<Attribution>)
    ensures SortedVersion(sorted, attrs)
  {
    if IsAttributionListSorted(attrs) {
      forall i, j | 0 <= i < j < |attrs| ensures AttrLe(attrs[i], attrs[j]) {
        PairwiseSorted(attrs, i, j);
      }
      return attrs;
    }
    sorted := SortAttributions(attrs);
  }

  // ----- What a checkpoint guarantees -----

  /** The caller's data. */
  datatype Request = Request(cc: CharClass, differ: D.Differ, olds: string, news: string, attrs: seq<Attribution>,
                             author: string, ts: nat, isAi: bool)

  /** What a checkpoint finds out about the two texts before it touches the attributions. */
  datatype Findings = Findings(diffs: seq<ByteDiff>, substantive: seq<Range>, mappings: seq<MoveMapping>)

  function Current(r: Request): Owner {
    (r.author, r.ts)
  }

  /** What the transformation reads, for a list `attrs` with the caller's attributions. */
  ghost function InputOf(r: Request, f: Findings, attrs: seq<Attribution>): Input {
    Input(r.cc, attrs, r.author, Insertions(f.diffs), f.mappings, r.ts, f.substantive, r.isAi)
  }

  /** No owner is invented: every range is the current author's or an old owner's. */
  ghost predicate OnlyKnownOwners(r: Request, result: seq<Attribution>) {
    forall a | a in result :: OwnerOf(a) == Current(r) || exists b | b in r.attrs :: OwnerOf(b) == OwnerOf(a)
  }

  /** The owners that moves bring to `p`: those of every old position that a kept move lays over it. */
  ghost function MovedTo(r: Request, f: Findings, p: nat): set<Owner> {
    Moved(InputOf(r, f, r.attrs), Deletions(f.diffs), 0, p)
  }

  /** The current author's position, unless a move has it. */
  ghost function ByCurrent(r: Request, f: Findings, p: nat): set<Owner> {
    (if InTarget(InputOf(r, f, r.attrs), p) then {} else {Current(r)}) + MovedTo(r, f, p)
  }

  /**
   * Copied text keeps its owners.  Inserted text has one owner, the current author in an AI checkpoint, in a
   * segment with a newline and in one that meets a substantive range; around moves it is the current author,
   * and nobody inside a target.  Moves only add to this.
   */
  ghost predicate PositionByScript(r: Request, f: Findings, result: seq<Attribution>, p: nat) {
    exists base: set<Owner> | Explained(InputOf(r, f, r.attrs), f.diffs, 0, 0, p, base) ::
      Owners(result, p) == base + MovedTo(r, f, p)
  }

  /** The owners of every position, also of those beyond the new text. */
  ghost predicate ByScript(r: Request, f: Findings, result: seq<Attribution>) {
    && (forall p: nat | p < |r.news| :: PositionByScript(r, f, result, p))
    && (forall p: nat | p >= |r.news| :: Owners(result, p) == MovedTo(r, f, p))
  }

  /**
   * An AI checkpoint, line by line: a line inside a changed hunk belongs to the AI author alone, and a
   * line outside keeps, character by character, the owners of the old line it is paired with.
   */
  ghost predicate AiLine(r: Request, result: seq<Attribution>, k: nat)
    requires k < |LineRanges(r.news)|
  {
    var line := LineRanges(r.news)[k];
    match D.Counterpart(r.differ(Lines(r.olds), Lines(r.news)), k)
    case None => forall p: nat | line.0 <= p < line.1 :: Owners(result, p) == {Current(r)}
    case Some(o) =>
      && o < |LineRanges(r.olds)|
      && Lines(r.olds)[o] == Lines(r.news)[k]
      && KeepsExactly(r, result, line.0, line.1, LineRanges(r.olds)[o].0)
  }

  /** New text `[lo, hi)` has exactly the owners of the old text from `src` on. */
  ghost predicate KeepsExactly(r: Request, result: seq<Attribution>, lo: nat, hi: nat, src: nat) {
    forall p: nat | lo <= p < hi :: Owners(result, p) == Owners(r.attrs, src + (p - lo))
  }

  /** New text `[lo, hi)` keeps the owners of the old text from `src` on. */
  ghost predicate KeepsOwners(r: Request, f: Findings, result: seq<Attribution>, lo: nat, hi: nat, src: nat) {
    forall p: nat | lo <= p < hi :: Owners(result, p) == Owners(r.attrs, src + (p - lo)) + MovedTo(r, f, p)
  }

  /** New text `[lo, hi)` is the current author's. */
  ghost predicate CurrentOwns(r: Request, f: Findings, result: seq<Attribution>, lo: nat, hi: nat) {
    forall p: nat | lo <= p < hi :: Owners(result, p) == ByCurrent(r, f, p)
  }

  /** Inside a changed hunk of a human checkpoint, split by tokens. */
  ghost predicate HumanTokens(r: Request, f: Findings, result: seq<Attribution>, h: HunkRecord)
    requires h.a' <= |r.olds| && h.b' <= |r.news|
  {
    var oldToks, newToks := Tokens(r.cc, r.olds, h.a, h.a'), Tokens(r.cc, r.news, h.b, h.b');
    var hunks := r.differ(Lexemes(oldToks), Lexemes(newToks));
    forall k | 0 <= k < |newToks| :: HumanToken(r, f, result, oldToks, newToks[k], D.Counterpart(hunks, k))
  }

  /** A paired token keeps its owners; an inserted or replaced one belongs to the current author. */
  ghost predicate HumanToken(r: Request, f: Findings, result: seq<Attribution>, oldToks: seq<Token>, t: Token,
                             source: Option<nat>)
  {
    match source
    case Some(o) => o < |oldToks| && KeepsOwners(r, f, result, t.start, t.end, oldToks[o].start)
    case None => CurrentOwns(r, f, result, t.start, t.end)
  }

  /**
   * The text between the tokens: between two pairs it keeps its owners if it is the same on both sides, inside
   * a changed stretch it is the current author's, and elsewhere it has one owner, the current author if it has
   * a newline.
   */
  ghost predicate HumanGaps(r: Request, f: Findings, result: seq<Attribution>, h: HunkRecord)
    requires h.a' <= |r.olds| && h.b' <= |r.news|
  {
    var w := HunkTexts(r.cc, r.olds, h.a, h.a', r.news, h.b, h.b');
    var hunks := r.differ(Lexemes(w.oldToks), Lexemes(w.newToks));
    forall k: nat | k <= |w.newToks| ::
      HumanGap(r, f, result, w, k, PartnerBefore(hunks, k), RoleAt(hunks, |w.newToks|, k))
  }

  ghost predicate HumanGap(r: Request, f: Findings, result: seq<Attribution>, w: Work, k: nat, before: Option<nat>,
                           role: D.Role)
  {
    var lo, hi := GapStart(w.newToks, w.b, k), GapEnd(w.newToks, w.b', k);
    var i := PassesAt(k, |w.newToks|, |w.oldToks|, before, role);
    && lo <= hi <= |r.news|
    && if i.Some? && SameText(r.olds, GapStart(w.oldToks, w.a, i.value), GapEnd(w.oldToks, w.a', i.value),
                              r.news, lo, hi)
       then KeepsOwners(r, f, result, lo, hi, GapStart(w.oldToks, w.a, i.value))
       else
         && (forall p: nat | lo <= p < hi :: OneOwner(r, f, result, p))
         && ((k < |w.newToks| && role.Continues?) || '\n' in r.news[lo..hi] ==> CurrentOwns(r, f, result, lo, hi))
  }

  /** One owner, besides those that moves bring; none inside a target. */
  ghost predicate OneOwner(r: Request, f: Findings, result: seq<Attribution>, p: nat) {
    exists base: set<Owner> | (exists o :: base == {o}) || base == {} ::
      && (base == {} <==> InTarget(InputOf(r, f, r.attrs), p))
      && Owners(result, p) == base + MovedTo(r, f, p)
  }

  /**
   * Inside a changed hunk of a human checkpoint that is too large for tokens: the current author, unless the
   * hunk's new text is blank and on one line; then there is still one owner.
   */
  ghost predicate HumanLines(r: Request, f: Findings, result: seq<Attribution>, h: HunkRecord)
    requires h.b' <= |r.news|
  {
    && h.b <= h.b'
    && (forall p: nat | h.b <= p < h.b' :: OneOwner(r, f, result, p))
    && (!DataIsWhitespace(r.cc, r.news[h.b..h.b']) || '\n' in r.news[h.b..h.b'] ==>
          CurrentOwns(r, f, result, h.b, h.b'))
  }

  ghost function JobFor(r: Request): Job
    requires D.HonestDiffer(r.differ)
  {
    JobOf(r.cc, r.differ, r.olds, r.news, r.isAi)
  }

  /** A human line outside the changed hunks keeps its owners; every other line lies in one of them. */
  ghost predicate HumanLine(r: Request, f: Findings, result: seq<Attribution>, k: nat)
    requires D.HonestDiffer(r.differ) && k < |LineRanges(r.news)|
  {
    var line := LineRanges(r.news)[k];
    match D.Counterpart(r.differ(Lines(r.olds), Lines(r.news)), k)
    case None => InRun(JobFor(r), line.0, line.1)
    case Some(o) =>
      o < |LineRanges(r.olds)| && KeepsOwners(r, f, result, line.0, line.1, LineRanges(r.olds)[o].0)
  }

  /** Each changed hunk, by lines if it is too large for tokens, and by tokens otherwise. */
  ghost predicate HumanHunk(r: Request, f: Findings, result: seq<Attribution>, h: HunkRecord) {
    && h.a' <= |r.olds| && h.b' <= |r.news|
    && if h.lineAligned then HumanLines(r, f, result, h)
       else HumanTokens(r, f, result, h) && HumanGaps(r, f, result, h)
  }

  ghost predicate HumanHunks(r: Request, f: Findings, result: seq<Attribution>)
    requires D.HonestDiffer(r.differ)
  {
    forall s: nat, e: nat | ChangedRun(JobFor(r).ops, s, e) :: HumanHunk(r, f, result, RunHunk(JobFor(r), s, e))
  }

  // ----- Why it holds -----

  /** The run of the transformation behind a checkpoint. */
  ghost predicate IsRunOf(r: Request, f: Findings, sorted: seq<Attribution>, result: seq<Attribution>) {
    && SortedVersion(sorted, r.attrs)
    && ValidInput(InputOf(r, f, sorted))
    && result == MergeSpec(Run(InputOf(r, f, sorted), START, f.diffs).out)
  }

  lemma {:induction false} KnownOwners(r: Request, f: Findings, sorted: seq<Attribution>, result: seq<Attribution>)
    requires IsRunOf(r, f, sorted, result)
    ensures OnlyKnownOwners(r, result)
  {
    var inp := InputOf(r, f, sorted);
    NoInventedOwner(inp, START, f.diffs);
    var out := Run(inp, START, f.diffs).out;
    hide Run, MergeSpec, Insertions, ValidInput;
    MergeOwnersKnown(inp, out);
  }

  /** Coalescing takes owners over from its input. */
  lemma {:induction false} MergeOwnersKnown(inp: Input, out: seq<Attribution>)
    requires AllKnown(inp, out)
    ensures AllKnown(inp, MergeSpec(out))
  {
    var sorted := SortAttributions(out);
    DedupSorted(sorted);
    CoalesceKnown(inp, [], Dedup(sorted));
  }

  lemma {:induction false} CoalesceKnown(inp: Input, merged: seq<Attribution>, rest: seq<Attribution>)
    requires AllKnown(inp, merged) && AllKnown(inp, rest)
    ensures AllKnown(inp, Coalesce(merged, rest))
    decreases |rest|
  {
    if rest != [] {
      assert rest[0] in rest;
      if merged != [] {
        assert merged[|merged| - 1] in merged;
      }
      hide Known;
      CoalesceKnown(inp, CoalesceStep(merged, rest[0]), rest[1..]);
    }
  }

  lemma {:induction false} MergeBounds(out: seq<Attribution>, n: nat)
    requires EndsBy(out, n)
    ensures EndsBy(MergeSpec(out), n)
  {
    var sorted := SortAttributions(out);
    DedupSorted(sorted);
    CoalesceBounds([], Dedup(sorted), n);
  }

  lemma {:induction false} CoalesceBounds(merged: seq<Attribution>, rest: seq<Attribution>, n: nat)
    requires EndsBy(merged, n) && EndsBy(rest, n)
    ensures EndsBy(Coalesce(merged, rest), n)
    decreases |rest|
  {
    if rest != [] {
      assert rest[0] in rest;
      if merged != [] {
        assert merged[|merged| - 1] in merged;
      }
      CoalesceBounds(CoalesceStep(merged, rest[0]), rest[1..], n);
    }
  }

  /** Where no move's source reaches beyond the new text, no output range does. */
  lemma {:induction false} RunInBounds(r: Request, f: Findings, sorted: seq<Attribution>, result: seq<Attribution>)
    requires IsRunOf(r, f, sorted, result) && IsScript(f.diffs, r.olds, r.news)
    requires ImagesEndBy(f.mappings, Insertions(f.diffs), |r.news|)
    ensures EndsBy(result, |r.news|)
  {
    var inp := InputOf(r, f, sorted);
    hide Run, MergeSpec, ValidInput, ImagesEndBy;
    RunBounds(inp, START, f.diffs, |r.news|);
    MergeBounds(Run(inp, START, f.diffs).out, |r.news|);
  }

  lemma {:induction false} InsertAtContains(ds: seq<ByteDiff>, p: nat, a: nat, b: nat)
    ensures match InsertAt(ds, p, a, b)
            case Some(s) => s.start <= p < s.start + |s.data|
            case None => true
    decreases ds
  {
    if ds != [] && !(b <= p < b + |ds[0].data| && !ds[0].op.Delete?) {
      InsertAtContains(ds[1..], p, a + |OldPart(ds[0])|, b + |NewPart(ds[0])|);
    }
  }

  /** The order of the attributions changes nothing in what moves bring. */
  lemma {:induction false} MovedBySorted(r: Request, f: Findings, sorted: seq<Attribution>, p: nat)
    requires SortedVersion(sorted, r.attrs)
    ensures Moved(InputOf(r, f, sorted), Deletions(f.diffs), 0, p) == MovedTo(r, f, p)
  {
    var x, y := InputOf(r, f, sorted), InputOf(r, f, r.attrs);
    forall d: nat, m, o ensures Brings(x, m, d, p, o) <==> Brings(y, m, d, p, o) {
      if LandsOn(x.insertions, m, p) {
        SameMembersSameOwners(sorted, r.attrs, d + SourceOffset(x.insertions, m, p));
      }
    }
    assert AllOwners(sorted) == AllOwners(r.attrs);
    hide Brings, AllOwners, Deletions, Insertions, Kept;
    var dels := Deletions(f.diffs);
    assert forall m, o :: KeptBrings(x, dels, 0, m, p, o) <==> KeptBrings(y, dels, 0, m, p, o);
  }

  lemma {:induction false} ExplainedBySorted(r: Request, f: Findings, sorted: seq<Attribution>, p: nat,
                                             base: set<Owner>)
    requires SortedVersion(sorted, r.attrs) && Explained(InputOf(r, f, sorted), f.diffs, 0, 0, p, base)
    ensures Explained(InputOf(r, f, r.attrs), f.diffs, 0, 0, p, base)
  {
    if SourceAt(f.diffs, p, 0, 0).Some? {
      SameMembersSameOwners(sorted, r.attrs, SourceAt(f.diffs, p, 0, 0).value);
    }
    hide SourceAt, InsertAt, Owners;
  }

  /** The run's owners at `p`: what copying and inserting give, and what the moves bring. */
  lemma {:induction false} RunPosition(r: Request, f: Findings, sorted: seq<Attribution>, result: seq<Attribution>,
                                       p: nat)
    returns (base: set<Owner>)
    requires IsRunOf(r, f, sorted, result) && IsScript(f.diffs, r.olds, r.news)
    ensures base == Base(InputOf(r, f, sorted), START, f.diffs, p)
    ensures Owners(result, p) == base + MovedTo(r, f, p)
    ensures if p < |r.news| then Explained(InputOf(r, f, sorted), f.diffs, 0, 0, p, base) else base == {}
  {
    var inp, dels := InputOf(r, f, sorted), Deletions(f.diffs);
    base := Base(inp, START, f.diffs, p);
    assert dels[0..] == dels && inp.insertions[0..] == inp.insertions;
    assert Aligned(inp, dels, START, f.diffs);
    InsertionsApart(f.diffs, 0);
    hide Run, MergeSpec, ValidInput, Aligned, Explained, Base, Moved, Deletions, Insertions, Apart;
    RunOwners(inp, dels, START, f.diffs, p);
    BaseOwners(inp, dels, START, f.diffs, p);
    MergeCorrect(Run(inp, START, f.diffs).out);
    MovedBySorted(r, f, sorted, p);
    NobodyOwns(p);
  }

  lemma {:induction false} PositionOwners(r: Request, f: Findings, sorted: seq<Attribution>, result: seq<Attribution>,
                                          p: nat)
    requires IsRunOf(r, f, sorted, result) && IsScript(f.diffs, r.olds, r.news)
    ensures p < |r.news| ==> PositionByScript(r, f, result, p)
    ensures p >= |r.news| ==> Owners(result, p) == MovedTo(r, f, p)
  {
    hide Explained, MovedTo, Owners, SortedVersion, ValidInput, MergeSpec, Run;
    var base := RunPosition(r, f, sorted, result, p);
    if p < |r.news| {
      ExplainedBySorted(r, f, sorted, p, base);
    }
  }

  lemma {:induction false} CopiedPositions(r: Request, f: Findings, result: seq<Attribution>, lo: nat, hi: nat,
                                           src: nat)
    requires ByScript(r, f, result) && Copied(f.diffs, 0, 0, lo, hi, src) && hi <= |r.news|
    ensures KeepsOwners(r, f, result, lo, hi, src)
  {
    hide Owners, SourceAt, MovedTo;
    forall p: nat | lo <= p < hi ensures Owners(result, p) == Owners(r.attrs, src + (p - lo)) + MovedTo(r, f, p) {
      assert PositionByScript(r, f, result, p);
      assert SourceAt(f.diffs, p, 0, 0) == Some(src + (p - lo));
    }
  }

  /** An inserted position whose segment goes to the current author. */
  ghost predicate SegmentIsCurrent(r: Request, f: Findings, p: nat) {
    && SourceAt(f.diffs, p, 0, 0) == None
    && (InsertAt(f.diffs, p).Some? ==>
          CurrentAuthorSegment(InputOf(r, f, r.attrs), InsertAt(f.diffs, p).value))
  }

  lemma {:induction false} CurrentPositions(r: Request, f: Findings, result: seq<Attribution>, lo: nat, hi: nat)
    requires ByScript(r, f, result) && hi <= |r.news|
    requires forall p: nat | lo <= p < hi :: SegmentIsCurrent(r, f, p)
    ensures CurrentOwns(r, f, result, lo, hi)
  {
    var inp := InputOf(r, f, r.attrs);
    hide Owners, SourceAt, InsertAt, MovedTo, CurrentAuthorSegment, AroundMove, InTarget;
    forall p: nat | lo <= p < hi ensures Owners(result, p) == ByCurrent(r, f, p) {
      assert PositionByScript(r, f, result, p) && SegmentIsCurrent(r, f, p);
      if InTarget(inp, p) {
        TargetsAreAround(inp, p);
      }
    }
  }

  lemma {:induction false} TargetsAreAround(inp: Input, p: nat)
    requires InTarget(inp, p)
    ensures AroundMove(inp, p)
  {
  }

  /** Inserted text inside a substantive range belongs to the current author. */
  lemma {:induction false} SubstantivePosition(r: Request, f: Findings, s: Range, p: nat)
    requires s in f.substantive && Contains(s, p) && SourceAt(f.diffs, p, 0, 0) == None
    ensures SegmentIsCurrent(r, f, p)
  {
    InsertAtContains(f.diffs, p, 0, 0);
    hide SourceAt, InsertAt;
    if InsertAt(f.diffs, p).Some? {
      var i := InsertAt(f.diffs, p).value;
      assert Ranges.Overlaps(s, (i.start, i.start + |i.data|));
    }
  }

  /** Text covered by a substantive range is inserted, and the current author's. */
  lemma {:induction false} SubstantivePositions(r: Request, f: Findings, result: seq<Attribution>, lo: nat, hi: nat)
    requires ByScript(r, f, result) && InsertedRanges(f.diffs, 0, 0, |r.news|, f.substantive)
    requires CoveredBy(f.substantive, lo, hi) && hi <= |r.news|
    ensures CurrentOwns(r, f, result, lo, hi)
  {
    hide Owners, SourceAt, ByScript, CurrentOwns, SegmentIsCurrent;
    var s :| s in f.substantive && s.0 <= lo && hi <= s.1;
    assert Inserted(f.diffs, 0, 0, s.0, s.1);
    forall p: nat | lo <= p < hi ensures SegmentIsCurrent(r, f, p) {
      SubstantivePosition(r, f, s, p);
    }
    CurrentPositions(r, f, result, lo, hi);
  }

  /** The contract of `compute_diffs` for a checkpoint. */
  ghost predicate DiffsFor(r: Request, f: Findings)
    requires D.HonestDiffer(r.differ)
  {
    && DiffsComputed(r.cc, r.differ, r.olds, r.news, r.isAi, f.diffs, f.substantive)
    && DiffsAre(r.cc, r.differ, r.olds, r.news, r.isAi, f.diffs, f.substantive)
  }

  lemma {:induction false} AccountOf(r: Request, f: Findings, k: nat)
    requires D.HonestDiffer(r.differ) && DiffsFor(r, f) && k < |LineRanges(r.news)|
    ensures LineAccounted(JobFor(r), f.diffs, k, D.Counterpart(r.differ(Lines(r.olds), Lines(r.news)), k))
  {
    hide LineRanges, LineAccounted, RunsAccounted;
    assert |LineRanges(r.news)| == |Lines(r.news)|;
  }

  /** A line is equal to the old line it is paired with. */
  lemma {:induction false} PairedLine(r: Request, k: nat)
    requires D.HonestDiffer(r.differ) && k < |LineRanges(r.news)|
    ensures match D.Counterpart(r.differ(Lines(r.olds), Lines(r.news)), k)
            case Some(o) => o < |LineRanges(r.olds)| && Lines(r.olds)[o] == Lines(r.news)[k]
            case None => true
  {
    var olds, news := Lines(r.olds), Lines(r.news);
    assert |olds| == |LineRanges(r.olds)| && |news| == |LineRanges(r.news)|;
    hide Lines, LineRanges, D.Counterpart;
    assert D.ValidHunks(olds, news, r.differ(olds, news));
    D.CounterpartIsEqual(olds, news, r.differ(olds, news), k, 0);
  }

  lemma {:induction false} AiLineHolds(r: Request, f: Findings, result: seq<Attribution>, k: nat)
    requires D.HonestDiffer(r.differ) && DiffsFor(r, f) && r.isAi && f.mappings == []
    requires ByScript(r, f, result) && k < |LineRanges(r.news)|
    ensures AiLine(r, result, k)
  {
    hide DiffsFor, ByScript, AiLine, LineAccounted, LineRanges, Lines, D.HonestDiffer, D.Counterpart, JobFor;
    AccountOf(r, f, k);
    PairedLine(r, k);
    AiAccount(r, f, k, D.Counterpart(r.differ(Lines(r.olds), Lines(r.news)), k));
    match D.Counterpart(r.differ(Lines(r.olds), Lines(r.news)), k)
    case Some(o) => AiLineCopied(r, f, result, k, o);
    case None => AiLineInserted(r, f, result, k);
  }

  lemma {:induction false} AiLineCopied(r: Request, f: Findings, result: seq<Attribution>, k: nat, o: nat)
    requires f.mappings == [] && ByScript(r, f, result)
    requires k < |LineRanges(r.news)| && o < |LineRanges(r.olds)| && Lines(r.olds)[o] == Lines(r.news)[k]
    requires D.Counterpart(r.differ(Lines(r.olds), Lines(r.news)), k) == Some(o)
    requires Copied(f.diffs, 0, 0, LineRanges(r.news)[k].0, LineRanges(r.news)[k].1, LineRanges(r.olds)[o].0)
    ensures AiLine(r, result, k)
  {
    LineBounds(r.news, k);
    hide *;
    var line, src := LineRanges(r.news)[k], LineRanges(r.olds)[o].0;
    CopiedPositions(r, f, result, line.0, line.1, src);
    KeepsWithoutMoves(r, f, result, line.0, line.1, src);
    AiLineKept(r, result, k, o);
  }

  lemma {:induction false} AiLineInserted(r: Request, f: Findings, result: seq<Attribution>, k: nat)
    requires r.isAi && f.mappings == [] && ByScript(r, f, result) && k < |LineRanges(r.news)|
    requires D.Counterpart(r.differ(Lines(r.olds), Lines(r.news)), k) == None
    requires Inserted(f.diffs, 0, 0, LineRanges(r.news)[k].0, LineRanges(r.news)[k].1)
    ensures AiLine(r, result, k)
  {
    LineBounds(r.news, k);
    hide *;
    AiInserted(r, f, result, LineRanges(r.news)[k].0, LineRanges(r.news)[k].1);
    AiLineNew(r, f, result, k);
  }

  lemma {:induction false} AiAccount(r: Request, f: Findings, k: nat, source: Option<nat>)
    requires D.HonestDiffer(r.differ) && r.isAi && k < |LineRanges(r.news)|
    requires LineAccounted(JobFor(r), f.diffs, k, source)
    ensures match source
            case Some(o) => o < |LineRanges(r.olds)|
              && Copied(f.diffs, 0, 0, LineRanges(r.news)[k].0, LineRanges(r.news)[k].1, LineRanges(r.olds)[o].0)
            case None => Inserted(f.diffs, 0, 0, LineRanges(r.news)[k].0, LineRanges(r.news)[k].1)
  {
    hide D.HonestDiffer, LineRanges, Copied, Inserted, InRun, D.DiffSpec, Lines;
  }

  lemma {:induction false} AiLineKept(r: Request, result: seq<Attribution>, k: nat, o: nat)
    requires k < |LineRanges(r.news)| && o < |LineRanges(r.olds)| && Lines(r.olds)[o] == Lines(r.news)[k]
    requires D.Counterpart(r.differ(Lines(r.olds), Lines(r.news)), k) == Some(o)
    requires KeepsExactly(r, result, LineRanges(r.news)[k].0, LineRanges(r.news)[k].1, LineRanges(r.olds)[o].0)
    ensures AiLine(r, result, k)
  {
    hide LineRanges, Lines, KeepsExactly, D.Counterpart;
  }

  lemma {:induction false} AiLineNew(r: Request, f: Findings, result: seq<Attribution>, k: nat)
    requires k < |LineRanges(r.news)| && f.mappings == []
    requires D.Counterpart(r.differ(Lines(r.olds), Lines(r.news)), k) == None
    requires CurrentOwns(r, f, result, LineRanges(r.news)[k].0, LineRanges(r.news)[k].1)
    ensures AiLine(r, result, k)
  {
    NothingMoved(r, f);
    hide LineRanges, Lines, Owners, D.Counterpart, MovedTo, ByCurrent;
  }

  lemma {:induction false} KeepsWithoutMoves(r: Request, f: Findings, result: seq<Attribution>, lo: nat, hi: nat,
                                             src: nat)
    requires KeepsOwners(r, f, result, lo, hi, src) && f.mappings == []
    ensures KeepsExactly(r, result, lo, hi, src)
  {
    NothingMoved(r, f);
    hide Owners, MovedTo, ByCurrent;
    forall p: nat | lo <= p < hi ensures Owners(result, p) == Owners(r.attrs, src + (p - lo)) {
      NothingAdded(MovedTo(r, f, p), Owners(r.attrs, src + (p - lo)));
      NothingAdded(Owners(r.attrs, src + (p - lo)), MovedTo(r, f, p));
    }
  }

  lemma {:induction false} AiInserted(r: Request, f: Findings, result: seq<Attribution>, lo: nat, hi: nat)
    requires r.isAi && ByScript(r, f, result) && Inserted(f.diffs, 0, 0, lo, hi) && hi <= |r.news|
    ensures CurrentOwns(r, f, result, lo, hi)
  {
    hide Owners, SourceAt, InsertAt, ByScript, CurrentOwns, Substantive;
    assert forall p: nat | lo <= p < hi :: SegmentIsCurrent(r, f, p);
    CurrentPositions(r, f, result, lo, hi);
  }

  /** Without moves the statements about positions say what they say without them. */
  lemma {:induction false} NothingMoved(r: Request, f: Findings)
    requires f.mappings == []
    ensures forall p: nat :: MovedTo(r, f, p) == {} && ByCurrent(r, f, p) == {Current(r)}
  {
  }

  lemma {:induction false} HumanLineHolds(r: Request, f: Findings, result: seq<Attribution>, k: nat)
    requires D.HonestDiffer(r.differ) && DiffsFor(r, f) && !r.isAi
    requires ByScript(r, f, result) && k < |LineRanges(r.news)|
    ensures HumanLine(r, f, result, k)
  {
    AccountOf(r, f, k);
    var source := D.Counterpart(r.differ(Lines(r.olds), Lines(r.news)), k);
    var line := LineRanges(r.news)[k];
    LineBounds(r.news, k);
    hide DiffsFor, Owners, Lines, LineRanges, D.Counterpart, SourceAt, ByScript, KeepsOwners, InRun, LineStart;
    if source.Some? {
      CopiedPositions(r, f, result, line.0, line.1, LineRanges(r.olds)[source.value].0);
    }
  }

  lemma {:induction false} HumanTokensHold(r: Request, f: Findings, result: seq<Attribution>, h: HunkRecord)
    requires InsertedRanges(f.diffs, 0, 0, |r.news|, f.substantive) && ByScript(r, f, result)
    requires HunkAccounted(r.cc, r.differ, r.olds, r.news, h, f.diffs, 0, 0, f.substantive) && !h.lineAligned
    ensures HumanTokens(r, f, result, h)
  {
    hide Tokens, Lexemes, Owners, SourceAt, ByScript, InsertedRanges, D.Counterpart, Tokenizes, CoveredBy, Copied;
    hide KeepsOwners, CurrentOwns;
    var oldToks, newToks := Tokens(r.cc, r.olds, h.a, h.a'), Tokens(r.cc, r.news, h.b, h.b');
    TokensTokenize(r.cc, r.news, h.b, h.b');
    TokenizesOrdered(r.cc, r.news, newToks, h.b, h.b');
    var hunks := r.differ(Lexemes(oldToks), Lexemes(newToks));
    forall k | 0 <= k < |newToks| ensures HumanToken(r, f, result, oldToks, newToks[k], D.Counterpart(hunks, k)) {
      var t, source := newToks[k], D.Counterpart(hunks, k);
      assert TokenAccounted(f.diffs, 0, 0, f.substantive, oldToks, t, source);
      if source.Some? {
        CopiedPositions(r, f, result, t.start, t.end, oldToks[source.value].start);
      } else {
        SubstantivePositions(r, f, result, t.start, t.end);
      }
    }
  }

  lemma {:induction false} HumanGapsHold(r: Request, f: Findings, result: seq<Attribution>, h: HunkRecord)
    requires InsertedRanges(f.diffs, 0, 0, |r.news|, f.substantive) && ByScript(r, f, result)
    requires HunkAccounted(r.cc, r.differ, r.olds, r.news, h, f.diffs, 0, 0, f.substantive) && !h.lineAligned
    ensures HumanGaps(r, f, result, h)
  {
    var w := HunkTexts(r.cc, r.olds, h.a, h.a', r.news, h.b, h.b');
    TokensTokenize(r.cc, r.news, h.b, h.b');
    TokenizesOrdered(r.cc, r.news, w.newToks, h.b, h.b');
    var hunks := r.differ(Lexemes(w.oldToks), Lexemes(w.newToks));
    assert GapsAccounted(w, r.differ, f.diffs, 0, 0, f.substantive);
    hide Tokens, Lexemes, ByScript, InsertedRanges, Tokenizes, HunkAccounted, HumanGap, GapAccounted, PartnerBefore;
    hide RoleAt, OrderedTokens;
    forall k: nat | k <= |w.newToks|
      ensures HumanGap(r, f, result, w, k, PartnerBefore(hunks, k), RoleAt(hunks, |w.newToks|, k))
    {
      GapInside(w, k);
      HumanGapHolds(r, f, result, w, k, PartnerBefore(hunks, k), RoleAt(hunks, |w.newToks|, k));
    }
  }

  /** Old token `o` and new token `k` are partners, or the two texts start or end there. */
  ghost predicate PairsUp(r: Request, w: Work, k: nat, o: nat) {
    var hunks := r.differ(Lexemes(w.oldToks), Lexemes(w.newToks));
    && k <= |w.newToks| && o <= |w.oldToks|
    && (if k == 0 then o == 0 else o > 0 && D.Counterpart(hunks, k - 1) == Some((o - 1) as nat))
    && (if k == |w.newToks| then o == |w.oldToks| else D.Counterpart(hunks, k) == Some(o))
  }

  /** Text between two pairs of tokens that is the same on both sides keeps its owners. */
  lemma {:induction false} UnchangedGapKept(r: Request, f: Findings, result: seq<Attribution>, h: HunkRecord, k: nat,
                                            o: nat)
    requires HumanHunk(r, f, result, h) && !h.lineAligned
    requires var w := HunkTexts(r.cc, r.olds, h.a, h.a', r.news, h.b, h.b');
             && PairsUp(r, w, k, o)
             && SameText(r.olds, GapStart(w.oldToks, w.a, o), GapEnd(w.oldToks, w.a', o),
                         r.news, GapStart(w.newToks, w.b, k), GapEnd(w.newToks, w.b', k))
    ensures var w := HunkTexts(r.cc, r.olds, h.a, h.a', r.news, h.b, h.b');
            KeepsOwners(r, f, result, GapStart(w.newToks, w.b, k), GapEnd(w.newToks, w.b', k),
                        GapStart(w.oldToks, w.a, o))
  {
    var w := HunkTexts(r.cc, r.olds, h.a, h.a', r.news, h.b, h.b');
    var hunks := r.differ(Lexemes(w.oldToks), Lexemes(w.newToks));
    PairsPass(r, w, k, o);
    hide HumanTokens, HumanLines, HunkTexts, Lexemes, PairsUp, KeepsOwners, OneOwner, CurrentOwns, PassesAt;
    assert HumanGap(r, f, result, w, k, PartnerBefore(hunks, k), RoleAt(hunks, |w.newToks|, k));
  }

  lemma {:induction false} PairsPass(r: Request, w: Work, k: nat, o: nat)
    requires PairsUp(r, w, k, o)
    ensures var hunks := r.differ(Lexemes(w.oldToks), Lexemes(w.newToks));
            PassesAt(k, |w.newToks|, |w.oldToks|, PartnerBefore(hunks, k), RoleAt(hunks, |w.newToks|, k)) == Some(o)
  {
    hide Lexemes;
    var hunks := r.differ(Lexemes(w.oldToks), Lexemes(w.newToks));
    D.RoleIsCounterpart(hunks, k, 0);
    hide D.Counterpart, D.RoleOf;
  }

  lemma {:induction false} HumanGapHolds(r: Request, f: Findings, result: seq<Attribution>, w: Work, k: nat,
                                         before: Option<nat>, role: D.Role)
    requires InsertedRanges(f.diffs, 0, 0, |r.news|, f.substantive) && ByScript(r, f, result)
    requires GapAccounted(w, f.diffs, 0, 0, f.substantive, k, before, role) && w.olds == r.olds && w.news == r.news
    requires w.b <= GapStart(w.newToks, w.b, k) <= GapEnd(w.newToks, w.b', k) <= w.b' <= |r.news|
    ensures HumanGap(r, f, result, w, k, before, role)
  {
    var lo, hi := GapStart(w.newToks, w.b, k), GapEnd(w.newToks, w.b', k);
    var i := PassesAt(k, |w.newToks|, |w.oldToks|, before, role);
    hide Owners, SourceAt, InsertAt, ByScript, InsertedRanges, CoveredBy, SegmentIsCurrent, OneOwner, InSome, PassesAt;
    hide KeepsOwners, CurrentOwns, SameText;
    if i.Some? && SameText(r.olds, GapStart(w.oldToks, w.a, i.value), GapEnd(w.oldToks, w.a', i.value),
                           r.news, lo, hi) {
      CopiedPositions(r, f, result, lo, hi, GapStart(w.oldToks, w.a, i.value));
    } else {
      forall p: nat | lo <= p < hi ensures OneOwner(r, f, result, p) {
        OneOwnerHolds(r, f, result, p);
      }
      if lo == hi {
        NothingOwned(r, f, result, lo);
      } else if k < |w.newToks| && role.Continues? {
        SubstantivePositions(r, f, result, lo, hi);
      } else if '\n' in r.news[lo..hi] {
        forall p: nat | lo <= p < hi ensures SegmentIsCurrent(r, f, p) {
          NewlineSegment(r, f, p);
        }
        CurrentPositions(r, f, result, lo, hi);
      }
    }
  }

  lemma {:induction false} NothingOwned(r: Request, f: Findings, result: seq<Attribution>, p: nat)
    ensures CurrentOwns(r, f, result, p, p)
  {
  }

  lemma {:induction false} NewlineSegment(r: Request, f: Findings, p: nat)
    requires SourceAt(f.diffs, p) == None && InsertAt(f.diffs, p).Some? && '\n' in InsertAt(f.diffs, p).value.data
    ensures SegmentIsCurrent(r, f, p)
  {
    hide SourceAt, InsertAt, Substantive;
  }

  lemma {:induction false} OneOwnerHolds(r: Request, f: Findings, result: seq<Attribution>, p: nat)
    requires ByScript(r, f, result) && p < |r.news| && SourceAt(f.diffs, p, 0, 0) == None
    ensures OneOwner(r, f, result, p)
  {
    var inp := InputOf(r, f, r.attrs);
    hide Owners, SourceAt, InsertAt, MovedTo, CurrentAuthorSegment, AroundMove, InTarget;
    assert PositionByScript(r, f, result, p);
    var base: set<Owner> :| Explained(inp, f.diffs, 0, 0, p, base) && Owners(result, p) == base + MovedTo(r, f, p);
    if InTarget(inp, p) {
      TargetsAreAround(inp, p);
    } else if AroundMove(inp, p) {
      assert base == {Current(r)};
    }
  }

  lemma {:induction false} NewlinePosition(r: Request, f: Findings, h: HunkRecord, p: nat)
    requires SourceAt(f.diffs, p, 0, 0) == None && h.b <= h.b' <= |r.news|
    requires InsertAt(f.diffs, p) == Some(Insertion(h.b, h.a', r.news[h.b..h.b'])) && '\n' in r.news[h.b..h.b']
    ensures SegmentIsCurrent(r, f, p)
  {
    hide SourceAt, InsertAt, Substantive;
  }

  lemma {:induction false} HumanLinesHold(r: Request, f: Findings, result: seq<Attribution>, h: HunkRecord)
    requires InsertedRanges(f.diffs, 0, 0, |r.news|, f.substantive) && ByScript(r, f, result)
    requires HunkAccounted(r.cc, r.differ, r.olds, r.news, h, f.diffs, 0, 0, f.substantive) && h.lineAligned
    ensures HumanLines(r, f, result, h)
  {
    hide Owners, SourceAt, InsertAt, ByScript, InsertedRanges, DataIsWhitespace, CoveredBy, SegmentIsCurrent, OneOwner;
    forall p: nat | h.b <= p < h.b' ensures OneOwner(r, f, result, p) {
      OneOwnerHolds(r, f, result, p);
    }
    if '\n' in r.news[h.b..h.b'] {
      forall p: nat | h.b <= p < h.b' ensures SegmentIsCurrent(r, f, p) {
        NewlinePosition(r, f, h, p);
      }
      CurrentPositions(r, f, result, h.b, h.b');
    } else if h.b < h.b' && !DataIsWhitespace(r.cc, r.news[h.b..h.b']) {
      SubstantivePositions(r, f, result, h.b, h.b');
    }
  }

  lemma {:induction false} HumanHunksHold(r: Request, f: Findings, result: seq<Attribution>)
    requires D.HonestDiffer(r.differ) && DiffsFor(r, f) && !r.isAi && ByScript(r, f, result)
    ensures HumanHunks(r, f, result)
  {
    hide ByScript, HumanLines, HumanTokens, HumanGaps, InsertedRanges, LineAccounted, IsScript, Lines, HunkAccounted;
    hide RunHunk;
    var job := JobFor(r);
    forall s: nat, e: nat | ChangedRun(job.ops, s, e) ensures HumanHunk(r, f, result, RunHunk(job, s, e)) {
      assert RunAccounted(job, f.diffs, f.substantive, s, e, |r.news|);
      HumanHunkHolds(r, f, result, RunHunk(job, s, e));
    }
  }

  lemma {:induction false} HumanHunkHolds(r: Request, f: Findings, result: seq<Attribution>, h: HunkRecord)
    requires InsertedRanges(f.diffs, 0, 0, |r.news|, f.substantive) && ByScript(r, f, result)
    requires HunkAccounted(r.cc, r.differ, r.olds, r.news, h, f.diffs, 0, 0, f.substantive)
    ensures HumanHunk(r, f, result, h)
  {
    assert h.a <= h.a' <= |r.olds| && h.b <= h.b' <= |r.news|;
    hide ByScript, HumanLines, HumanTokens, HumanGaps, InsertedRanges, HunkAccounted;
    if h.lineAligned {
      HumanLinesHold(r, f, result, h);
    } else {
      HumanTokensHold(r, f, result, h);
      HumanGapsHold(r, f, result, h);
    }
  }

  /** The outcome of a checkpoint, position by position, line by line, and hunk by hunk. */
  ghost predicate Outcome(r: Request, f: Findings, result: seq<Attribution>)
    requires D.HonestDiffer(r.differ)
  {
    && ByScript(r, f, result)
    && (r.isAi ==> forall k | 0 <= k < |LineRanges(r.news)| :: AiLine(r, result, k))
    && (!r.isAi ==> HumanHunks(r, f, result) && forall k | 0 <= k < |LineRanges(r.news)| :: HumanLine(r, f, result, k))
  }

  lemma {:induction false} OutcomeHolds(r: Request, f: Findings, sorted: seq<Attribution>, result: seq<Attribution>)
    requires D.HonestDiffer(r.differ) && DiffsFor(r, f) && (r.isAi ==> f.mappings == [])
    requires IsRunOf(r, f, sorted, result)
    ensures Outcome(r, f, result)
  {
    assert IsScript(f.diffs, r.olds, r.news);
    hide *;
    ByScriptHolds(r, f, sorted, result);
    if r.isAi {
      forall k | 0 <= k < |LineRanges(r.news)| ensures AiLine(r, result, k) {
        AiLineHolds(r, f, result, k);
      }
    } else {
      forall k | 0 <= k < |LineRanges(r.news)| ensures HumanLine(r, f, result, k) {
        HumanLineHolds(r, f, result, k);
      }
      HumanHunksHold(r, f, result);
    }
    OutcomeIntro(r, f, result);
  }

  lemma {:induction false} ByScriptHolds(r: Request, f: Findings, sorted: seq<Attribution>, result: seq<Attribution>)
    requires IsRunOf(r, f, sorted, result) && IsScript(f.diffs, r.olds, r.news)
    ensures ByScript(r, f, result)
  {
    hide *;
    forall p: nat
      ensures p < |r.news| ==> PositionByScript(r, f, result, p)
      ensures p >= |r.news| ==> Owners(result, p) == MovedTo(r, f, p)
    {
      PositionOwners(r, f, sorted, result, p);
    }
    ByScriptIntro(r, f, result);
  }

  lemma {:induction false} ByScriptIntro(r: Request, f: Findings, result: seq<Attribution>)
    requires forall p: nat | p < |r.news| :: PositionByScript(r, f, result, p)
    requires forall p: nat | p >= |r.news| :: Owners(result, p) == MovedTo(r, f, p)
    ensures ByScript(r, f, result)
  {
  }

  lemma {:induction false} OutcomeIntro(r: Request, f: Findings, result: seq<Attribution>)
    requires D.HonestDiffer(r.differ) && ByScript(r, f, result)
    requires r.isAi ==> forall k | 0 <= k < |LineRanges(r.news)| :: AiLine(r, result, k)
    requires !r.isAi ==> HumanHunks(r, f, result)
    requires !r.isAi ==> forall k | 0 <= k < |LineRanges(r.news)| :: HumanLine(r, f, result, k)
    ensures Outcome(r, f, result)
  {
  }

  // ----- The method -----

  /** What is known of the moves of a checkpoint. */
  ghost predicate MovesFoundBy(r: Request, f: Findings, threshold: nat) {
    && (r.isAi || ShouldSkipMoveDetection(threshold, |r.olds|, |r.news|, Deletions(f.diffs), Insertions(f.diffs)) ==>
          f.mappings == [])
    && (!r.isAi && !ShouldSkipMoveDetection(threshold, |r.olds|, |r.news|, Deletions(f.diffs), Insertions(f.diffs)) ==>
          SearchGave(r, f, threshold))
    && AllMovesFit(r, Deletions(f.diffs), Insertions(f.diffs), threshold, f.mappings)
  }

  /** The moves are the byte ranges of exactly what the search finds on the lines that the edits touch. */
  ghost predicate SearchGave(r: Request, f: Findings, threshold: nat) {
    exists lms |
      FoundOn(r.cc, TextLines(r.olds), TextLines(r.news), threshold, Deletions(f.diffs), Insertions(f.diffs), lms) ::
      f.mappings == ByteMoves(lms, TextLines(r.olds), TextLines(r.news), Deletions(f.diffs), Insertions(f.diffs))
  }

  /** Each is a block of lines of the two texts, inside one deletion and one insertion; no two share a target. */
  ghost predicate AllMovesFit(r: Request, deletions: seq<Segment>, insertions: seq<Segment>, threshold: nat,
                              mappings: seq<MoveMapping>)
  {
    && (forall m | m in mappings ::
          && MappingFits(m, deletions, insertions)
          && BlockMove(r.cc, TextLines(r.olds), TextLines(r.news), threshold, deletions, insertions, m))
    && TargetsApart(mappings)
  }

  /** `update_attributions_for_checkpoint`; the ghost results are its intermediate values. */
  method UpdateAttributionsForCheckpoint(r: Request, hash: string -> nat, threshold: nat)
    returns (result: Result<seq<Attribution>, string>, ghost f: Findings, ghost sorted: seq<Attribution>)
    requires D.HonestDiffer(r.differ) && WellFormed(r.attrs)
    ensures result.Ok? && Merged(result.value)
    ensures DiffsFor(r, f) && MovesFoundBy(r, f, threshold)
    ensures IsRunOf(r, f, sorted, result.value)
    ensures OnlyKnownOwners(r, result.value)
    ensures Outcome(r, f, result.value)
    ensures ImagesEndBy(f.mappings, Insertions(f.diffs), |r.news|) ==> EndsBy(result.value, |r.news|)
  {
    hide *;
    var ordered := SortForTransform(r.attrs);
    sorted := ordered;
    var computed := ComputeDiffs(r.cc, r.differ, r.olds, r.news, r.isAi);
    // The error return of the original is never taken: the computation always succeeds.
    var deletions, insertions := BuildDiffCatalog(computed.value.diffs);
    var moveMappings: seq<MoveMapping> := [];
    ghost var lineMoves := [];
    NoMoveFits(r, deletions, insertions, threshold);
    if !r.isAi && !ShouldSkipMoveDetection(threshold, |r.olds|, |r.news|, deletions, insertions) {
      moveMappings, lineMoves := DetectMoves(r.cc, hash, threshold, r.olds, r.news, deletions, insertions);
    }
    f := Findings(computed.value.diffs, computed.value.substantive, moveMappings);
    SearchIntro(r, f, threshold, lineMoves);
    MovesIntro(r, f, threshold);
    DiffsIntro(r, f);
    FitsTransform(f.diffs, f.mappings);
    var inp := Input(r.cc, ordered, r.author, insertions, moveMappings, r.ts, computed.value.substantive, r.isAi);
    InputIsValid(r, sorted, inp);
    var transformed := TransformAttributions(inp, computed.value.diffs);
    var merged := MergeAttributions(transformed);
    RunIntro(r, f, sorted, inp, merged);
    KnownOwners(r, f, sorted, merged);
    MergeCorrect(transformed);
    OutcomeHolds(r, f, sorted, merged);
    if ImagesEndBy(f.mappings, Insertions(f.diffs), |r.news|) {
      RunInBounds(r, f, sorted, merged);
    }
    result := Ok(merged);
  }

  lemma {:induction false} NoMoveFits(r: Request, deletions: seq<Segment>, insertions: seq<Segment>, threshold: nat)
    ensures AllMovesFit(r, deletions, insertions, threshold, [])
  {
  }

  lemma {:induction false} MovesIntro(r: Request, f: Findings, threshold: nat)
    requires AllMovesFit(r, Deletions(f.diffs), Insertions(f.diffs), threshold, f.mappings)
    requires r.isAi
             || ShouldSkipMoveDetection(threshold, |r.olds|, |r.news|, Deletions(f.diffs), Insertions(f.diffs)) ==>
               f.mappings == []
    requires !r.isAi && !ShouldSkipMoveDetection(threshold, |r.olds|, |r.news|, Deletions(f.diffs), Insertions(f.diffs))
             ==> SearchGave(r, f, threshold)
    ensures MovesFoundBy(r, f, threshold)
    ensures forall m | m in f.mappings :: MappingFits(m, Deletions(f.diffs), Insertions(f.diffs))
    ensures r.isAi ==> f.mappings == []
  {
  }

  lemma {:induction false} SearchIntro(r: Request, f: Findings, threshold: nat, lms: seq<M.LineMapping>)
    requires !r.isAi && !ShouldSkipMoveDetection(threshold, |r.olds|, |r.news|, Deletions(f.diffs), Insertions(f.diffs))
             ==> threshold == 0 || Deletions(f.diffs) == [] || Insertions(f.diffs) == []
                 || FoundOn(r.cc, TextLines(r.olds), TextLines(r.news), threshold, Deletions(f.diffs),
                            Insertions(f.diffs), lms)
    requires !r.isAi && !ShouldSkipMoveDetection(threshold, |r.olds|, |r.news|, Deletions(f.diffs), Insertions(f.diffs))
             ==> f.mappings
                 == ByteMoves(lms, TextLines(r.olds), TextLines(r.news), Deletions(f.diffs), Insertions(f.diffs))
    ensures !r.isAi && !ShouldSkipMoveDetection(threshold, |r.olds|, |r.news|, Deletions(f.diffs), Insertions(f.diffs))
            ==> SearchGave(r, f, threshold)
  {
    hide FoundOn, ByteMoves, TextLines, Deletions, Insertions;
  }

  lemma {:induction false} DiffsIntro(r: Request, f: Findings)
    requires D.HonestDiffer(r.differ)
    requires DiffsComputed(r.cc, r.differ, r.olds, r.news, r.isAi, f.diffs, f.substantive)
    requires DiffsAre(r.cc, r.differ, r.olds, r.news, r.isAi, f.diffs, f.substantive)
    ensures DiffsFor(r, f) && IsScript(f.diffs, r.olds, r.news)
  {
  }

  lemma {:induction false} InputIsValid(r: Request, sorted: seq<Attribution>, inp: Input)
    requires WellFormed(r.attrs) && SortedVersion(sorted, r.attrs)
    requires inp.attrs == sorted && Separated(inp.substantive)
    requires forall m | m in inp.mappings :: m.insertionIdx < |inp.insertions|
    ensures ValidInput(inp)
  {
    SortedStarts(sorted);
    forall k | 0 <= k < |sorted| ensures sorted[k].start <= sorted[k].end {
      assert sorted[k] in r.attrs;
    }
  }

  lemma {:induction false} RunIntro(r: Request, f: Findings, sorted: seq<Attribution>, inp: Input,
                                    result: seq<Attribution>)
    requires SortedVersion(sorted, r.attrs) && ValidInput(inp)
    requires inp == Input(r.cc, sorted, r.author, Insertions(f.diffs), f.mappings, r.ts, f.substantive, r.isAi)
    requires result == MergeSpec(Run(inp, START, f.diffs).out)
    ensures IsRunOf(r, f, sorted, result)
  {
  }
}
