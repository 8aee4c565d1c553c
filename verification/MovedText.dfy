/** What a checkpoint does to text that was moved, and exactly when it does it right. */
module MovedText {
  import opened Prelude
  import opened Text
  import opened EditScript
  import opened Ranges
  import opened Attributions
  import opened Cursors
  import opened Transform
  import opened Ownership
  import opened Moves
  import opened Checkpoint
  import D = DiffOps
  import Sorting

  /** A checkpoint's findings: a script for the two texts and moves that fit it. */
  ghost predicate Fitting(r: Request, f: Findings) {
    && IsScript(f.diffs, r.olds, r.news)
    && (forall m | m in f.mappings :: MappingFits(m, Deletions(f.diffs), Insertions(f.diffs)))
    && TargetsApart(f.mappings)
  }

  lemma {:induction false} CheckpointFits(r: Request, f: Findings, threshold: nat)
    requires D.HonestDiffer(r.differ) && DiffsFor(r, f) && MovesFoundBy(r, f, threshold)
    ensures Fitting(r, f)
  {
  }

  // ----- Deletions and insertions of a script -----

  /** Insertion `i` is the first diff, or an insertion of the rest of the script. */
  lemma {:induction false} InsertionAmong(ds: seq<ByteDiff>, b: nat, i: nat)
    requires i < |Insertions(ds, b)|
    ensures ds != []
    ensures var rest, j := Insertions(ds[1..], b + |NewPart(ds[0])|), if ds[0].op.Insert? then i - 1 else i;
            if j < 0 then Insertions(ds, b)[i] == Segment(b, b + |ds[0].data|)
            else j < |rest| && Insertions(ds, b)[i] == rest[j] && b + |NewPart(ds[0])| <= rest[j].start
  {
    var rest := Insertions(ds[1..], b + |NewPart(ds[0])|);
    InsertionsApart(ds[1..], b + |NewPart(ds[0])|);
    hide NewText, Apart;
    assert forall j | 0 <= j < |rest| :: rest[j] in rest;
  }

  lemma {:induction false} InsertionInside(ds: seq<ByteDiff>, b: nat, i: nat, p: nat)
    requires i < |Insertions(ds, b)| && Within(Insertions(ds, b)[i], p)
    ensures b <= p < b + |NewText(ds)|
  {
    InsertionsApart(ds, b);
    hide Insertions, NewText, Apart;
    assert Insertions(ds, b)[i] in Insertions(ds, b);
  }

  /** Nothing is copied to inserted text. */
  lemma {:induction false} InsertedNotCopied(ds: seq<ByteDiff>, a: nat, b: nat, i: nat, p: nat)
    requires i < |Insertions(ds, b)| && Within(Insertions(ds, b)[i], p)
    ensures SourceAt(ds, p, a, b) == None
    decreases ds
  {
    InsertionAmong(ds, b, i);
    hide Insertions;
    var j := if ds[0].op.Insert? then i - 1 else i;
    if j >= 0 {
      InsertedNotCopied(ds[1..], a + |OldPart(ds[0])|, b + |NewPart(ds[0])|, j, p);
    }
  }

  lemma {:induction false} DeletionsInside(ds: seq<ByteDiff>, a: nat)
    ensures forall s | s in Deletions(ds, a) :: a <= s.start <= s.end <= a + |OldText(ds)|
    decreases ds
  {
    if ds != [] {
      assert |OldText(ds)| == |OldPart(ds[0])| + |OldText(ds[1..])|;
      DeletionsInside(ds[1..], a + |OldPart(ds[0])|);
      hide OldText;
    }
  }

  /** Nothing is copied from deleted text. */
  lemma {:induction false} DeletedNotCopied(ds: seq<ByteDiff>, a: nat, b: nat, i: nat, p: nat)
    requires i < |Deletions(ds, a)| && SourceAt(ds, p, a, b).Some?
    ensures !Within(Deletions(ds, a)[i], SourceAt(ds, p, a, b).value)
    decreases ds
  {
    SourceInside(ds, p, a, b);
    DeletionsInside(ds[1..], a + |OldPart(ds[0])|);
    SourceInside(ds[1..], p, a + |OldPart(ds[0])|, b + |NewPart(ds[0])|);
    hide OldText, NewText;
    var d, a', b' := ds[0], a + |OldPart(ds[0])|, b + |NewPart(ds[0])|;
    var rest := Deletions(ds[1..], a');
    var j := if d.op.Delete? then i - 1 else i;
    if j >= 0 {
      assert Deletions(ds, a)[i] == rest[j] && rest[j] in rest;
      if !(d.op.Equal? && b <= p < b') {
        DeletedNotCopied(ds[1..], a', b', j, p);
      }
    }
  }

  // ----- One old character -----

  /** The old position as far into the source of `m` as `p` is into its target. */
  ghost function MovedFrom(f: Findings, m: MoveMapping, p: nat): nat
    requires m.deletionIdx < |Deletions(f.diffs)| && m.insertionIdx < |Insertions(f.diffs)|
    requires TargetStart(Insertions(f.diffs), m) <= p
  {
    Deletions(f.diffs)[m.deletionIdx].start + m.sourceRange.0 + (p - TargetStart(Insertions(f.diffs), m))
  }

  /** The kept move `m` lays something over `p`. */
  ghost predicate Reaches(f: Findings, m: MoveMapping, p: nat) {
    m in f.mappings && Kept(f.mappings, m) && LandsOn(Insertions(f.diffs), m, p)
  }

  lemma {:induction false} MovedFromOld(r: Request, f: Findings, m: MoveMapping, p: nat)
    requires Fitting(r, f) && Reaches(f, m, p)
    ensures m.deletionIdx < |Deletions(f.diffs)| && Within(Deletions(f.diffs)[m.deletionIdx], MovedFrom(f, m, p))
    ensures MovedFrom(f, m, p) < |r.olds|
  {
    assert MappingFits(m, Deletions(f.diffs), Insertions(f.diffs));
    DeletionsInside(f.diffs, 0);
    assert Deletions(f.diffs)[m.deletionIdx] in Deletions(f.diffs);
    hide Deletions, Insertions, Kept, TargetsApart;
  }

  /** What moves bring, move by move. */
  lemma {:induction false} MovedToMeaning(r: Request, f: Findings, p: nat, o: Owner)
    requires Fitting(r, f)
    ensures o in MovedTo(r, f, p) <==>
              exists m | Reaches(f, m, p) ::
                m.deletionIdx < |Deletions(f.diffs)| && o in Owners(r.attrs, MovedFrom(f, m, p))
  {
    var inp, dels := InputOf(r, f, r.attrs), Deletions(f.diffs);
    forall m | m in f.mappings
      ensures m.deletionIdx < |dels|
      ensures KeptBrings(inp, dels, 0, m, p, o)
         <==> Reaches(f, m, p) && o in Owners(r.attrs, MovedFrom(f, m, p))
    {
      assert MappingFits(m, dels, Insertions(f.diffs));
    }
    hide Owners, Kept, LandsOn, Deletions, Insertions, Fitting;
    if o in MovedTo(r, f, p) {
      var m :| m in f.mappings && KeptBrings(inp, dels, 0, m, p, o);
      assert Reaches(f, m, p);
    }
    if m :| Reaches(f, m, p) && m.deletionIdx < |dels| && o in Owners(r.attrs, MovedFrom(f, m, p)) {
      assert KeptBrings(inp, dels, 0, m, p, o);
      BringsKnown(inp, m, dels[m.deletionIdx].start, p, o);
    }
  }

  // ----- Bounds -----

  /** The attribution of one old character. */
  function Mark(q: nat): seq<Attribution> {
    [Attribution(q, q + 1, "", 0)]
  }

  lemma {:induction false} MarkRuns(r: Request, f: Findings, q: nat) returns (result: seq<Attribution>)
    requires Fitting(r, f) && Separated(f.substantive)
    ensures IsRunOf(r.(attrs := Mark(q)), f, Mark(q), result)
    ensures WellFormed(Mark(q)) && Owners(Mark(q), q) == {("", 0)}
  {
    FitsTransform(f.diffs, f.mappings);
    OwnersOne(Attribution(q, q + 1, "", 0), q);
    var inp := InputOf(r, f, Mark(q));
    hide Deletions, Insertions, Run, MergeSpec, Owners;
    assert ValidInput(inp);
    result := MergeSpec(Run(inp, START, f.diffs).out);
  }

  /** Every list of old attributions gives ranges within the new text. */
  ghost predicate AlwaysInBounds(r: Request, f: Findings) {
    forall attrs, sorted, result | WellFormed(attrs) && IsRunOf(r.(attrs := attrs), f, sorted, result) ::
      EndsBy(result, |r.news|)
  }

  /**
   * The output always lies within the new text exactly if every kept move ends there when its source is laid
   * over its target.
   */
  lemma {:induction false} BoundsIff(r: Request, f: Findings)
    requires Fitting(r, f) && Separated(f.substantive)
    ensures AlwaysInBounds(r, f) <==> ImagesEndBy(f.mappings, Insertions(f.diffs), |r.news|)
  {
    if ImagesEndBy(f.mappings, Insertions(f.diffs), |r.news|) {
      forall attrs, sorted, result | WellFormed(attrs) && IsRunOf(r.(attrs := attrs), f, sorted, result)
        ensures EndsBy(result, |r.news|)
      {
        hide IsRunOf, ImagesEndBy, EndsBy;
        RunInBounds(r.(attrs := attrs), f, sorted, result);
      }
    } else {
      var m :| m in f.mappings && Kept(f.mappings, m) && m.insertionIdx < |Insertions(f.diffs)|
               && !ImageEndsBy(Insertions(f.diffs), m, |r.news|);
      hide AlwaysInBounds, ImagesEndBy;
      BeyondText(r, f, m);
    }
  }

  /** A character that a kept move lays over `p`, marked in the old text, shows at `p`. */
  lemma {:induction false} MarkLands(r: Request, f: Findings, m: MoveMapping, p: nat)
    returns (q: nat, result: seq<Attribution>)
    requires Fitting(r, f) && Separated(f.substantive) && Reaches(f, m, p)
    ensures m.deletionIdx < |Deletions(f.diffs)| && q == MovedFrom(f, m, p)
    ensures IsRunOf(r.(attrs := Mark(q)), f, Mark(q), result) && WellFormed(Mark(q))
    ensures ("", 0) in Owners(result, p)
  {
    MovedFromOld(r, f, m, p);
    hide Deletions, Insertions, Fitting, Kept, LandsOn, Reaches;
    q := MovedFrom(f, m, p);
    hide MovedFrom;
    result := MarkRuns(r, f, q);
    var r' := r.(attrs := Mark(q));
    SameTexts(r, f, r');
    RunIsScript(r', f, Mark(q), result);
    hide IsRunOf, Mark;
    MovedToMeaning(r', f, p, ("", 0));
    PositionHas(r', f, Mark(q), result, p, ("", 0));
  }

  /** What moves bring to `p` is among the owners of `p`. */
  lemma {:induction false} PositionHas(r: Request, f: Findings, sorted: seq<Attribution>, result: seq<Attribution>,
                                       p: nat, o: Owner)
    requires IsRunOf(r, f, sorted, result) && IsScript(f.diffs, r.olds, r.news) && o in MovedTo(r, f, p)
    ensures o in Owners(result, p)
  {
    hide MovedTo, Owners, IsRunOf, IsScript;
    var base := RunPosition(r, f, sorted, result, p);
  }

  /** The last character of a source that is laid beyond the new text. */
  lemma {:induction false} BeyondText(r: Request, f: Findings, m: MoveMapping)
    requires Fitting(r, f) && Separated(f.substantive)
    requires m in f.mappings && Kept(f.mappings, m) && m.insertionIdx < |Insertions(f.diffs)|
    requires !ImageEndsBy(Insertions(f.diffs), m, |r.news|)
    ensures !AlwaysInBounds(r, f)
  {
    var p := TargetStart(Insertions(f.diffs), m) + (m.sourceRange.1 - m.sourceRange.0) - 1;
    assert Reaches(f, m, p);
    hide Deletions, Insertions, Fitting, Kept, LandsOn, ImageEndsBy, IsRunOf, Reaches, MovedFrom, Mark, Owners;
    var q, result := MarkLands(r, f, m, p);
    OwnersBeyond(result, |r.news|, p);
  }

  lemma {:induction false} SameTexts(r: Request, f: Findings, r': Request)
    requires Fitting(r, f) && r'.olds == r.olds && r'.news == r.news
    ensures Fitting(r', f)
  {
  }

  lemma {:induction false} RunIsScript(r: Request, f: Findings, sorted: seq<Attribution>, result: seq<Attribution>)
    requires Fitting(r, f) && IsRunOf(r, f, sorted, result)
    ensures IsScript(f.diffs, r.olds, r.news)
  {
  }

  lemma {:induction false} OwnersBeyond(result: seq<Attribution>, n: nat, p: nat)
    requires Owners(result, p) != {} && n <= p
    ensures !EndsBy(result, n)
  {
  }

  // ----- Copied text -----

  /** Copied positions have exactly their old owners. */
  ghost predicate CopiesExact(r: Request, f: Findings, result: seq<Attribution>) {
    forall p: nat | p < |r.news| && SourceAt(f.diffs, p).Some? ::
      Owners(result, p) == Owners(r.attrs, SourceAt(f.diffs, p).value)
  }

  ghost predicate AlwaysCopiesExact(r: Request, f: Findings) {
    forall attrs, sorted, result | WellFormed(attrs) && IsRunOf(r.(attrs := attrs), f, sorted, result) ::
      CopiesExact(r.(attrs := attrs), f, result)
  }

  /** No kept move lays its source over copied text. */
  ghost predicate ImagesAvoidCopies(r: Request, f: Findings) {
    forall m, p: nat | Reaches(f, m, p) && p < |r.news| :: SourceAt(f.diffs, p).None?
  }

  lemma {:induction false} NothingReaches(r: Request, f: Findings, p: nat)
    requires Fitting(r, f) && forall m :: !Reaches(f, m, p)
    ensures MovedTo(r, f, p) == {}
  {
    hide Fitting, MovedTo, Reaches;
    forall o ensures o !in MovedTo(r, f, p) {
      MovedToMeaning(r, f, p, o);
    }
  }

  lemma {:induction false} CopiedAlone(r: Request, f: Findings, result: seq<Attribution>, p: nat)
    requires Fitting(r, f) && ByScript(r, f, result) && p < |r.news| && SourceAt(f.diffs, p).Some?
    requires forall m :: !Reaches(f, m, p)
    ensures Owners(result, p) == Owners(r.attrs, SourceAt(f.diffs, p).value)
  {
    NothingReaches(r, f, p);
    assert PositionByScript(r, f, result, p);
    hide ByScript, Fitting, MovedTo, Owners, SourceAt, InputOf;
    var base: set<Owner> :| Explained(InputOf(r, f, r.attrs), f.diffs, 0, 0, p, base)
                            && Owners(result, p) == base + MovedTo(r, f, p);
    NothingAdded(base, MovedTo(r, f, p));
    ExplainedCopy(InputOf(r, f, r.attrs), f.diffs, p, base);
    InputAttrs(r, f);
  }

  lemma {:induction false} ExplainedCopy(inp: Input, ds: seq<ByteDiff>, p: nat, base: set<Owner>)
    requires Explained(inp, ds, 0, 0, p, base) && SourceAt(ds, p).Some?
    ensures base == Owners(inp.attrs, SourceAt(ds, p).value)
  {
    hide Owners, SourceAt;
  }

  lemma {:induction false} InputAttrs(r: Request, f: Findings)
    ensures InputOf(r, f, r.attrs).attrs == r.attrs
  {
  }

  /** The marked character is not one that is copied to `p`. */
  lemma {:induction false} MarkIsElsewhere(r: Request, f: Findings, m: MoveMapping, p: nat)
    requires Fitting(r, f) && Reaches(f, m, p) && SourceAt(f.diffs, p).Some?
    ensures m.deletionIdx < |Deletions(f.diffs)|
    ensures Owners(Mark(MovedFrom(f, m, p)), SourceAt(f.diffs, p).value) == {}
  {
    MovedFromOld(r, f, m, p);
    DeletedNotCopied(f.diffs, 0, 0, m.deletionIdx, p);
    hide Deletions, Insertions, Fitting, Kept, SourceAt;
    var q := MovedFrom(f, m, p);
    OwnersOne(Attribution(q, q + 1, "", 0), SourceAt(f.diffs, p).value);
  }

  /** Copied text always has exactly its old owners exactly if no kept move lays its source over copied text. */
  lemma {:induction false} CopiedIff(r: Request, f: Findings)
    requires Fitting(r, f) && Separated(f.substantive)
    ensures AlwaysCopiesExact(r, f) <==> ImagesAvoidCopies(r, f)
  {
    hide Fitting, IsRunOf, Reaches, Owners, SourceAt, Mark, MovedFrom, ByScript, IsScript;
    if ImagesAvoidCopies(r, f) {
      forall attrs, sorted, result, p: nat | IsRunOf(r.(attrs := attrs), f, sorted, result)
                                             && p < |r.news| && SourceAt(f.diffs, p).Some?
        ensures Owners(result, p) == Owners(attrs, SourceAt(f.diffs, p).value)
      {
        SameTexts(r, f, r.(attrs := attrs));
        RunIsScript(r.(attrs := attrs), f, sorted, result);
        ByScriptHolds(r.(attrs := attrs), f, sorted, result);
        CopiedAlone(r.(attrs := attrs), f, result, p);
      }
    } else {
      var m, p: nat :| Reaches(f, m, p) && p < |r.news| && !SourceAt(f.diffs, p).None?;
      var q, result := MarkLands(r, f, m, p);
      MarkIsElsewhere(r, f, m, p);
      assert !CopiesExact(r.(attrs := Mark(q)), f, result);
    }
  }

  // ----- Coverage -----

  ghost predicate FullyAttributed(attrs: seq<Attribution>, n: nat) {
    forall p: nat | p < n :: Owners(attrs, p) != {}
  }

  /** A kept move lays something over every position of every target. */
  ghost predicate TargetsFilled(r: Request, f: Findings) {
    forall p: nat | p < |r.news| && InTarget(InputOf(r, f, r.attrs), p) :: exists m :: Reaches(f, m, p)
  }

  lemma {:induction false} ReachedIsOwned(r: Request, f: Findings, m: MoveMapping, p: nat)
    requires Fitting(r, f) && FullyAttributed(r.attrs, |r.olds|) && Reaches(f, m, p)
    ensures MovedTo(r, f, p) != {}
  {
    MovedFromOld(r, f, m, p);
    hide Fitting, Reaches, MovedTo, Owners, Deletions, Insertions, MovedFrom;
    assert Owners(r.attrs, MovedFrom(f, m, p)) != {};
    var o :| o in Owners(r.attrs, MovedFrom(f, m, p));
    MovedToMeaning(r, f, p, o);
  }

  lemma {:induction false} BaseIsOwned(r: Request, f: Findings, p: nat, base: set<Owner>)
    requires FullyAttributed(r.attrs, |r.olds|) && IsScript(f.diffs, r.olds, r.news)
    requires Explained(InputOf(r, f, r.attrs), f.diffs, 0, 0, p, base)
    ensures base == {} <==> SourceAt(f.diffs, p) == None && InTarget(InputOf(r, f, r.attrs), p)
  {
    SourceInside(f.diffs, p, 0, 0);
    var inp := InputOf(r, f, r.attrs);
    hide SourceAt, InsertAt, Owners, AroundMove, InTarget;
    if InTarget(inp, p) {
      TargetsAreAround(inp, p);
    }
  }

  lemma {:induction false} TargetNotCopied(r: Request, f: Findings, p: nat)
    requires InTarget(InputOf(r, f, r.attrs), p)
    ensures SourceAt(f.diffs, p) == None
  {
    hide Insertions, SourceAt;
    var m :| m in f.mappings && IsTarget(Insertions(f.diffs), m, p);
    InsertedNotCopied(f.diffs, 0, 0, m.insertionIdx, p);
  }

  /** One position of a fully attributed text. */
  lemma {:induction false} OwnedIff(r: Request, f: Findings, result: seq<Attribution>, p: nat)
    requires Fitting(r, f) && ByScript(r, f, result) && FullyAttributed(r.attrs, |r.olds|) && p < |r.news|
    ensures Owners(result, p) != {}
       <==> (InTarget(InputOf(r, f, r.attrs), p) ==> exists m :: Reaches(f, m, p))
  {
    assert PositionByScript(r, f, result, p) && IsScript(f.diffs, r.olds, r.news);
    var inp := InputOf(r, f, r.attrs);
    hide Fitting, ByScript, FullyAttributed, Explained, MovedTo, Owners, InTarget, Reaches, InputOf, IsScript;
    var base: set<Owner> :| Explained(inp, f.diffs, 0, 0, p, base) && Owners(result, p) == base + MovedTo(r, f, p);
    BaseIsOwned(r, f, p, base);
    NothingAdded(base, MovedTo(r, f, p));
    if InTarget(inp, p) {
      TargetNotCopied(r, f, p);
    }
    if m :| Reaches(f, m, p) {
      ReachedIsOwned(r, f, m, p);
    } else {
      NothingReaches(r, f, p);
    }
  }

  /** A fully attributed text stays fully attributed exactly if the kept moves fill every target. */
  lemma {:induction false} CoverageIff(r: Request, f: Findings, result: seq<Attribution>)
    requires Fitting(r, f) && ByScript(r, f, result) && FullyAttributed(r.attrs, |r.olds|)
    ensures FullyAttributed(result, |r.news|) <==> TargetsFilled(r, f)
  {
    hide Fitting, ByScript, Owners, InTarget, Reaches, InputOf;
    assert FullyAttributed(r.attrs, |r.olds|) by {}
    forall p: nat | p < |r.news|
      ensures Owners(result, p) != {} <==> (InTarget(InputOf(r, f, r.attrs), p) ==> exists m :: Reaches(f, m, p))
    {
      OwnedIff(r, f, result, p);
    }
  }

  /** Without moves there is nothing to fill: a fully attributed text stays fully attributed. */
  lemma {:induction false} CoverageIsKept(r: Request, f: Findings, result: seq<Attribution>)
    requires IsScript(f.diffs, r.olds, r.news) && f.mappings == [] && ByScript(r, f, result)
    requires FullyAttributed(r.attrs, |r.olds|)
    ensures FullyAttributed(result, |r.news|)
  {
    assert Fitting(r, f) && TargetsFilled(r, f);
    hide Fitting, TargetsFilled, ByScript, FullyAttributed;
    CoverageIff(r, f, result);
  }

  // ----- Moved text keeps its owners -----

  /** Every source is as long as its target. */
  ghost predicate SameSizes(f: Findings) {
    forall m | m in f.mappings :: m.targetRange.1 - m.targetRange.0 == m.sourceRange.1 - m.sourceRange.0
  }

  /** The duplicate test drops no move. */
  ghost predicate NoneDropped(f: Findings) {
    forall m | m in f.mappings :: Kept(f.mappings, m)
  }

  ghost predicate MovesIntact(f: Findings) {
    SameSizes(f) && NoneDropped(f)
  }

  /** Then a kept move reaches exactly its target. */
  lemma {:induction false} SameSizeReach(r: Request, f: Findings, m: MoveMapping, p: nat)
    requires Fitting(r, f) && SameSizes(f)
    ensures Reaches(f, m, p) <==> m in f.mappings && Kept(f.mappings, m) && IsTarget(Insertions(f.diffs), m, p)
  {
    hide Deletions, Insertions, TargetsApart, Kept;
    if m in f.mappings {
      assert MappingFits(m, Deletions(f.diffs), Insertions(f.diffs));
    }
  }

  /** A position lies in the target of one move only. */
  lemma {:induction false} OneTarget(r: Request, f: Findings, m: MoveMapping, m': MoveMapping, p: nat)
    requires Fitting(r, f) && m in f.mappings && m' in f.mappings
    requires IsTarget(Insertions(f.diffs), m, p) && IsTarget(Insertions(f.diffs), m', p)
    ensures m == m'
  {
    InsertionsApart(f.diffs, 0);
    hide Deletions, Insertions;
    var i :| 0 <= i < |f.mappings| && f.mappings[i] == m;
    var j :| 0 <= j < |f.mappings| && f.mappings[j] == m';
    assert m.insertionIdx == m'.insertionIdx;
  }

  lemma {:induction false} TargetOwners(r: Request, f: Findings, result: seq<Attribution>, m: MoveMapping, p: nat)
    requires Fitting(r, f) && MovesIntact(f) && ByScript(r, f, result)
    requires m in f.mappings && IsTarget(Insertions(f.diffs), m, p)
    ensures Reaches(f, m, p) && m.deletionIdx < |Deletions(f.diffs)|
    ensures MovedTo(r, f, p) == Owners(r.attrs, MovedFrom(f, m, p))
  {
    SameSizeReach(r, f, m, p);
    MovedFromOld(r, f, m, p);
    hide MovedTo, Owners, MovedFrom, IsTarget, Deletions, Insertions, Fitting, MovesIntact, Reaches, ByScript;
    forall o ensures o in MovedTo(r, f, p) <==> o in Owners(r.attrs, MovedFrom(f, m, p)) {
      MovedToMeaning(r, f, p, o);
      forall m' | Reaches(f, m', p) ensures m' == m {
        SameSizeReach(r, f, m', p);
        OneTarget(r, f, m, m', p);
      }
    }
  }

  lemma {:induction false} TargetKeepsOwners(r: Request, f: Findings, result: seq<Attribution>, m: MoveMapping, p: nat)
    requires Fitting(r, f) && MovesIntact(f) && ByScript(r, f, result)
    requires m in f.mappings && IsTarget(Insertions(f.diffs), m, p)
    ensures Reaches(f, m, p) && m.deletionIdx < |Deletions(f.diffs)|
    ensures Owners(result, p) == Owners(r.attrs, MovedFrom(f, m, p))
  {
    TargetOwners(r, f, result, m, p);
    InsertionInside(f.diffs, 0, m.insertionIdx, p);
    assert InTarget(InputOf(r, f, r.attrs), p) && p < |r.news|;
    TargetNotCopied(r, f, p);
    TargetsAreAround(InputOf(r, f, r.attrs), p);
    assert PositionByScript(r, f, result, p);
    hide Fitting, MovesIntact, ByScript, MovedTo, Owners, MovedFrom, InTarget, AroundMove, SourceAt, InsertAt;
    hide Reaches, IsTarget, Deletions, Insertions;
    var base: set<Owner> :| Explained(InputOf(r, f, r.attrs), f.diffs, 0, 0, p, base)
                            && Owners(result, p) == base + MovedTo(r, f, p);
    NothingAdded(base, MovedTo(r, f, p));
  }

  /** Then the three conditions above are met. */
  lemma {:induction false} IntactMovesFit(r: Request, f: Findings)
    requires Fitting(r, f) && MovesIntact(f)
    ensures ImagesEndBy(f.mappings, Insertions(f.diffs), |r.news|)
    ensures ImagesAvoidCopies(r, f) && TargetsFilled(r, f)
  {
    var ins := Insertions(f.diffs);
    hide Insertions, Fitting, Reaches, IsTarget, Kept, TargetsFilled;
    forall m | m in f.mappings && m.insertionIdx < |ins| ensures ImageEndsBy(ins, m, |r.news|) {
      IntactImage(r, f, m);
    }
    forall m, p: nat | Reaches(f, m, p) && p < |r.news| ensures SourceAt(f.diffs, p).None? {
      SameSizeReach(r, f, m, p);
      assert InTarget(InputOf(r, f, r.attrs), p);
      TargetNotCopied(r, f, p);
    }
    FilledIff(r, f);
  }

  /** With sources as long as their targets, the targets are filled exactly if the duplicate test drops no move. */
  lemma {:induction false} FilledIff(r: Request, f: Findings)
    requires Fitting(r, f) && SameSizes(f)
    ensures TargetsFilled(r, f) <==> NoneDropped(f)
  {
    var ins := Insertions(f.diffs);
    hide Insertions, Reaches, IsTarget, Kept, SameSizes;
    if NoneDropped(f) {
      forall p: nat | p < |r.news| && InTarget(InputOf(r, f, r.attrs), p) ensures exists m :: Reaches(f, m, p) {
        var m :| m in f.mappings && IsTarget(ins, m, p);
        SameSizeReach(r, f, m, p);
      }
    } else {
      var m :| m in f.mappings && !Kept(f.mappings, m);
      var p := TargetOf(r, f, m);
      forall m' ensures !Reaches(f, m', p) {
        DroppedReach(r, f, m, m', p);
      }
      assert InTarget(InputOf(r, f, r.attrs), p);
    }
  }

  /** The first position of a target. */
  lemma {:induction false} TargetOf(r: Request, f: Findings, m: MoveMapping) returns (p: nat)
    requires Fitting(r, f) && m in f.mappings
    ensures IsTarget(Insertions(f.diffs), m, p) && p < |r.news|
  {
    assert MappingFits(m, Deletions(f.diffs), Insertions(f.diffs));
    p := Insertions(f.diffs)[m.insertionIdx].start + m.targetRange.0;
    InsertionInside(f.diffs, 0, m.insertionIdx, p);
    hide Insertions, Deletions;
  }

  lemma {:induction false} DroppedReach(r: Request, f: Findings, m: MoveMapping, m': MoveMapping, p: nat)
    requires Fitting(r, f) && SameSizes(f) && m in f.mappings && !Kept(f.mappings, m)
    requires IsTarget(Insertions(f.diffs), m, p)
    ensures !Reaches(f, m', p)
  {
    SameSizeReach(r, f, m', p);
    hide Insertions, Reaches, IsTarget, Kept, SameSizes, Fitting;
    if m' in f.mappings && IsTarget(Insertions(f.diffs), m', p) {
      OneTarget(r, f, m, m', p);
    }
  }

  lemma {:induction false} IntactImage(r: Request, f: Findings, m: MoveMapping)
    requires Fitting(r, f) && MovesIntact(f) && m in f.mappings && m.insertionIdx < |Insertions(f.diffs)|
    ensures ImageEndsBy(Insertions(f.diffs), m, |r.news|)
  {
    InsertionsApart(f.diffs, 0);
    assert MappingFits(m, Deletions(f.diffs), Insertions(f.diffs));
    assert Insertions(f.diffs)[m.insertionIdx] in Insertions(f.diffs);
    hide Insertions, Deletions, TargetsApart, Apart;
  }

  /** Every target has the owners of its source, position by position. */
  ghost predicate TargetsExact(r: Request, f: Findings, result: seq<Attribution>) {
    forall m, p: nat | m in f.mappings && IsTarget(Insertions(f.diffs), m, p) :: TargetExact(r, f, result, m, p)
  }

  ghost predicate TargetExact(r: Request, f: Findings, result: seq<Attribution>, m: MoveMapping, p: nat)
    requires IsTarget(Insertions(f.diffs), m, p)
  {
    m.deletionIdx < |Deletions(f.diffs)| && Owners(result, p) == Owners(r.attrs, MovedFrom(f, m, p))
  }

  /**
   * Moves that are as long as their targets and not dropped do what they are for: every target has exactly the
   * owners of its source, copied text exactly its own, no range leaves the new text, and full attribution is kept.
   */
  lemma {:induction false} MovedTextKeepsOwners(r: Request, f: Findings, sorted: seq<Attribution>,
                                                result: seq<Attribution>)
    requires Fitting(r, f) && MovesIntact(f) && IsRunOf(r, f, sorted, result)
    ensures TargetsExact(r, f, result) && CopiesExact(r, f, result) && EndsBy(result, |r.news|)
    ensures FullyAttributed(r.attrs, |r.olds|) ==> FullyAttributed(result, |r.news|)
  {
    RunIsScript(r, f, sorted, result);
    IntactMovesFit(r, f);
    hide Fitting, MovesIntact, IsRunOf, ByScript, Reaches, IsTarget, Owners, SourceAt, MovedFrom, IsScript, ImagesEndBy;
    hide EndsBy, FullyAttributed, TargetsFilled;
    ByScriptHolds(r, f, sorted, result);
    RunInBounds(r, f, sorted, result);
    forall m, p: nat | m in f.mappings && IsTarget(Insertions(f.diffs), m, p) ensures TargetExact(r, f, result, m, p) {
      TargetKeepsOwners(r, f, result, m, p);
    }
    forall p: nat | p < |r.news| && SourceAt(f.diffs, p).Some?
      ensures Owners(result, p) == Owners(r.attrs, SourceAt(f.diffs, p).value)
    {
      CopiedAlone(r, f, result, p);
    }
    if FullyAttributed(r.attrs, |r.olds|) {
      CoverageIff(r, f, result);
    }
  }
}
