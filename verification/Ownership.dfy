/** What the transformation does to the owners of each position. */
module Ownership {
  import opened Prelude
  import opened EditScript
  import opened Ranges
  import opened Attributions
  import opened Cursors
  import opened Transform
  import Sorting

  // ----- Owners are never invented -----

  ghost predicate Known(inp: Input, owner: Owner) {
    owner == (inp.author, inp.ts) || exists a | a in inp.attrs :: OwnerOf(a) == owner
  }

  ghost predicate AllKnown(inp: Input, out: seq<Attribution>) {
    forall a | a in out :: Known(inp, OwnerOf(a))
  }

  lemma {:induction false} MovesKnown(inp: Input, moves: seq<MoveMapping>, oldPos: nat)
    requires forall m | m in moves :: m.insertionIdx < |inp.insertions|
    ensures AllKnown(inp, CopyMoves(inp, moves, oldPos))
  {
    if moves != [] {
      var m := moves[|moves| - 1];
      MovesKnown(inp, moves[..|moves| - 1], oldPos);
      if m.sourceRange.0 < m.sourceRange.1 {
        CopyEntries(inp.attrs, 0, |inp.attrs|, oldPos + m.sourceRange.0, oldPos + m.sourceRange.1,
                    inp.insertions[m.insertionIdx].start + m.targetRange.0);
      }
    }
  }

  lemma {:induction false} GapsKnown(inp: Input, targets: seq<Range>, cursor: nat, len: nat, newPos: nat)
    ensures AllKnown(inp, FillGaps(targets, cursor, len, newPos, inp.author, inp.ts))
    decreases targets
  {
    if targets != [] {
      GapsKnown(inp, targets[1..], Max(cursor, Min(targets[0].1, len)), len, newPos);
    }
  }

  lemma {:induction false} OwnerKnown(inp: Input, st: State, data: string)
    requires ValidInput(inp) && AllKnown(inp, st.out)
    ensures Known(inp, InsertOwner(inp, st, data))
  {
    FindIsOld(inp.attrs, st.oldPos);
  }

  lemma {:induction false} AddedKnown(inp: Input, st: State, d: ByteDiff)
    requires ValidInput(inp) && AllKnown(inp, st.out)
    ensures AllKnown(inp, Added(inp, st, d))
  {
    match d.op
    case Equal =>
      CopyEntries(inp.attrs, 0, |inp.attrs|, st.oldPos, st.oldPos + |d.data|, st.newPos);
    case Delete =>
      MovesAreMappings(inp.mappings, st.deletionIdx);
      hide CopyMoves, MovesOf;
      MovesKnown(inp, MovesOf(inp.mappings, st.deletionIdx), st.oldPos);
    case Insert =>
      OwnerKnown(inp, st, d.data);
      hide InsertOwner, FillGaps, TargetsOf;
      GapsKnown(inp, MergeFrom([], Sorting.Sort(TargetsOf(inp.mappings, st.insertionIdx), StartLe)), 0, |d.data|,
                st.newPos);
  }

  /** With or without moves, every output range belongs to the current author or to an old owner. */
  lemma {:induction false} NoInventedOwner(inp: Input, st: State, ds: seq<ByteDiff>)
    requires ValidInput(inp) && AllKnown(inp, st.out)
    ensures AllKnown(inp, Run(inp, st, ds).out)
    decreases ds
  {
    if ds != [] {
      AddedKnown(inp, st, ds[0]);
      hide Added;
      NoInventedOwner(inp, Step(inp, st, ds[0]), ds[1..]);
    }
  }

  // ----- What the moves bring -----

  /** Where the first character of the source of `m` lands. */
  function TargetStart(insertions: seq<Segment>, m: MoveMapping): nat
    requires m.insertionIdx < |insertions|
  {
    insertions[m.insertionIdx].start + m.targetRange.0
  }

  /** The source of `m` is laid over new position `p`: from its target's start on, over the length of the source. */
  predicate LandsOn(insertions: seq<Segment>, m: MoveMapping, p: nat) {
    && m.insertionIdx < |insertions|
    && TargetStart(insertions, m) <= p
    && m.sourceRange.0 + (p - TargetStart(insertions, m)) < m.sourceRange.1
  }

  /** The position in the deletion whose character `m` lays over `p`. */
  function SourceOffset(insertions: seq<Segment>, m: MoveMapping, p: nat): nat
    requires LandsOn(insertions, m, p)
  {
    m.sourceRange.0 + (p - TargetStart(insertions, m))
  }

  ghost function AllOwners(attrs: seq<Attribution>): set<Owner> {
    set a | a in attrs :: OwnerOf(a)
  }

  /** From a deletion that starts at `oldPos`, move `m` brings owner `o` to `p`. */
  ghost predicate Brings(inp: Input, m: MoveMapping, oldPos: nat, p: nat, o: Owner) {
    LandsOn(inp.insertions, m, p) && o in Owners(inp.attrs, oldPos + SourceOffset(inp.insertions, m, p))
  }

  /** The owners that the moves out of one deletion bring to `p`. */
  ghost function BroughtBy(inp: Input, moves: seq<MoveMapping>, oldPos: nat, p: nat): set<Owner> {
    set o | o in AllOwners(inp.attrs) && exists m | m in moves :: Brings(inp, m, oldPos, p, o)
  }

  /** The duplicate test lets `m` through. */
  ghost predicate Kept(mappings: seq<MoveMapping>, m: MoveMapping) {
    m in MovesFound(mappings, m.deletionIdx)
  }

  /** The kept move `m`, out of one of the deletions from number `d` on, brings owner `o` to `p`. */
  ghost predicate KeptBrings(inp: Input, deletions: seq<Segment>, d: nat, m: MoveMapping, p: nat, o: Owner) {
    && Kept(inp.mappings, m) && d <= m.deletionIdx < |deletions|
    && Brings(inp, m, deletions[m.deletionIdx].start, p, o)
  }

  /** The owners that the moves out of the deletions from number `d` on bring to `p`. */
  ghost function Moved(inp: Input, deletions: seq<Segment>, d: nat, p: nat): set<Owner> {
    set o | o in AllOwners(inp.attrs) && exists m | m in inp.mappings :: KeptBrings(inp, deletions, d, m, p, o)
  }

  lemma {:induction false} BringsKnown(inp: Input, m: MoveMapping, oldPos: nat, p: nat, o: Owner)
    requires Brings(inp, m, oldPos, p, o)
    ensures o in AllOwners(inp.attrs)
  {
  }

  lemma {:induction false} BroughtByOne(inp: Input, m: MoveMapping, oldPos: nat, p: nat, o: Owner)
    ensures o in BroughtBy(inp, [m], oldPos, p) <==> Brings(inp, m, oldPos, p, o)
  {
    if Brings(inp, m, oldPos, p, o) {
      BringsKnown(inp, m, oldPos, p, o);
    }
    hide Brings, AllOwners;
    assert forall x :: x in [m] <==> x == m;
  }

  lemma {:induction false} CopyMoveOwners(inp: Input, m: MoveMapping, oldPos: nat, p: nat)
    requires m.insertionIdx < |inp.insertions|
    ensures Owners(CopyMove(inp, m, oldPos), p) == BroughtBy(inp, [m], oldPos, p)
  {
    forall o ensures o in BroughtBy(inp, [m], oldPos, p) <==> Brings(inp, m, oldPos, p, o) {
      BroughtByOne(inp, m, oldPos, p, o);
    }
    hide Owners, BroughtBy;
    if m.sourceRange.0 < m.sourceRange.1 {
      CopyOwners(inp.attrs, oldPos + m.sourceRange.0, oldPos + m.sourceRange.1, TargetStart(inp.insertions, m), p);
    } else {
      NobodyOwns(p);
    }
  }

  lemma {:induction false} NobodyOwns(p: nat)
    ensures Owners([], p) == {}
  {
  }

  lemma {:induction false} BroughtAppend(inp: Input, x: seq<MoveMapping>, y: seq<MoveMapping>, oldPos: nat, p: nat)
    ensures BroughtBy(inp, x + y, oldPos, p) == BroughtBy(inp, x, oldPos, p) + BroughtBy(inp, y, oldPos, p)
  {
    hide Brings, AllOwners;
  }

  /** The copies of the moves bring exactly these owners. */
  lemma {:induction false} CopyMovesOwners(inp: Input, moves: seq<MoveMapping>, oldPos: nat, p: nat)
    requires forall m | m in moves :: m.insertionIdx < |inp.insertions|
    ensures Owners(CopyMoves(inp, moves, oldPos), p) == BroughtBy(inp, moves, oldPos, p)
  {
    if moves == [] {
      NobodyOwns(p);
    } else {
      var front, m := moves[..|moves| - 1], moves[|moves| - 1];
      assert moves == front + [m];
      CopyMovesOwners(inp, front, oldPos, p);
      CopyMoveOwners(inp, m, oldPos, p);
      OwnersAppend(CopyMoves(inp, front, oldPos), CopyMove(inp, m, oldPos), p);
      BroughtAppend(inp, front, [m], oldPos, p);
      hide Owners, BroughtBy, CopyMove;
    }
  }

  lemma {:induction false} BroughtBySort(inp: Input, d: nat, oldPos: nat, p: nat)
    ensures BroughtBy(inp, MovesOf(inp.mappings, d), oldPos, p)
         == BroughtBy(inp, MovesFound(inp.mappings, d), oldPos, p)
  {
    Sorting.SortMembers(MovesFound(inp.mappings, d), SourceLe);
    hide Brings, AllOwners, MovesFound;
  }

  /** The moves out of deletion `d` and those out of the later ones. */
  lemma {:induction false} MovedSplit(inp: Input, deletions: seq<Segment>, d: nat, p: nat)
    requires d < |deletions|
    ensures Moved(inp, deletions, d, p)
         == BroughtBy(inp, MovesOf(inp.mappings, d), deletions[d].start, p) + Moved(inp, deletions, d + 1, p)
  {
    BroughtBySort(inp, d, deletions[d].start, p);
    FoundAreMappings(inp.mappings, d);
    hide Brings, AllOwners, MovesFound, MovesOf;
  }

  // ----- What the insertions bring -----

  /** The deletions and insertions still to come are those of the rest of the script. */
  ghost predicate Aligned(inp: Input, deletions: seq<Segment>, st: State, ds: seq<ByteDiff>) {
    && st.deletionIdx <= |deletions| && deletions[st.deletionIdx..] == Deletions(ds, st.oldPos)
    && st.insertionIdx <= |inp.insertions| && inp.insertions[st.insertionIdx..] == Insertions(ds, st.newPos)
  }

  /** No two insertions share a character. */
  ghost predicate Apart(segments: seq<Segment>) {
    forall i, j | 0 <= i < j < |segments| :: segments[i].end <= segments[j].start
  }

  lemma {:induction false} InsertionsApart(ds: seq<ByteDiff>, newPos: nat)
    ensures Apart(Insertions(ds, newPos))
    ensures forall s | s in Insertions(ds, newPos) :: newPos <= s.start && s.end <= newPos + |NewText(ds)|
    decreases ds
  {
    if ds != [] {
      var n := |ds[0].data|;
      assert |NewText(ds)| == |NewPart(ds[0])| + |NewText(ds[1..])|;
      InsertionsApart(ds[1..], newPos + |NewPart(ds[0])|);
      hide Apart, NewText;
      if ds[0].op.Insert? {
        InsertionsCons(Segment(newPos, newPos + n), Insertions(ds[1..], newPos + n));
      }
    }
  }

  lemma {:induction false} InsertionsCons(s: Segment, rest: seq<Segment>)
    requires Apart(rest) && forall r | r in rest :: s.end <= r.start
    ensures Apart([s] + rest)
  {
    var all := [s] + rest;
    forall i, j | 0 <= i < j < |all| ensures all[i].end <= all[j].start {
      assert all[j] == rest[j - 1] && rest[j - 1] in rest;
      assert i > 0 ==> all[i] == rest[i - 1];
    }
  }

  predicate Within(s: Segment, p: nat) {
    s.start <= p < s.end
  }

  /** Position `p` is written by an insertion that some move goes into. */
  ghost predicate AroundMove(inp: Input, p: nat) {
    exists m | m in inp.mappings :: m.insertionIdx < |inp.insertions| && Within(inp.insertions[m.insertionIdx], p)
  }

  /** Position `p` lies in the target of a move. */
  ghost predicate InTarget(inp: Input, p: nat) {
    exists m | m in inp.mappings :: IsTarget(inp.insertions, m, p)
  }

  predicate IsTarget(insertions: seq<Segment>, m: MoveMapping, p: nat) {
    && m.insertionIdx < |insertions| && Within(insertions[m.insertionIdx], p)
    && Contains(m.targetRange, p - insertions[m.insertionIdx].start)
  }

  lemma {:induction false} TargetMembers(mappings: seq<MoveMapping>, i: nat)
    ensures forall m | m in mappings && m.insertionIdx == i :: m.targetRange in TargetsOf(mappings, i)
    ensures forall t | t in TargetsOf(mappings, i) ::
              exists m | m in mappings :: m.insertionIdx == i && m.targetRange == t
  {
    if mappings != [] {
      var front, last := mappings[..|mappings| - 1], mappings[|mappings| - 1];
      assert mappings == front + [last];
      TargetMembers(front, i);
      forall t | t in TargetsOf(mappings, i)
        ensures exists m | m in mappings :: m.insertionIdx == i && m.targetRange == t
      {
        if t in TargetsOf(front, i) {
          var m :| m in front && m.insertionIdx == i && m.targetRange == t;
          assert m in mappings;
        } else {
          assert last in mappings;
        }
      }
    }
  }

  /** Insertion `i`, which writes `p`, has targets exactly if `p` is around a move, and they cover `p` if ... */
  lemma {:induction false} TargetsAt(inp: Input, i: nat, p: nat)
    requires Apart(inp.insertions) && i < |inp.insertions| && Within(inp.insertions[i], p)
    ensures TargetsOf(inp.mappings, i) != [] <==> AroundMove(inp, p)
    ensures InSome(TargetsOf(inp.mappings, i), p - inp.insertions[i].start) <==> InTarget(inp, p)
  {
    var targets, q := TargetsOf(inp.mappings, i), p - inp.insertions[i].start;
    TargetMembers(inp.mappings, i);
    hide TargetsOf;
    forall j | 0 <= j < |inp.insertions| && Within(inp.insertions[j], p) ensures j == i {
      assert inp.insertions[Min(i, j)].end <= inp.insertions[Max(i, j)].start || i == j;
    }
    if targets != [] {
      assert targets[0] in targets;
    }
    if InTarget(inp, p) {
      var m :| m in inp.mappings && IsTarget(inp.insertions, m, p);
      assert m.targetRange in targets;
    }
    if InSome(targets, q) {
      var t :| t in targets && Contains(t, q);
      var m :| m in inp.mappings && m.insertionIdx == i && m.targetRange == t;
      assert IsTarget(inp.insertions, m, p);
    }
  }

  /** An inserted segment that goes to the current author whatever is around it. */
  ghost predicate CurrentAuthorSegment(inp: Input, s: Insertion) {
    inp.isAi || '\n' in s.data || Substantive(inp, s.start, |s.data|)
  }

  /**
   * The owners that an inserted position has before any move is laid over it.  Around moves they are the
   * current author, or nobody inside a target; elsewhere there is one owner, and the current author where
   * the segment decides it.
   */
  ghost predicate InsertedOwners(inp: Input, segment: Option<Insertion>, p: nat, owners: set<Owner>) {
    && segment.Some?
    && if AroundMove(inp, p) then owners == if InTarget(inp, p) then {} else {(inp.author, inp.ts)}
       else
         && (exists o :: owners == {o})
         && (CurrentAuthorSegment(inp, segment.value) ==> owners == {(inp.author, inp.ts)})
  }

  // ----- The owners of every position -----

  /** The owners that copying and inserting give to `p`. */
  ghost function Base(inp: Input, st: State, ds: seq<ByteDiff>, p: nat): set<Owner>
    requires ValidInput(inp)
    decreases ds
  {
    if ds == [] then {} else BaseOf(inp, st, ds[0], p) + Base(inp, Step(inp, st, ds[0]), ds[1..], p)
  }

  ghost function BaseOf(inp: Input, st: State, d: ByteDiff, p: nat): set<Owner>
    requires ValidInput(inp)
  {
    if d.op.Delete? then {} else Owners(Added(inp, st, d), p)
  }

  ghost predicate Explained(inp: Input, ds: seq<ByteDiff>, a: nat, b: nat, p: nat, owners: set<Owner>) {
    match SourceAt(ds, p, a, b)
    case Some(q) => owners == Owners(inp.attrs, q)
    case None => InsertedOwners(inp, InsertAt(ds, p, a, b), p, owners)
  }

  lemma {:induction false} GapsStay(targets: seq<Range>, cursor: nat, len: nat, newPos: nat, author: string, ts: nat)
    ensures forall a | a in FillGaps(targets, cursor, len, newPos, author, ts) ::
              newPos <= a.start <= a.end <= newPos + len
    decreases targets
  {
    if targets != [] {
      GapsStay(targets[1..], Max(cursor, Min(targets[0].1, len)), len, newPos, author, ts);
    }
  }

  /** Copying and inserting write only the characters of the diff. */
  lemma {:induction false} AddedStays(inp: Input, st: State, d: ByteDiff)
    requires ValidInput(inp) && !d.op.Delete?
    ensures forall a | a in Added(inp, st, d) :: st.newPos <= a.start <= a.end <= st.newPos + |NewPart(d)|
  {
    hide TargetsOf, FillGaps, InsertOwner;
    if d.op.Equal? {
      CopyEntries(inp.attrs, 0, |inp.attrs|, st.oldPos, st.oldPos + |d.data|, st.newPos);
    } else {
      GapsStay(MergeFrom([], Sorting.Sort(TargetsOf(inp.mappings, st.insertionIdx), StartLe)), 0, |d.data|,
               st.newPos, inp.author, inp.ts);
    }
  }

  lemma {:induction false} BaseOfOutside(inp: Input, st: State, d: ByteDiff, p: nat)
    requires ValidInput(inp) && !(st.newPos <= p < st.newPos + |NewPart(d)|)
    ensures BaseOf(inp, st, d, p) == {}
  {
    if !d.op.Delete? {
      AddedStays(inp, st, d);
    }
    hide Added;
  }

  /** One inserted position around a move, and one elsewhere. */
  lemma {:induction false} InsertedAround(inp: Input, st: State, d: ByteDiff, p: nat)
    requires ValidInput(inp) && d.op.Insert? && st.newPos <= p < st.newPos + |d.data|
    requires TargetsOf(inp.mappings, st.insertionIdx) != []
    ensures Owners(Added(inp, st, d), p)
         == if InSome(TargetsOf(inp.mappings, st.insertionIdx), p - st.newPos) then {} else {(inp.author, inp.ts)}
  {
    AddedAround(inp, st, d);
    hide *;
    var targets := TargetsOf(inp.mappings, st.insertionIdx);
    MovedInsertOwners(targets, |d.data|, st.newPos, inp.author, inp.ts, p - st.newPos);
  }

  lemma {:induction false} AddedAround(inp: Input, st: State, d: ByteDiff)
    requires ValidInput(inp) && d.op.Insert? && TargetsOf(inp.mappings, st.insertionIdx) != []
    ensures Added(inp, st, d)
         == FillGaps(MergeFrom([], Sorting.Sort(TargetsOf(inp.mappings, st.insertionIdx), StartLe)), 0, |d.data|,
                     st.newPos, inp.author, inp.ts)
  {
    hide TargetsOf, FillGaps, MergeFrom, InsertOwner;
  }

  lemma {:induction false} InsertedAlone(inp: Input, st: State, d: ByteDiff, p: nat)
    requires ValidInput(inp) && d.op.Insert? && st.newPos <= p < st.newPos + |d.data|
    requires TargetsOf(inp.mappings, st.insertionIdx) == []
    ensures exists o :: Owners(Added(inp, st, d), p) == {o}
    ensures CurrentAuthorSegment(inp, Insertion(st.newPos, st.oldPos, d.data)) ==>
              Owners(Added(inp, st, d), p) == {(inp.author, inp.ts)}
  {
    hide TargetsOf, FindForInsertion, Substantive;
    var a := Added(inp, st, d)[0];
    assert Added(inp, st, d) == [a];
    OwnersOne(a, p);
    hide Owners;
    assert Owners(Added(inp, st, d), p) == {OwnerOf(a)};
  }

  lemma {:induction false} InsertedHere(inp: Input, st: State, d: ByteDiff, p: nat)
    requires ValidInput(inp) && d.op.Insert? && st.newPos <= p < st.newPos + |d.data|
    requires Apart(inp.insertions) && st.insertionIdx < |inp.insertions|
    requires inp.insertions[st.insertionIdx] == Segment(st.newPos, st.newPos + |d.data|)
    ensures InsertedOwners(inp, Some(Insertion(st.newPos, st.oldPos, d.data)), p, Owners(Added(inp, st, d), p))
  {
    TargetsAt(inp, st.insertionIdx, p);
    hide TargetsOf, AroundMove, InTarget, InSome, Apart, Added, Owners, CurrentAuthorSegment, ValidInput;
    if TargetsOf(inp.mappings, st.insertionIdx) != [] {
      InsertedAround(inp, st, d, p);
    } else {
      InsertedAlone(inp, st, d, p);
    }
  }

  lemma {:induction false} ExplainedHere(inp: Input, deletions: seq<Segment>, st: State, ds: seq<ByteDiff>, p: nat)
    requires ValidInput(inp) && Apart(inp.insertions) && Aligned(inp, deletions, st, ds) && ds != []
    requires st.newPos <= p < st.newPos + |NewPart(ds[0])|
    ensures Explained(inp, ds, st.oldPos, st.newPos, p, BaseOf(inp, st, ds[0], p))
  {
    var d := ds[0];
    if d.op.Equal? {
      CopyOwners(inp.attrs, st.oldPos, st.oldPos + |d.data|, st.newPos, p);
      hide Owners;
    } else {
      assert inp.insertions[st.insertionIdx..][0] == inp.insertions[st.insertionIdx];
      InsertedHere(inp, st, d, p);
      hide Added, InsertedOwners, Owners;
    }
  }

  lemma {:induction false} ExplainedLater(inp: Input, ds: seq<ByteDiff>, st: State, p: nat, owners: set<Owner>)
    requires ValidInput(inp) && ds != [] && st.newPos + |NewPart(ds[0])| <= p
    requires var st' := Step(inp, st, ds[0]); Explained(inp, ds[1..], st'.oldPos, st'.newPos, p, owners)
    ensures Explained(inp, ds, st.oldPos, st.newPos, p, owners)
  {
    hide Added, InsertedOwners, Owners;
  }

  lemma {:induction false} AlignedStep(inp: Input, deletions: seq<Segment>, st: State, ds: seq<ByteDiff>)
    requires ValidInput(inp) && Aligned(inp, deletions, st, ds) && ds != []
    ensures Aligned(inp, deletions, Step(inp, st, ds[0]), ds[1..])
    ensures ds[0].op.Delete? ==> st.deletionIdx < |deletions| && deletions[st.deletionIdx].start == st.oldPos
  {
    hide Added;
    if ds[0].op.Delete? {
      assert deletions[st.deletionIdx..][0] == deletions[st.deletionIdx];
      assert deletions[st.deletionIdx..][1..] == deletions[st.deletionIdx + 1..];
    } else if ds[0].op.Insert? {
      assert inp.insertions[st.insertionIdx..][1..] == inp.insertions[st.insertionIdx + 1..];
    }
  }

  lemma {:induction false} NothingAdded(a: set<Owner>, b: set<Owner>)
    ensures a == {} ==> a + b == b
    ensures b == {} ==> a + b == a
  {
  }

  /** Before the moves, a copied position has exactly its old owners and an inserted one its own; nothing is beyond. */
  lemma {:induction false} BaseOwners(inp: Input, deletions: seq<Segment>, st: State, ds: seq<ByteDiff>, p: nat)
    requires ValidInput(inp) && Apart(inp.insertions) && Aligned(inp, deletions, st, ds)
    ensures if st.newPos <= p < st.newPos + |NewText(ds)| then
              Explained(inp, ds, st.oldPos, st.newPos, p, Base(inp, st, ds, p))
            else Base(inp, st, ds, p) == {}
    decreases ds
  {
    if ds != [] {
      var d, st' := ds[0], Step(inp, st, ds[0]);
      assert NewText(ds) == NewPart(d) + NewText(ds[1..]);
      assert Base(inp, st, ds, p) == BaseOf(inp, st, d, p) + Base(inp, st', ds[1..], p);
      assert st'.newPos == st.newPos + |NewPart(d)|;
      hide *;
      AlignedStep(inp, deletions, st, ds);
      BaseOwners(inp, deletions, st', ds[1..], p);
      NothingAdded(BaseOf(inp, st, d, p), Base(inp, st', ds[1..], p));
      if st.newPos <= p < st'.newPos {
        ExplainedHere(inp, deletions, st, ds, p);
      } else {
        BaseOfOutside(inp, st, d, p);
        if st'.newPos <= p < st.newPos + |NewText(ds)| {
          ExplainedLater(inp, ds, st, p, Base(inp, st', ds[1..], p));
        }
      }
    }
  }

  /** What one diff adds at `p`: copied or inserted owners, or those the moves out of it bring. */
  lemma {:induction false} AddedOwners(inp: Input, deletions: seq<Segment>, st: State, ds: seq<ByteDiff>, p: nat)
    requires ValidInput(inp) && Aligned(inp, deletions, st, ds) && ds != []
    ensures Owners(Added(inp, st, ds[0]), p) + Moved(inp, deletions, Step(inp, st, ds[0]).deletionIdx, p)
         == BaseOf(inp, st, ds[0], p) + Moved(inp, deletions, st.deletionIdx, p)
  {
    AlignedStep(inp, deletions, st, ds);
    var d := ds[0];
    assert !d.op.Delete? ==> Step(inp, st, d).deletionIdx == st.deletionIdx;
    if d.op.Delete? {
      MovedSplit(inp, deletions, st.deletionIdx, p);
      DeletionOwners(inp, st, d, p);
      hide Added, Owners, Moved, BroughtBy;
    }
  }

  lemma {:induction false} DeletionOwners(inp: Input, st: State, d: ByteDiff, p: nat)
    requires ValidInput(inp) && d.op.Delete?
    ensures Owners(Added(inp, st, d), p) == BroughtBy(inp, MovesOf(inp.mappings, st.deletionIdx), st.oldPos, p)
  {
    MovesAreMappings(inp.mappings, st.deletionIdx);
    var moves := MovesOf(inp.mappings, st.deletionIdx);
    hide MovesOf;
    CopyMovesOwners(inp, moves, st.oldPos, p);
    if moves == [] {
      hide Brings, CopyMoves;
      NobodyOwns(p);
      OwnersOne(Attribution(st.newPos, st.newPos, inp.author, inp.ts), p);
    }
  }

  /**
   * The owners of every position after a run: those it had, those that copying and inserting give it, and
   * those that the kept moves bring.
   */
  lemma {:induction false} RunOwners(inp: Input, deletions: seq<Segment>, st: State, ds: seq<ByteDiff>, p: nat)
    requires ValidInput(inp) && Aligned(inp, deletions, st, ds)
    ensures Owners(Run(inp, st, ds).out, p)
         == Owners(st.out, p) + Base(inp, st, ds, p) + Moved(inp, deletions, st.deletionIdx, p)
    decreases ds
  {
    if ds == [] {
      assert st.deletionIdx == |deletions| by { assert |deletions[st.deletionIdx..]| == 0; }
      hide Owners;
    } else {
      var d, st' := ds[0], Step(inp, st, ds[0]);
      assert Run(inp, st, ds) == Run(inp, st', ds[1..]);
      assert Base(inp, st, ds, p) == BaseOf(inp, st, d, p) + Base(inp, st', ds[1..], p);
      assert st'.out == st.out + Added(inp, st, d);
      hide *;
      AlignedStep(inp, deletions, st, ds);
      RunOwners(inp, deletions, st', ds[1..], p);
      OwnersAppend(st.out, Added(inp, st, d), p);
      AddedOwners(inp, deletions, st, ds, p);
    }
  }

  // ----- Bounds -----

  ghost predicate EndsBy(out: seq<Attribution>, n: nat) {
    forall a | a in out :: a.start <= a.end <= n
  }

  /** The source of every kept move, laid over its target, ends by `n`. */
  ghost predicate ImagesEndBy(mappings: seq<MoveMapping>, insertions: seq<Segment>, n: nat) {
    forall m | m in mappings && Kept(mappings, m) && m.insertionIdx < |insertions| :: ImageEndsBy(insertions, m, n)
  }

  predicate ImageEndsBy(insertions: seq<Segment>, m: MoveMapping, n: nat)
    requires m.insertionIdx < |insertions|
  {
    m.sourceRange.0 < m.sourceRange.1 ==> TargetStart(insertions, m) + (m.sourceRange.1 - m.sourceRange.0) <= n
  }

  lemma {:induction false} CopyEndsBy(inp: Input, m: MoveMapping, oldPos: nat, n: nat)
    requires m.insertionIdx < |inp.insertions| && ImageEndsBy(inp.insertions, m, n)
    ensures EndsBy(CopyMove(inp, m, oldPos), n)
  {
    if m.sourceRange.0 < m.sourceRange.1 {
      CopyEntries(inp.attrs, 0, |inp.attrs|, oldPos + m.sourceRange.0, oldPos + m.sourceRange.1,
                  TargetStart(inp.insertions, m));
    }
  }

  lemma {:induction false} CopiesEndBy(inp: Input, moves: seq<MoveMapping>, oldPos: nat, n: nat)
    requires forall m | m in moves :: m.insertionIdx < |inp.insertions| && ImageEndsBy(inp.insertions, m, n)
    ensures EndsBy(CopyMoves(inp, moves, oldPos), n)
  {
    if moves != [] {
      var m := moves[|moves| - 1];
      assert m in moves;
      CopiesEndBy(inp, moves[..|moves| - 1], oldPos, n);
      CopyEndsBy(inp, m, oldPos, n);
      hide CopyMove, ImageEndsBy;
    }
  }

  lemma {:induction false} AddedEndsBy(inp: Input, st: State, d: ByteDiff, n: nat)
    requires ValidInput(inp) && ImagesEndBy(inp.mappings, inp.insertions, n) && st.newPos + |NewPart(d)| <= n
    ensures EndsBy(Added(inp, st, d), n)
  {
    if d.op.Delete? {
      FoundAreMappings(inp.mappings, st.deletionIdx);
      Sorting.SortMembers(MovesFound(inp.mappings, st.deletionIdx), SourceLe);
      hide MovesFound, CopyMoves, ImageEndsBy;
      CopiesEndBy(inp, MovesOf(inp.mappings, st.deletionIdx), st.oldPos, n);
    } else {
      AddedStays(inp, st, d);
      hide Added;
    }
  }

  /** Where the images end within the new text, every output range does. */
  lemma {:induction false} RunBounds(inp: Input, st: State, ds: seq<ByteDiff>, n: nat)
    requires ValidInput(inp) && EndsBy(st.out, n)
    requires ImagesEndBy(inp.mappings, inp.insertions, n) && st.newPos + |NewText(ds)| <= n
    ensures EndsBy(Run(inp, st, ds).out, n)
    decreases ds
  {
    if ds != [] {
      assert |NewText(ds)| == |NewPart(ds[0])| + |NewText(ds[1..])|;
      hide ImagesEndBy, NewText;
      AddedEndsBy(inp, st, ds[0], n);
      hide Added;
      RunBounds(inp, Step(inp, st, ds[0]), ds[1..], n);
    }
  }

  // ----- Around moves -----

  lemma {:induction false} PieceOwners(from: nat, to: nat, newPos: nat, author: string, ts: nat, q: nat)
    ensures Owners(if from < to then [Attribution(newPos + from, newPos + to, author, ts)] else [], newPos + q)
         == if from <= q < to then {(author, ts)} else {}
  {
    if from < to {
      OwnersOne(Attribution(newPos + from, newPos + to, author, ts), newPos + q);
    } else {
      assert Owners([], newPos + q) == {};
    }
  }

  lemma {:induction false} InSomeCons(targets: seq<Range>, q: nat)
    requires targets != []
    ensures InSome(targets, q) <==> Contains(targets[0], q) || InSome(targets[1..], q)
  {
    assert targets == [targets[0]] + targets[1..];
  }

  lemma {:induction false} SeparatedTail(targets: seq<Range>, cursor: nat, len: nat)
    requires Separated(targets) && targets != [] && cursor <= targets[0].0
    ensures Separated(targets[1..])
    ensures forall r | r in targets[1..] :: Max(cursor, Min(targets[0].1, len)) <= r.0
    ensures targets[0].0 < targets[0].1 && targets[0] in targets
  {
    forall r | r in targets[1..] ensures targets[0].1 < r.0 {
      var i :| 0 < i < |targets| && targets[i] == r;
    }
  }

  /** Inside a moved insertion the current author owns exactly what no move target covers. */
  lemma {:induction false} GapOwners(targets: seq<Range>, cursor: nat, len: nat, newPos: nat, author: string, ts: nat,
                                     q: nat)
    requires Separated(targets) && forall t | t in targets :: cursor <= t.0
    ensures Owners(FillGaps(targets, cursor, len, newPos, author, ts), newPos + q)
         == if cursor <= q < len && !InSome(targets, q) then {(author, ts)} else {}
    decreases targets
  {
    if targets == [] {
      PieceOwners(cursor, len, newPos, author, ts, q);
    } else {
      assert targets[0] in targets;
      var t, rest := targets[0], targets[1..];
      var s, e := Min(t.0, len), Min(t.1, len);
      var here := if cursor < s then [Attribution(newPos + cursor, newPos + s, author, ts)] else [];
      var later := FillGaps(rest, Max(cursor, e), len, newPos, author, ts);
      assert FillGaps(targets, cursor, len, newPos, author, ts) == here + later;
      SeparatedTail(targets, cursor, len);
      GapOwners(rest, Max(cursor, e), len, newPos, author, ts, q);
      PieceOwners(cursor, s, newPos, author, ts, q);
      OwnersAppend(here, later, newPos + q);
      InSomeCons(targets, q);
      if q < t.0 {
        NotYet(targets, q);
      }
      hide Owners, FillGaps, InSome, Separated;
    }
  }

  lemma {:induction false} NotYet(targets: seq<Range>, q: nat)
    requires Separated(targets) && targets != [] && q < targets[0].0
    ensures !InSome(targets, q)
  {
    assert forall i | 0 < i < |targets| :: targets[0].1 < targets[i].0;
  }

  lemma {:induction false} MovedInsertOwners(targets: seq<Range>, len: nat, newPos: nat, author: string, ts: nat,
                                             q: nat)
    requires q < len
    ensures var merged := MergeFrom([], Sorting.Sort(targets, StartLe));
            Owners(FillGaps(merged, 0, len, newPos, author, ts), newPos + q)
            == if InSome(targets, q) then {} else {(author, ts)}
  {
    var sorted := Sorting.Sort(targets, StartLe);
    StartOrder();
    Sorting.SortIsSorted(targets, StartLe);
    Sorting.SortMembers(targets, StartLe);
    var merged := MergeFrom([], sorted);
    MergeFromIsMerge(sorted);
    MergedIsMerge(merged, sorted, targets);
    GapOwners(merged, 0, len, newPos, author, ts, q);
  }

  lemma {:induction false} MergeFromIsMerge(sorted: seq<Range>)
    requires Sorting.SortedBy(sorted, StartLe)
    ensures MergedSoFar(MergeFrom([], sorted), sorted)
  {
    NothingMerged();
    MergeFromStep([], sorted, 0);
    assert sorted[0..] == sorted && sorted[..0] == [];
  }

  lemma {:induction false} MergeFromStep(merged: seq<Range>, sorted: seq<Range>, k: nat)
    requires Sorting.SortedBy(sorted, StartLe) && k <= |sorted| && MergedSoFar(merged, sorted[..k])
    ensures MergedSoFar(MergeFrom(merged, sorted[k..]), sorted)
    decreases |sorted| - k
  {
    hide MergedSoFar, Sorting.SortedBy;
    if k == |sorted| {
      assert sorted[..k] == sorted && sorted[k..] == [];
    } else {
      assert sorted[k..][0] == sorted[k] && sorted[k..][1..] == sorted[k + 1..];
      StartsBefore(sorted, k);
      MergeStepCorrect(merged, sorted[..k], sorted[k]);
      assert sorted[..k + 1] == sorted[..k] + [sorted[k]];
      MergeFromStep(MergeStep(merged, sorted[k]), sorted, k + 1);
    }
  }
}
