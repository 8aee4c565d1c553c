/** Whose the text is that a human checkpoint inserts without substance, and where deletions leave their marks. */
module Inheritance {
  import opened Prelude
  import opened Text
  import opened EditScript
  import opened Ranges
  import opened Tokenizer
  import opened TokenDiff
  import opened HunkDiffs
  import opened Attributions
  import opened Cursors
  import opened Transform
  import opened Ownership
  import opened Checkpoint
  import D = DiffOps
  import Sorting

  // ----- Runs, diff by diff -----

  /** The state before diff `n`. */
  ghost function StateAt(inp: Input, ds: seq<ByteDiff>, n: nat): State
    requires ValidInput(inp) && n <= |ds|
  {
    if n == 0 then START else Step(inp, StateAt(inp, ds, n - 1), ds[n - 1])
  }

  lemma {:induction false} RunFrom(inp: Input, ds: seq<ByteDiff>, n: nat)
    requires ValidInput(inp) && n <= |ds|
    ensures Run(inp, START, ds) == Run(inp, StateAt(inp, ds, n), ds[n..])
  {
    hide *;
    if n == 0 {
      assert ds[0..] == ds;
      NextStateAt(inp, ds, 0);
    } else {
      NextStateAt(inp, ds, n);
      RunFrom(inp, ds, n - 1);
      RunStep(inp, StateAt(inp, ds, n - 1), ds, n - 1);
    }
  }

  lemma {:induction false} NextStateAt(inp: Input, ds: seq<ByteDiff>, n: nat)
    requires ValidInput(inp) && n <= |ds|
    ensures StateAt(inp, ds, n) == if n == 0 then START else Step(inp, StateAt(inp, ds, n - 1), ds[n - 1])
  {
    hide Step;
  }

  lemma {:induction false} TextsUpTo(ds: seq<ByteDiff>, n: nat)
    requires n < |ds|
    ensures OldText(ds[..n + 1]) == OldText(ds[..n]) + OldPart(ds[n])
    ensures NewText(ds[..n + 1]) == NewText(ds[..n]) + NewPart(ds[n])
  {
    assert ds[..n + 1] == ds[..n] + [ds[n]];
    TextAppend(ds[..n], [ds[n]]);
    TextHead([ds[n]]);
    assert [ds[n]][1..] == [];
    assert OldPart(ds[n]) + OldText([]) == OldPart(ds[n]) && NewPart(ds[n]) + NewText([]) == NewPart(ds[n]);
  }

  lemma {:induction false} EditsUpTo(ds: seq<ByteDiff>, n: nat)
    requires n < |ds|
    ensures |Deletions(ds[..n + 1])| == |Deletions(ds[..n])| + if ds[n].op.Delete? then 1 else 0
    ensures |Insertions(ds[..n + 1])| == |Insertions(ds[..n])| + if ds[n].op.Insert? then 1 else 0
  {
    assert ds[..n + 1] == ds[..n] + [ds[n]];
    CountAppend(ds[..n], ds[n], 0, 0);
  }

  lemma {:induction false} CountAppend(ds: seq<ByteDiff>, d: ByteDiff, a: nat, b: nat)
    ensures |Deletions(ds + [d], a)| == |Deletions(ds, a)| + if d.op.Delete? then 1 else 0
    ensures |Insertions(ds + [d], b)| == |Insertions(ds, b)| + if d.op.Insert? then 1 else 0
    decreases ds
  {
    if ds == [] {
      assert ds + [d] == [d] && [d][1..] == [];
    } else {
      assert (ds + [d])[0] == ds[0] && (ds + [d])[1..] == ds[1..] + [d];
      CountAppend(ds[1..], d, a + |OldPart(ds[0])|, b + |NewPart(ds[0])|);
    }
  }

  /** Positions and counters of the state are those of the script. */
  lemma {:induction false} StateIs(inp: Input, ds: seq<ByteDiff>, n: nat)
    requires ValidInput(inp) && n <= |ds|
    ensures var st := StateAt(inp, ds, n);
            && st.oldPos == |OldText(ds[..n])| && st.newPos == |NewText(ds[..n])|
            && st.deletionIdx == |Deletions(ds[..n])| && st.insertionIdx == |Insertions(ds[..n])|
            && (st.prevWhitespaceDelete <==> n > 0 && ds[n - 1].op.Delete? && DataIsWhitespace(inp.cc, ds[n - 1].data))
  {
    hide *;
    NextStateAt(inp, ds, n);
    if n == 0 {
      assert ds[..0] == [];
      StartIs();
    } else {
      StateIs(inp, ds, n - 1);
      TextsUpTo(ds, n - 1);
      EditsUpTo(ds, n - 1);
      StepParts(inp, StateAt(inp, ds, n - 1), ds[n - 1]);
    }
  }

  lemma {:induction false} StartIs()
    ensures START.oldPos == |OldText([])| && START.newPos == |NewText([])| && !START.prevWhitespaceDelete
    ensures START.deletionIdx == |Deletions([])| && START.insertionIdx == |Insertions([])|
  {
  }

  lemma {:induction false} StepParts(inp: Input, st: State, d: ByteDiff)
    requires ValidInput(inp)
    ensures var st' := Step(inp, st, d);
            && st'.out == st.out + Added(inp, st, d)
            && st'.oldPos == st.oldPos + |OldPart(d)| && st'.newPos == st.newPos + |NewPart(d)|
            && st'.deletionIdx == st.deletionIdx + (if d.op.Delete? then 1 else 0)
            && st'.insertionIdx == st.insertionIdx + (if d.op.Insert? then 1 else 0)
            && (st'.prevWhitespaceDelete <==> d.op.Delete? && DataIsWhitespace(inp.cc, d.data))
  {
    hide Added, DataIsWhitespace;
  }

  // ----- The rule -----

  /** The old attribution that answers for `pos`: the best that covers it, or a neighbour if none does. */
  ghost predicate AnswersFor(attrs: seq<Attribution>, pos: nat, i: nat)
    requires i < |attrs|
  {
    if exists k :: 0 <= k < |attrs| && Covers(attrs[k], pos) then
      && Covers(attrs[i], pos)
      && (forall k | 0 <= k < |attrs| && Covers(attrs[k], pos) ::
            attrs[k].ts < attrs[i].ts
            || (attrs[k].ts == attrs[i].ts && attrs[k].end - attrs[k].start <= attrs[i].end - attrs[i].start))
      && (forall k | 0 <= k < i && Covers(attrs[k], pos) ::
            attrs[k].ts < attrs[i].ts
            || (attrs[k].ts == attrs[i].ts && attrs[k].end - attrs[k].start < attrs[i].end - attrs[i].start))
    else if attrs[0].end <= pos then
      (forall k | 0 <= k <= i :: attrs[k].end <= pos) && (i + 1 < |attrs| ==> attrs[i + 1].end > pos)
    else i == 0
  }

  ghost predicate OwnerFor(attrs: seq<Attribution>, pos: nat, o: Owner) {
    exists i | 0 <= i < |attrs| :: AnswersFor(attrs, pos, i) && OwnerOf(attrs[i]) == o
  }

  lemma {:induction false} FindMeaning(attrs: seq<Attribution>, pos: nat)
    requires WellFormed(attrs)
    ensures FindForInsertion(attrs, pos).None? <==> attrs == []
    ensures attrs != [] ==> OwnerFor(attrs, pos, OwnerOf(FindForInsertion(attrs, pos).value))
  {
    BestCoveringMeaning(attrs, pos, |attrs|);
    var best := BestCovering(attrs, pos, |attrs|);
    hide BestCovering;
    if best.Some? {
      var i :| 0 <= i < |attrs| && attrs[i] == best.value && Covers(best.value, pos)
        && (forall k | 0 <= k < |attrs| && Covers(attrs[k], pos) :: !Better(attrs[k], best.value))
        && (forall k | 0 <= k < i && Covers(attrs[k], pos) :: Better(best.value, attrs[k]));
      assert AnswersFor(attrs, pos, i);
    } else if attrs != [] {
      NeighbourMeaning(attrs, pos);
    }
  }

  lemma {:induction false} NeighbourMeaning(attrs: seq<Attribution>, pos: nat)
    requires WellFormed(attrs) && attrs != [] && BestCovering(attrs, pos, |attrs|) == None
    requires forall k | 0 <= k < |attrs| :: !Covers(attrs[k], pos)
    ensures FindForInsertion(attrs, pos).Some?
    ensures OwnerFor(attrs, pos, OwnerOf(FindForInsertion(attrs, pos).value))
  {
    var c := EndedBefore(attrs, pos);
    hide BestCovering, EndedBefore;
    var i := if c > 0 then c - 1 else 0;
    assert AnswersFor(attrs, pos, i);
    assert FindForInsertion(attrs, pos) == Some(attrs[i]);
  }

  /** The owner of an insertion that nothing else decides, by what was written before it and by the old text. */
  ghost predicate Inherits(attrs: seq<Attribution>, written: seq<Attribution>, current: Owner, oldPos: nat, pair: bool,
                           o: Owner)
  {
    if attrs != [] && (pair || written == []) then OwnerFor(attrs, oldPos, o)
    else if written != [] then OwnerOf(written[|written| - 1]) == o
    else o == current
  }

  /** Insertion `n` of a human checkpoint has no newline, nothing substantive, and no move goes into it. */
  ghost predicate PlainInsert(inp: Input, ds: seq<ByteDiff>, n: nat) {
    && n < |ds| && ds[n].op.Insert? && !inp.isAi && '\n' !in ds[n].data
    && !Substantive(inp, |NewText(ds[..n])|, |ds[n].data|)
    && TargetsOf(inp.mappings, |Insertions(ds[..n])|) == []
  }

  /** Blank text that replaces blank text deleted right before it. */
  ghost predicate FormattingPair(cc: CharClass, ds: seq<ByteDiff>, n: nat)
    requires n < |ds|
  {
    && n > 0 && ds[n - 1].op.Delete? && IsBlank(cc, ds[n - 1].data) && IsBlank(cc, ds[n].data)
  }

  predicate IsBlank(cc: CharClass, data: string) {
    data != [] && forall c | c in data :: cc.isWhitespace(c)
  }

  lemma {:induction false} BlankData(cc: CharClass, data: string)
    ensures DataIsWhitespace(cc, data) <==> IsBlank(cc, data)
  {
    assert forall i | 0 <= i < |data| :: data[i] in data;
  }

  /**
   * A plain insertion adds one range.  A formatting pair goes to the owner of the old text that it stands at; any
   * other plain insertion to the owner of the range written before it; the current author only if there is
   * neither.
   */
  lemma {:induction false} PlainInsertInherits(inp: Input, ds: seq<ByteDiff>, n: nat) returns (o: Owner)
    requires ValidInput(inp) && PlainInsert(inp, ds, n)
    ensures var st, b := StateAt(inp, ds, n), |NewText(ds[..n])|;
            && Inherits(inp.attrs, st.out, (inp.author, inp.ts), |OldText(ds[..n])|, FormattingPair(inp.cc, ds, n), o)
            && Added(inp, st, ds[n]) == [Attribution(b, b + |ds[n].data|, o.0, o.1)]
  {
    hide *;
    PlainParts(inp, ds, n);
    StateIs(inp, ds, n);
    PairAt(inp.cc, ds, n);
    o := OwnerChosen(inp, StateAt(inp, ds, n), ds[n]);
  }

  lemma {:induction false} PlainParts(inp: Input, ds: seq<ByteDiff>, n: nat)
    requires PlainInsert(inp, ds, n)
    ensures n < |ds| && ds[n].op.Insert? && !inp.isAi && '\n' !in ds[n].data
    ensures !Substantive(inp, |NewText(ds[..n])|, |ds[n].data|) && TargetsOf(inp.mappings, |Insertions(ds[..n])|) == []
  {
  }

  lemma {:induction false} PairAt(cc: CharClass, ds: seq<ByteDiff>, n: nat)
    requires n < |ds|
    ensures FormattingPair(cc, ds, n)
       <==> (n > 0 && ds[n - 1].op.Delete? && DataIsWhitespace(cc, ds[n - 1].data)) && DataIsWhitespace(cc, ds[n].data)
  {
    hide DataIsWhitespace, IsBlank;
    BlankData(cc, ds[n].data);
    if n > 0 {
      BlankData(cc, ds[n - 1].data);
    }
  }

  lemma {:induction false} OwnerChosen(inp: Input, st: State, d: ByteDiff) returns (o: Owner)
    requires ValidInput(inp) && d.op.Insert? && !inp.isAi && '\n' !in d.data && !Substantive(inp, st.newPos, |d.data|)
    requires TargetsOf(inp.mappings, st.insertionIdx) == []
    ensures Inherits(inp.attrs, st.out, (inp.author, inp.ts), st.oldPos,
                     st.prevWhitespaceDelete && DataIsWhitespace(inp.cc, d.data), o)
    ensures Added(inp, st, d) == [Attribution(st.newPos, st.newPos + |d.data|, o.0, o.1)]
  {
    o := InsertOwner(inp, st, d.data);
    assert Added(inp, st, d) == [Attribution(st.newPos, st.newPos + |d.data|, o.0, o.1)] by {
      hide InsertOwner, TargetsOf, FillGaps, Substantive;
    }
    hide Added, DataIsWhitespace, Substantive, OwnerFor, FindForInsertion, TargetsOf;
    FindMeaning(inp.attrs, st.oldPos);
  }

  // ----- By position -----

  /** Only the diff that writes `p` copies or inserts there. */
  lemma {:induction false} BaseAt(inp: Input, deletions: seq<Segment>, st: State, ds: seq<ByteDiff>, n: nat, p: nat)
    requires ValidInput(inp) && Apart(inp.insertions) && Aligned(inp, deletions, st, ds) && n < |ds|
    requires st.newPos + |NewText(ds[..n])| <= p < st.newPos + |NewText(ds[..n + 1])|
    ensures Base(inp, st, ds, p) == BaseOf(inp, RunTo(inp, st, ds, n), ds[n], p)
    decreases n
  {
    var st' := Step(inp, st, ds[0]);
    AlignedStep(inp, deletions, st, ds);
    FirstText(ds, n);
    StepPos(inp, st, ds[0]);
    RunToStep(inp, st, ds, n);
    assert Base(inp, st, ds, p) == BaseOf(inp, st, ds[0], p) + Base(inp, st', ds[1..], p);
    hide *;
    BaseOwners(inp, deletions, st', ds[1..], p);
    NothingAdded(BaseOf(inp, st, ds[0], p), Base(inp, st', ds[1..], p));
    if n > 0 {
      BaseOfOutside(inp, st, ds[0], p);
      BaseAt(inp, deletions, st', ds[1..], n - 1, p);
    }
  }

  ghost function RunTo(inp: Input, st: State, ds: seq<ByteDiff>, n: nat): State
    requires ValidInput(inp) && n <= |ds|
    decreases n
  {
    if n == 0 then st else RunTo(inp, Step(inp, st, ds[0]), ds[1..], n - 1)
  }

  lemma {:induction false} StepPos(inp: Input, st: State, d: ByteDiff)
    requires ValidInput(inp)
    ensures Step(inp, st, d).newPos == st.newPos + |NewPart(d)|
  {
    hide Added;
  }

  lemma {:induction false} RunToStep(inp: Input, st: State, ds: seq<ByteDiff>, n: nat)
    requires ValidInput(inp) && n < |ds|
    ensures n == 0 ==> RunTo(inp, st, ds, n) == st
    ensures n > 0 ==> RunTo(inp, st, ds, n) == RunTo(inp, Step(inp, st, ds[0]), ds[1..], n - 1)
  {
    hide Step;
  }

  lemma {:induction false} RunToIsState(inp: Input, st: State, ds: seq<ByteDiff>, n: nat)
    requires ValidInput(inp) && 0 < n <= |ds|
    ensures RunTo(inp, st, ds, n) == Step(inp, RunTo(inp, st, ds, n - 1), ds[n - 1])
    decreases n
  {
    hide Step;
    if n > 1 {
      RunToIsState(inp, Step(inp, st, ds[0]), ds[1..], n - 1);
      assert ds[1..][n - 2] == ds[n - 1];
    }
  }

  lemma {:induction false} StateIsRunTo(inp: Input, ds: seq<ByteDiff>, n: nat)
    requires ValidInput(inp) && n <= |ds|
    ensures StateAt(inp, ds, n) == RunTo(inp, START, ds, n)
  {
    hide Step;
    if n > 0 {
      StateIsRunTo(inp, ds, n - 1);
      RunToIsState(inp, START, ds, n);
    }
  }

  /** The texts of a script without its first diff. */
  lemma {:induction false} FirstText(ds: seq<ByteDiff>, n: nat)
    requires n < |ds|
    ensures |NewText(ds)| == |NewPart(ds[0])| + |NewText(ds[1..])|
    ensures n == 0 ==> |NewText(ds[..n])| == 0 && |NewText(ds[..n + 1])| == |NewPart(ds[0])|
    ensures n > 0 ==>
              && |NewText(ds[..n])| == |NewPart(ds[0])| + |NewText(ds[1..][..n - 1])|
              && |NewText(ds[..n + 1])| == |NewPart(ds[0])| + |NewText(ds[1..][..n])|
              && ds[1..][n - 1] == ds[n]
  {
    TextsUpTo(ds, 0);
    assert ds[..0] == [];
    if n > 0 {
      assert ds[..n] == [ds[0]] + ds[1..][..n - 1] && ds[..n + 1] == [ds[0]] + ds[1..][..n];
      TextHead(ds[..n]);
      TextHead(ds[..n + 1]);
      assert ds[..n][1..] == ds[1..][..n - 1] && ds[..n + 1][1..] == ds[1..][..n];
    }
  }

  /** The owners of a plainly inserted position, before moves. */
  lemma {:induction false} PlainPosition(inp: Input, ds: seq<ByteDiff>, n: nat, p: nat) returns (o: Owner)
    requires ValidInput(inp) && inp.insertions == Insertions(ds) && PlainInsert(inp, ds, n)
    requires |NewText(ds[..n])| <= p < |NewText(ds[..n])| + |ds[n].data|
    ensures Inherits(inp.attrs, StateAt(inp, ds, n).out, (inp.author, inp.ts), |OldText(ds[..n])|,
                     FormattingPair(inp.cc, ds, n), o)
    ensures Base(inp, START, ds, p) == {o}
  {
    hide *;
    InsertLength(inp, ds, n);
    ScriptAligned(inp, ds);
    StateIsRunTo(inp, ds, n);
    BaseAt(inp, Deletions(ds), START, ds, n, p);
    o := PlainInsertInherits(inp, ds, n);
    OneRange(|NewText(ds[..n])|, |ds[n].data|, o, p);
    InsertedIsBase(inp, StateAt(inp, ds, n), ds[n], p);
  }

  lemma {:induction false} InsertLength(inp: Input, ds: seq<ByteDiff>, n: nat)
    requires PlainInsert(inp, ds, n)
    ensures n < |ds| && ds[n].op.Insert? && START.newPos == 0
    ensures |NewText(ds[..n + 1])| == |NewText(ds[..n])| + |ds[n].data|
  {
    TextsUpTo(ds, n);
    hide NewText, OldText, Insertions, Substantive, TargetsOf;
  }

  lemma {:induction false} ScriptAligned(inp: Input, ds: seq<ByteDiff>)
    requires inp.insertions == Insertions(ds)
    ensures Apart(inp.insertions) && Aligned(inp, Deletions(ds), START, ds)
  {
    InsertionsApart(ds, 0);
    hide Insertions, Deletions, Apart;
    assert Deletions(ds)[0..] == Deletions(ds) && inp.insertions[0..] == inp.insertions;
  }

  lemma {:induction false} InsertedIsBase(inp: Input, st: State, d: ByteDiff, p: nat)
    requires ValidInput(inp) && d.op.Insert?
    ensures BaseOf(inp, st, d, p) == Owners(Added(inp, st, d), p)
  {
    hide Added, Owners;
  }

  lemma {:induction false} OneRange(b: nat, n: nat, o: Owner, p: nat)
    requires b <= p < b + n
    ensures Owners([Attribution(b, b + n, o.0, o.1)], p) == {o}
  {
    OwnersOne(Attribution(b, b + n, o.0, o.1), p);
  }

  // ----- Text that one author wrote -----

  /** All of the old text, up to `len`, belongs to `o` and to nobody else. */
  ghost predicate WrittenBy(attrs: seq<Attribution>, len: nat, o: Owner) {
    && (forall a | a in attrs :: OwnerOf(a) == o)
    && (forall p: nat | p < len :: Owners(attrs, p) != {})
  }

  /** The last range written is `o`'s. */
  ghost predicate LastIs(out: seq<Attribution>, o: Owner) {
    out != [] && OwnerOf(out[|out| - 1]) == o
  }

  ghost predicate AllAre(out: seq<Attribution>, o: Owner) {
    forall a | a in out :: OwnerOf(a) == o
  }

  lemma {:induction false} LastStays(out: seq<Attribution>, more: seq<Attribution>, o: Owner)
    requires AllAre(more, o) && (LastIs(out, o) || more != [])
    ensures LastIs(out + more, o)
  {
    if more != [] {
      assert (out + more)[|out + more| - 1] == more[|more| - 1];
      assert more[|more| - 1] in more;
    } else {
      assert out + more == out;
    }
  }

  lemma {:induction false} CopiesAre(attrs: seq<Attribution>, lo: nat, hi: nat, to: nat, o: Owner)
    requires lo <= hi && AllAre(attrs, o)
    ensures AllAre(CopyOverlaps(attrs, lo, hi, to), o)
    ensures lo < hi && Owners(attrs, lo) != {} ==> CopyOverlaps(attrs, lo, hi, to) != []
  {
    CopyEntries(attrs, 0, |attrs|, lo, hi, to);
    CopyOwners(attrs, lo, hi, to, to);
    hide CopyRange;
    if CopyOverlaps(attrs, lo, hi, to) == [] {
      NobodyOwns(to);
    }
  }

  lemma {:induction false} MovesAre(inp: Input, moves: seq<MoveMapping>, oldPos: nat, o: Owner)
    requires AllAre(inp.attrs, o) && forall m | m in moves :: m.insertionIdx < |inp.insertions|
    ensures AllAre(CopyMoves(inp, moves, oldPos), o)
  {
    if moves == [] {
      NothingIs(o);
    } else {
      var front, m := moves[..|moves| - 1], moves[|moves| - 1];
      assert CopyMoves(inp, moves, oldPos) == CopyMoves(inp, front, oldPos) + CopyMove(inp, m, oldPos);
      hide *;
      MovesAre(inp, front, oldPos, o);
      MoveIs(inp, m, oldPos, o);
      BothAre(CopyMoves(inp, front, oldPos), CopyMove(inp, m, oldPos), o);
    }
  }

  lemma {:induction false} MoveIs(inp: Input, m: MoveMapping, oldPos: nat, o: Owner)
    requires AllAre(inp.attrs, o) && m.insertionIdx < |inp.insertions|
    ensures AllAre(CopyMove(inp, m, oldPos), o)
  {
    hide CopyOverlaps;
    if m.sourceRange.0 < m.sourceRange.1 {
      CopiesAre(inp.attrs, oldPos + m.sourceRange.0, oldPos + m.sourceRange.1,
                inp.insertions[m.insertionIdx].start + m.targetRange.0, o);
    }
  }

  lemma {:induction false} BothAre(x: seq<Attribution>, y: seq<Attribution>, o: Owner)
    requires AllAre(x, o) && AllAre(y, o)
    ensures AllAre(x + y, o)
  {
  }

  /** Copied text ends with its owner's range. */
  lemma {:induction false} AfterCopy(inp: Input, st: State, d: ByteDiff, o: Owner)
    requires ValidInput(inp) && d.op.Equal? && d.data != []
    requires AllAre(inp.attrs, o) && Owners(inp.attrs, st.oldPos) != {}
    ensures LastIs(Step(inp, st, d).out, o)
  {
    hide CopyOverlaps, Owners;
    CopiesAre(inp.attrs, st.oldPos, st.oldPos + |d.data|, st.newPos, o);
    hide AllAre;
    LastStays(st.out, CopyOverlaps(inp.attrs, st.oldPos, st.oldPos + |d.data|, st.newPos), o);
  }

  /** A blank deletion of a human checkpoint leaves nothing, or what moves bring. */
  lemma {:induction false} AfterBlank(inp: Input, st: State, d: ByteDiff, o: Owner)
    requires ValidInput(inp) && !inp.isAi && d.op.Delete? && DataIsWhitespace(inp.cc, d.data) && AllAre(inp.attrs, o)
    requires LastIs(st.out, o)
    ensures LastIs(Step(inp, st, d).out, o)
  {
    MovesAreMappings(inp.mappings, st.deletionIdx);
    var moves := MovesOf(inp.mappings, st.deletionIdx);
    hide MovesOf, CopyMoves, DataIsWhitespace, AllAre;
    MovesAre(inp, moves, st.oldPos, o);
    assert AllAre([], o) by { NothingIs(o); }
    LastStays(st.out, Added(inp, st, d), o);
  }

  lemma {:induction false} NothingIs(o: Owner)
    ensures AllAre([], o)
  {
  }

  /** Diff `m` copies, and between it and diff `n` only blank text is deleted. */
  ghost predicate AfterCopied(cc: CharClass, ds: seq<ByteDiff>, m: nat, n: nat) {
    && m < n < |ds| && ds[m].op.Equal? && ds[m].data != []
    && forall k | m < k < n :: ds[k].op.Delete? && DataIsWhitespace(cc, ds[k].data)
  }

  lemma {:induction false} LastWritten(inp: Input, ds: seq<ByteDiff>, m: nat, n: nat, o: Owner)
    requires ValidInput(inp) && !inp.isAi && AfterCopied(inp.cc, ds, m, n)
    requires AllAre(inp.attrs, o) && Owners(inp.attrs, |OldText(ds[..m])|) != {}
    ensures LastIs(StateAt(inp, ds, n).out, o)
    decreases n
  {
    hide DataIsWhitespace, Owners, AllAre, LastIs, Step, ValidInput;
    assert StateAt(inp, ds, n) == Step(inp, StateAt(inp, ds, n - 1), ds[n - 1]);
    hide StateAt, OldText;
    if n == m + 1 {
      StateIs(inp, ds, m);
      AfterCopy(inp, StateAt(inp, ds, m), ds[m], o);
    } else {
      LastWritten(inp, ds, m, n - 1, o);
      AfterBlank(inp, StateAt(inp, ds, n - 1), ds[n - 1], o);
    }
  }

  /** Then the insertion is that author's too. */
  lemma {:induction false} InheritsOwner(inp: Input, ds: seq<ByteDiff>, m: nat, n: nat, p: nat, o: Owner)
    requires ValidInput(inp) && inp.insertions == Insertions(ds) && PlainInsert(inp, ds, n)
    requires |NewText(ds[..n])| <= p < |NewText(ds[..n])| + |ds[n].data|
    requires AfterCopied(inp.cc, ds, m, n) && WrittenBy(inp.attrs, |OldText(ds)|, o)
    requires |OldText(ds[..m])| < |OldText(ds)|
    ensures Base(inp, START, ds, p) == {o}
  {
    PlainParts(inp, ds, n);
    WrittenParts(inp.attrs, |OldText(ds)|, o, |OldText(ds[..m])|);
    hide *;
    LastWritten(inp, ds, m, n, o);
    var o' := PlainPosition(inp, ds, n, p);
    InheritsFrom(inp.attrs, StateAt(inp, ds, n).out, (inp.author, inp.ts), |OldText(ds[..n])|,
                 FormattingPair(inp.cc, ds, n), o', o);
  }

  lemma {:induction false} WrittenParts(attrs: seq<Attribution>, len: nat, o: Owner, p: nat)
    requires WrittenBy(attrs, len, o) && p < len
    ensures AllAre(attrs, o) && Owners(attrs, p) != {}
  {
    hide Owners;
  }

  lemma {:induction false} InheritsFrom(attrs: seq<Attribution>, out: seq<Attribution>, current: Owner, oldPos: nat,
                                        pair: bool, o': Owner, o: Owner)
    requires Inherits(attrs, out, current, oldPos, pair, o') && AllAre(attrs, o) && LastIs(out, o)
    ensures o' == o
  {
    hide AnswersFor;
  }

  // ----- From positions to diffs -----

  /** Diff `n` writes new position `p`; the script starts at old position `a` and new position `b`. */
  ghost predicate WritesAt(ds: seq<ByteDiff>, n: nat, p: nat, a: nat, b: nat) {
    && n < |ds| && !ds[n].op.Delete?
    && b + |NewText(ds[..n])| <= p < b + |NewText(ds[..n])| + |ds[n].data|
    && SourceAt(ds, p, a, b)
       == (if ds[n].op.Equal? then Some(a + |OldText(ds[..n])| + (p - (b + |NewText(ds[..n])|))) else None)
    && InsertAt(ds, p, a, b)
       == (if ds[n].op.Equal? then None
           else Some(Insertion(b + |NewText(ds[..n])|, a + |OldText(ds[..n])|, ds[n].data)))
  }

  lemma {:induction false} WriterOf(ds: seq<ByteDiff>, p: nat, a: nat, b: nat) returns (n: nat)
    requires b <= p < b + |NewText(ds)|
    ensures WritesAt(ds, n, p, a, b)
    decreases ds
  {
    hide *;
    SomeDiff(ds);
    FirstTexts(ds);
    if p < b + |NewPart(ds[0])| {
      n := 0;
      FirstWrites(ds, p, a, b);
    } else {
      var m := WriterOf(ds[1..], p, a + |OldPart(ds[0])|, b + |NewPart(ds[0])|);
      n := m + 1;
      LaterWrites(ds, m, p, a, b);
    }
  }

  lemma {:induction false} SomeDiff(ds: seq<ByteDiff>)
    requires |NewText(ds)| > 0
    ensures ds != []
  {
  }

  lemma {:induction false} FirstWrites(ds: seq<ByteDiff>, p: nat, a: nat, b: nat)
    requires ds != [] && b <= p < b + |NewPart(ds[0])|
    ensures WritesAt(ds, 0, p, a, b)
  {
    assert ds[..0] == [];
  }

  lemma {:induction false} FirstTexts(ds: seq<ByteDiff>)
    requires ds != []
    ensures |NewText(ds)| == |NewPart(ds[0])| + |NewText(ds[1..])|
    ensures |OldText(ds)| == |OldPart(ds[0])| + |OldText(ds[1..])|
  {
  }

  lemma {:induction false} LaterWrites(ds: seq<ByteDiff>, m: nat, p: nat, a: nat, b: nat)
    requires ds != [] && b + |NewPart(ds[0])| <= p
    requires WritesAt(ds[1..], m, p, a + |OldPart(ds[0])|, b + |NewPart(ds[0])|)
    ensures WritesAt(ds, m + 1, p, a, b)
  {
    var front := ds[..m + 1];
    assert front[0] == ds[0] && front[1..] == ds[1..][..m];
    FirstTexts(front);
    assert ds[m + 1] == ds[1..][m];
    hide OldText, NewText;
  }

  lemma {:induction false} TextsGrow(ds: seq<ByteDiff>, m: nat, n: nat)
    requires m <= n <= |ds|
    ensures |NewText(ds[..m])| <= |NewText(ds[..n])| && |OldText(ds[..m])| <= |OldText(ds[..n])|
    ensures |NewText(ds[..m])| == |NewText(ds[..n])| && NoEmpty(ds) ==>
              forall k | m <= k < n :: ds[k].op.Delete?
    decreases n - m
  {
    if m < n {
      TextsGrow(ds, m, n - 1);
      TextsUpTo(ds, n - 1);
      hide OldText, NewText;
      assert ds[n - 1] in ds;
    }
  }

  /** The old text that diff `k` deletes. */
  lemma {:induction false} DeletedSlice(ds: seq<ByteDiff>, olds: string, k: nat)
    requires OldText(ds) == olds && k < |ds| && ds[k].op.Delete?
    ensures |OldText(ds[..k + 1])| == |OldText(ds[..k])| + |ds[k].data| <= |olds|
    ensures ds[k].data == olds[|OldText(ds[..k])|..|OldText(ds[..k])| + |ds[k].data|]
  {
    hide *;
    TextsUpTo(ds, k);
    assert ds == ds[..k + 1] + ds[k + 1..];
    TextAppend(ds[..k + 1], ds[k + 1..]);
    DeletedPart(ds[k]);
    MiddleSlice(OldText(ds[..k]), ds[k].data, OldText(ds[k + 1..]), olds);
  }

  lemma {:induction false} DeletedPart(d: ByteDiff)
    requires d.op.Delete?
    ensures OldPart(d) == d.data
  {
  }

  lemma {:induction false} MiddleSlice(x: string, y: string, z: string, s: string)
    requires s == x + y + z
    ensures |x| + |y| <= |s| && y == s[|x|..|x| + |y|]
  {
  }

  /** The diff that copies position `p`. */
  lemma {:induction false} WrittenCopy(ds: seq<ByteDiff>, m: nat, p: nat, q: nat)
    requires WritesAt(ds, m, p, 0, 0) && SourceAt(ds, p) == Some(q)
    ensures m < |ds| && ds[m].op.Equal? && ds[m].data != []
    ensures |NewText(ds[..m])| <= p && |OldText(ds[..m])| <= q
    ensures |OldText(ds[..m + 1])| - q == |NewText(ds[..m + 1])| - p > 0
  {
    TextsUpTo(ds, m);
    hide OldText, NewText, SourceAt, InsertAt;
  }

  lemma {:induction false} WrittenInsert(ds: seq<ByteDiff>, n: nat, s: Insertion)
    requires WritesAt(ds, n, s.start, 0, 0) && InsertAt(ds, s.start) == Some(s)
    ensures n < |ds| && ds[n] == ByteDiff(Insert, s.data)
    ensures |NewText(ds[..n])| == s.start && |OldText(ds[..n])| == s.from
  {
    hide OldText, NewText, SourceAt, InsertAt;
  }

  lemma {:induction false} Earlier(ds: seq<ByteDiff>, m: nat, n: nat)
    requires m <= |ds| && n <= |ds| && |NewText(ds[..m])| < |NewText(ds[..n])|
    ensures m < n
  {
    hide *;
    if n <= m {
      TextsGrow(ds, n, m);
    }
  }

  /** A diff between those that write two neighbouring positions deletes old text between the two. */
  lemma {:induction false} BlankBetween(cc: CharClass, ds: seq<ByteDiff>, olds: string, i: nat, n: nat, k: nat)
    requires OldText(ds) == olds && NoEmpty(ds) && i <= k < n <= |ds| && |NewText(ds[..i])| == |NewText(ds[..n])|
    requires |OldText(ds[..n])| <= |olds| && Blank(cc, olds, |OldText(ds[..i])|, |OldText(ds[..n])|)
    ensures ds[k].op.Delete? && DataIsWhitespace(cc, ds[k].data)
  {
    hide *;
    TextsGrow(ds, i, n);
    TextsGrow(ds, i, k);
    TextsGrow(ds, k + 1, n);
    DeletedSlice(ds, olds, k);
    SomeText(ds, k);
    BlankSlice(cc, olds, |OldText(ds[..i])|, |OldText(ds[..n])|, |OldText(ds[..k])|, ds[k].data);
  }

  lemma {:induction false} SomeText(ds: seq<ByteDiff>, k: nat)
    requires NoEmpty(ds) && k < |ds|
    ensures ds[k].data != []
  {
  }

  /**
   * An insertion that stands right after copied text in the new text, where only blank old text lies between: its
   * diff, and the diff that copied.
   */
  lemma {:induction false} CopiedBefore(cc: CharClass, ds: seq<ByteDiff>, olds: string, news: string, s: Insertion,
                                        q: nat)
    returns (m: nat, n: nat)
    requires IsScript(ds, olds, news) && NoEmpty(ds) && 0 < s.start < |news|
    requires InsertAt(ds, s.start) == Some(s) && SourceAt(ds, s.start - 1) == Some(q) && s.from <= |olds|
    requires Blank(cc, olds, q + 1, s.from)
    ensures n < |ds| && ds[n] == ByteDiff(Insert, s.data) && AfterCopied(cc, ds, m, n)
    ensures |NewText(ds[..n])| == s.start && |OldText(ds[..n])| == s.from && |OldText(ds[..m])| <= q
  {
    ScriptParts(ds, olds, news);
    hide *;
    n := WriterOf(ds, s.start, 0, 0);
    m := WriterOf(ds, s.start - 1, 0, 0);
    WrittenInsert(ds, n, s);
    WrittenCopy(ds, m, s.start - 1, q);
    Earlier(ds, m, n);
    TextsGrow(ds, m + 1, n);
    OnlyBlankBetween(cc, ds, olds, m, n);
  }

  lemma {:induction false} OnlyBlankBetween(cc: CharClass, ds: seq<ByteDiff>, olds: string, m: nat, n: nat)
    requires OldText(ds) == olds && NoEmpty(ds) && m < n < |ds| && ds[m].op.Equal? && ds[m].data != []
    requires |NewText(ds[..m + 1])| == |NewText(ds[..n])| && |OldText(ds[..n])| <= |olds|
    requires Blank(cc, olds, |OldText(ds[..m + 1])|, |OldText(ds[..n])|)
    ensures AfterCopied(cc, ds, m, n)
  {
    hide OldText, NewText, Blank, NoEmpty, DataIsWhitespace;
    forall k | m < k < n ensures ds[k].op.Delete? && DataIsWhitespace(cc, ds[k].data) {
      BlankBetween(cc, ds, olds, m + 1, n, k);
    }
  }

  lemma {:induction false} ScriptParts(ds: seq<ByteDiff>, olds: string, news: string)
    requires IsScript(ds, olds, news)
    ensures OldText(ds) == olds && NewText(ds) == news
  {
  }

  lemma {:induction false} BlankSlice(cc: CharClass, c: string, i: nat, j: nat, k: nat, data: string)
    requires j <= |c| && Blank(cc, c, i, j) && i <= k && k + |data| <= j && data != [] && data == c[k..k + |data|]
    ensures DataIsWhitespace(cc, data)
  {
    forall l | 0 <= l < |data| ensures cc.isWhitespace(data[l]) {
      assert data[l] == c[k + l];
    }
  }

  // ----- A whole checkpoint -----

  /**
   * The text before token `k` stands between two pairs of equal tokens, or after the last pair, or between a pair
   * and a replacement.
   */
  ghost predicate AfterPair(differ: D.Differ, w: Work, k: nat) {
    var hunks := differ(Lexemes(w.oldToks), Lexemes(w.newToks));
    && 0 < k <= |w.newToks|
    && PassesAt(k, |w.newToks|, |w.oldToks|, PartnerBefore(hunks, k), RoleAt(hunks, |w.newToks|, k)).Some?
  }

  /** Away from moves, the text before token `k` is `o`'s alone if it has no newline. */
  ghost predicate GapStays(r: Request, f: Findings, result: seq<Attribution>, w: Work, k: nat, o: Owner) {
    var lo, hi := GapStart(w.newToks, w.b, k), GapEnd(w.newToks, w.b', k);
    && lo <= hi <= |r.news|
    && ('\n' !in r.news[lo..hi] ==>
          forall p: nat | lo <= p < hi && !AroundMove(InputOf(r, f, r.attrs), p) ::
            Owners(result, p) == {o} + MovedTo(r, f, p))
  }

  ghost predicate GapsStay(r: Request, f: Findings, result: seq<Attribution>, h: HunkRecord, o: Owner) {
    && h.a' <= |r.olds| && h.b' <= |r.news|
    && var w := HunkTexts(r.cc, r.olds, h.a, h.a', r.news, h.b, h.b');
       forall k: nat | AfterPair(r.differ, w, k) :: GapStays(r, f, result, w, k, o)
  }

  /**
   * Reformatting the text of one author: in a human checkpoint over text that is all `o`'s, whatever is put on one
   * line between paired tokens is still `o`'s, whether it was there before or not.
   */
  lemma {:induction false} ReformattingKeepsOwner(r: Request, f: Findings, sorted: seq<Attribution>,
                                                  result: seq<Attribution>, s: nat, e: nat, o: Owner)
    requires D.HonestDiffer(r.differ) && DiffsFor(r, f) && IsRunOf(r, f, sorted, result) && !r.isAi
    requires WrittenBy(r.attrs, |r.olds|, o)
    requires ChangedRun(JobFor(r).ops, s, e) && !RunHunk(JobFor(r), s, e).lineAligned
    ensures GapsStay(r, f, result, RunHunk(JobFor(r), s, e), o)
  {
    var h := RunHunk(JobFor(r), s, e);
    hide *;
    RunIsAccounted(r, f, s, e);
    HunkParts(r, f, h);
    var w := HunkTexts(r.cc, r.olds, h.a, h.a', r.news, h.b, h.b');
    forall k: nat | AfterPair(r.differ, w, k) ensures GapStays(r, f, result, w, k, o) {
      var g := GapOf(r, f, h, w, k);
      GapHolds(r, f, sorted, result, h, w, k, g, o);
    }
    GapsStayIntro(r, f, result, h, o);
  }

  lemma {:induction false} GapsStayIntro(r: Request, f: Findings, result: seq<Attribution>, h: HunkRecord, o: Owner)
    requires h.a' <= |r.olds| && h.b' <= |r.news|
    requires var w := HunkTexts(r.cc, r.olds, h.a, h.a', r.news, h.b, h.b');
             forall k: nat | AfterPair(r.differ, w, k) :: GapStays(r, f, result, w, k, o)
    ensures GapsStay(r, f, result, h, o)
  {
    hide GapStays, AfterPair, HunkTexts;
  }

  /** What is known of the run in the script. */
  ghost predicate HunkFacts(r: Request, f: Findings, h: HunkRecord) {
    && IsScript(f.diffs, r.olds, r.news) && NoEmpty(f.diffs)
    && InsertedRanges(f.diffs, 0, 0, |r.news|, f.substantive)
    && HunkAccounted(r.cc, r.differ, r.olds, r.news, h, f.diffs, 0, 0, f.substantive) && !h.lineAligned
  }

  lemma {:induction false} RunIsAccounted(r: Request, f: Findings, s: nat, e: nat)
    requires D.HonestDiffer(r.differ) && DiffsFor(r, f) && !r.isAi
    requires ChangedRun(JobFor(r).ops, s, e) && !RunHunk(JobFor(r), s, e).lineAligned
    ensures HunkFacts(r, f, RunHunk(JobFor(r), s, e))
    ensures s < e <= |JobFor(r).ops|
  {
    hide IsScript, NoEmpty, InsertedRanges, HunkAccounted, LineAccounted, D.DiffSpec, RunHunk, DiffsAre, Lines;
    hide D.HonestDiffer;
    assert e <= |JobFor(r).ops|;
    assert RunAccounted(JobFor(r), f.diffs, f.substantive, s, e, |r.news|);
  }

  lemma {:induction false} HunkParts(r: Request, f: Findings, h: HunkRecord)
    requires HunkFacts(r, f, h)
    ensures h.a <= h.a' <= |r.olds| && h.b <= h.b' <= |r.news|
  {
    hide TokenHunkAccounted, GapsAccounted, IsScript, NoEmpty, InsertedRanges;
  }

  /** The text before a token that comes after a pair, and the old text at the same place. */
  datatype Gap = Gap(lo: nat, hi: nat, src: nat, to: nat)

  /** The last character before the gap is copied from the one before `src`; up to `to` the old text is blank. */
  ghost predicate GapFacts(r: Request, f: Findings, g: Gap) {
    && 0 < g.lo <= g.hi <= |r.news| && 0 < g.src <= g.to <= |r.olds|
    && Blank(r.cc, r.olds, g.src, g.to)
    && SourceAt(f.diffs, g.lo - 1) == Some((g.src - 1) as nat)
    && (GapCopied(r, f, g) || PlainInsertion(f.diffs, 0, 0, f.substantive, g.lo, g.hi, r.news[g.lo..g.hi], Some(g.to)))
  }

  ghost predicate GapCopied(r: Request, f: Findings, g: Gap) {
    g.lo <= g.hi && g.src + (g.hi - g.lo) <= |r.olds| && Copied(f.diffs, 0, 0, g.lo, g.hi, g.src)
  }

  lemma {:induction false} GapOf(r: Request, f: Findings, h: HunkRecord, w: Work, k: nat) returns (g: Gap)
    requires D.HonestDiffer(r.differ) && HunkFacts(r, f, h) && h.a' <= |r.olds| && h.b' <= |r.news|
    requires w == HunkTexts(r.cc, r.olds, h.a, h.a', r.news, h.b, h.b') && AfterPair(r.differ, w, k)
    ensures g.lo == GapStart(w.newToks, w.b, k) && g.hi == GapEnd(w.newToks, w.b', k)
    ensures GapFacts(r, f, g)
  {
    hide *;
    var os, ns := Lexemes(w.oldToks), Lexemes(w.newToks);
    var hunks := r.differ(os, ns);
    HunkParts(r, f, h);
    TextsParts(r, h, w);
    var o := PairBefore(r, w, k);
    PairedTokens(r, f, h, w, k - 1, o);
    OldGap(r.cc, r.olds, w.oldToks, w.a, w.a', o);
    NewGap(r.news, w.newToks, w.b, w.b', k);
    g := Gap(w.newToks[k - 1].end, GapEnd(w.newToks, w.b', k), w.oldToks[o].end, GapEnd(w.oldToks, w.a', o + 1));
    GapChoice(r, f, h, w, k, o, g);
    GapFactsIntro(r, f, g);
  }

  lemma {:induction false} GapFactsIntro(r: Request, f: Findings, g: Gap)
    requires 0 < g.lo <= g.hi <= |r.news| && 0 < g.src <= g.to <= |r.olds| && Blank(r.cc, r.olds, g.src, g.to)
    requires SourceAt(f.diffs, g.lo - 1) == Some((g.src - 1) as nat)
    requires || GapCopied(r, f, g)
             || PlainInsertion(f.diffs, 0, 0, f.substantive, g.lo, g.hi, r.news[g.lo..g.hi], Some(g.to))
    ensures GapFacts(r, f, g)
  {
  }

  lemma {:induction false} TextsParts(r: Request, h: HunkRecord, w: Work)
    requires h.a <= h.a' <= |r.olds| && h.b <= h.b' <= |r.news|
    requires w == HunkTexts(r.cc, r.olds, h.a, h.a', r.news, h.b, h.b')
    ensures w.olds == r.olds && w.a == h.a && w.a' == h.a' && w.news == r.news && w.b == h.b && w.b' == h.b'
    ensures w.oldToks == Tokens(r.cc, r.olds, h.a, h.a') && w.newToks == Tokens(r.cc, r.news, h.b, h.b')
    ensures Tokenizes(r.cc, r.olds, w.oldToks, w.a, w.a')
    ensures OrderedTokens(r.olds, w.oldToks, w.a, w.a') && OrderedTokens(r.news, w.newToks, w.b, w.b')
  {
    hide Tokens, Tokenizes, OrderedTokens;
    TokensTokenize(r.cc, r.olds, h.a, h.a');
    TokenizesOrdered(r.cc, r.olds, w.oldToks, h.a, h.a');
    TokensTokenize(r.cc, r.news, h.b, h.b');
    TokenizesOrdered(r.cc, r.news, w.newToks, h.b, h.b');
  }

  lemma {:induction false} PairBefore(r: Request, w: Work, k: nat) returns (o: nat)
    requires D.HonestDiffer(r.differ) && AfterPair(r.differ, w, k)
    ensures var os, ns := Lexemes(w.oldToks), Lexemes(w.newToks);
            var hunks := r.differ(os, ns);
            && 0 < k <= |w.newToks| && D.Counterpart(hunks, k - 1) == Some(o)
            && o < |w.oldToks| && w.oldToks[o].lexeme == w.newToks[k - 1].lexeme
            && PassesAt(k, |w.newToks|, |w.oldToks|, PartnerBefore(hunks, k), RoleAt(hunks, |w.newToks|, k))
               == Some(o + 1)
  {
    var os, ns := Lexemes(w.oldToks), Lexemes(w.newToks);
    var hunks := r.differ(os, ns);
    assert D.ValidHunks(os, ns, hunks);
    hide D.HonestDiffer, D.ValidHunks, D.RoleOf, RoleAt;
    D.CounterpartIsEqual(os, ns, hunks, k - 1, 0);
    o := D.Counterpart(hunks, k - 1).value;
    hide D.Counterpart, Lexemes;
  }

  /** The last character of a paired token comes from the last one of its partner. */
  lemma {:induction false} PairedTokens(r: Request, f: Findings, h: HunkRecord, w: Work, k: nat, o: nat)
    requires HunkFacts(r, f, h) && h.a' <= |r.olds| && h.b' <= |r.news|
    requires w.oldToks == Tokens(r.cc, r.olds, h.a, h.a') && w.newToks == Tokens(r.cc, r.news, h.b, h.b')
    requires OrderedTokens(r.olds, w.oldToks, h.a, h.a') && OrderedTokens(r.news, w.newToks, h.b, h.b')
    requires k < |w.newToks| && o < |w.oldToks| && w.oldToks[o].lexeme == w.newToks[k].lexeme
    requires D.Counterpart(r.differ(Lexemes(w.oldToks), Lexemes(w.newToks)), k) == Some(o)
    ensures 0 < w.newToks[k].end <= |r.news| && 0 < w.oldToks[o].end <= |r.olds|
    ensures SourceAt(f.diffs, w.newToks[k].end - 1) == Some((w.oldToks[o].end - 1) as nat)
  {
    hide Tokens, Lexemes, IsScript, NoEmpty, InsertedRanges, GapsAccounted, D.Counterpart, CoveredBy;
    var source := D.Counterpart(r.differ(Lexemes(w.oldToks), Lexemes(w.newToks)), k);
    assert TokenAccounted(f.diffs, 0, 0, f.substantive, w.oldToks, w.newToks[k], source);
    LastCopied(r, f, w.oldToks[o], w.newToks[k]);
  }

  lemma {:induction false} LastCopied(r: Request, f: Findings, x: Token, y: Token)
    requires x.start < x.end <= |r.olds| && y.start < y.end <= |r.news| && x.lexeme == y.lexeme
    requires x.lexeme == r.olds[x.start..x.end] && y.lexeme == r.news[y.start..y.end]
    requires Copied(f.diffs, 0, 0, y.start, y.end, x.start)
    ensures SourceAt(f.diffs, y.end - 1) == Some((x.end - 1) as nat)
  {
    assert |x.lexeme| == x.end - x.start && |y.lexeme| == y.end - y.start;
    hide SourceAt;
    assert SourceAt(f.diffs, y.end - 1, 0, 0) == Some(x.start + (y.end - 1 - y.start));
  }

  lemma {:induction false} OldGap(cc: CharClass, c: string, ts: seq<Token>, from: nat, to: nat, o: nat)
    requires to <= |c| && Tokenizes(cc, c, ts, from, to) && OrderedTokens(c, ts, from, to) && o < |ts|
    ensures GapStart(ts, from, o + 1) == ts[o].end && 0 < ts[o].end <= GapEnd(ts, to, o + 1) <= to
    ensures Blank(cc, c, ts[o].end, GapEnd(ts, to, o + 1))
  {
    BlankAfterToken(cc, c, ts, from, to, o);
    hide Tokenizes, Blank;
  }

  lemma {:induction false} NewGap(c: string, ts: seq<Token>, from: nat, to: nat, k: nat)
    requires OrderedTokens(c, ts, from, to) && 0 < k <= |ts|
    ensures GapStart(ts, from, k) == ts[k - 1].end && 0 < ts[k - 1].end <= GapEnd(ts, to, k) <= to
  {
  }

  lemma {:induction false} GapChoice(r: Request, f: Findings, h: HunkRecord, w: Work, k: nat, o: nat, g: Gap)
    requires HunkFacts(r, f, h) && h.a' <= |r.olds| && h.b' <= |r.news|
    requires w == HunkTexts(r.cc, r.olds, h.a, h.a', r.news, h.b, h.b') && w.olds == r.olds && w.news == r.news
    requires k <= |w.newToks| && PassesAt(k, |w.newToks|, |w.oldToks|,
                                          PartnerBefore(r.differ(Lexemes(w.oldToks), Lexemes(w.newToks)), k),
                                          RoleAt(r.differ(Lexemes(w.oldToks), Lexemes(w.newToks)), |w.newToks|, k))
                                 == Some(o + 1)
    requires g == Gap(GapStart(w.newToks, w.b, k), GapEnd(w.newToks, w.b', k),
                      GapStart(w.oldToks, w.a, o + 1), GapEnd(w.oldToks, w.a', o + 1))
    requires g.lo <= g.hi <= |r.news| && g.src <= g.to <= |r.olds|
    ensures || GapCopied(r, f, g)
            || PlainInsertion(f.diffs, 0, 0, f.substantive, g.lo, g.hi, r.news[g.lo..g.hi], Some(g.to))
  {
    GapHere(r, f, h, w, k);
    var hunks := r.differ(Lexemes(w.oldToks), Lexemes(w.newToks));
    hide HunkTexts, HunkFacts, Lexemes, PartnerBefore, RoleAt, PlainInsertion, Copied, Inserted, CoveredBy;
    GapCases(r, f, w, k, o, g, PartnerBefore(hunks, k), RoleAt(hunks, |w.newToks|, k));
  }

  lemma {:induction false} GapHere(r: Request, f: Findings, h: HunkRecord, w: Work, k: nat)
    requires HunkFacts(r, f, h) && h.a' <= |r.olds| && h.b' <= |r.news| && k <= |w.newToks|
    requires w == HunkTexts(r.cc, r.olds, h.a, h.a', r.news, h.b, h.b')
    ensures var hunks := r.differ(Lexemes(w.oldToks), Lexemes(w.newToks));
            GapAccounted(w, f.diffs, 0, 0, f.substantive, k, PartnerBefore(hunks, k), RoleAt(hunks, |w.newToks|, k))
  {
    hide IsScript, NoEmpty, InsertedRanges, TokenHunkAccounted, HunkTexts, GapAccounted, PartnerBefore, RoleAt, Lexemes;
  }

  lemma {:induction false} GapCases(r: Request, f: Findings, w: Work, k: nat, o: nat, g: Gap, before: Option<nat>,
                                    role: D.Role)
    requires GapAccounted(w, f.diffs, 0, 0, f.substantive, k, before, role) && w.olds == r.olds && w.news == r.news
    requires k <= |w.newToks| && PassesAt(k, |w.newToks|, |w.oldToks|, before, role) == Some(o + 1)
    requires g == Gap(GapStart(w.newToks, w.b, k), GapEnd(w.newToks, w.b', k),
                      GapStart(w.oldToks, w.a, o + 1), GapEnd(w.oldToks, w.a', o + 1))
    requires g.lo <= g.hi <= |r.news| && g.src <= g.to <= |r.olds|
    ensures || GapCopied(r, f, g)
            || PlainInsertion(f.diffs, 0, 0, f.substantive, g.lo, g.hi, r.news[g.lo..g.hi], Some(g.to))
  {
    hide PlainInsertion, Copied, Inserted, CoveredBy, GapStart, GapEnd;
    assert k < |w.newToks| ==> !role.Continues?;
    if SameText(r.olds, g.src, g.to, r.news, g.lo, g.hi) {
      SameSliceSameLength(r.olds, g.src, g.to, r.news, g.lo, g.hi);
    }
  }

  lemma {:induction false} GapHolds(r: Request, f: Findings, sorted: seq<Attribution>, result: seq<Attribution>,
                                    h: HunkRecord, w: Work, k: nat, g: Gap, o: Owner)
    requires IsRunOf(r, f, sorted, result) && HunkFacts(r, f, h) && !r.isAi && WrittenBy(r.attrs, |r.olds|, o)
    requires g.lo == GapStart(w.newToks, w.b, k) && g.hi == GapEnd(w.newToks, w.b', k) && GapFacts(r, f, g)
    ensures GapStays(r, f, result, w, k, o)
  {
    assert g.lo <= g.hi <= |r.news|;
    hide IsRunOf, HunkFacts, WrittenBy, GapFacts, Owners, MovedTo, AroundMove, InputOf;
    if '\n' !in r.news[g.lo..g.hi] {
      forall p: nat | g.lo <= p < g.hi && !AroundMove(InputOf(r, f, r.attrs), p)
        ensures Owners(result, p) == {o} + MovedTo(r, f, p)
      {
        GapPosition(r, f, sorted, result, h, g, p, o);
      }
    }
  }

  lemma {:induction false} GapPosition(r: Request, f: Findings, sorted: seq<Attribution>, result: seq<Attribution>,
                                       h: HunkRecord, g: Gap, p: nat, o: Owner)
    requires IsRunOf(r, f, sorted, result) && HunkFacts(r, f, h) && !r.isAi && WrittenBy(r.attrs, |r.olds|, o)
    requires GapFacts(r, f, g) && '\n' !in r.news[g.lo..g.hi]
    requires g.lo <= p < g.hi && !AroundMove(InputOf(r, f, r.attrs), p)
    ensures Owners(result, p) == {o} + MovedTo(r, f, p)
  {
    hide *;
    GapParts(r, f, h, g);
    RunParts(r, f, sorted, result);
    SortedWriter(r, sorted, o);
    var base := RunPosition(r, f, sorted, result, p);
    if GapCopied(r, f, g) {
      CopiedFrom(r, f, g, p);
      ExplainedCopy(InputOf(r, f, sorted), f.diffs, p, g.src + (p - g.lo), base);
      OneWriter(sorted, |r.olds|, o, g.src + (p - g.lo));
    } else {
      InsertedGap(r, f, sorted, g, p, o);
    }
  }

  lemma {:induction false} GapParts(r: Request, f: Findings, h: HunkRecord, g: Gap)
    requires HunkFacts(r, f, h) && GapFacts(r, f, g)
    ensures 0 < g.lo <= g.hi <= |r.news| && IsScript(f.diffs, r.olds, r.news)
    ensures GapCopied(r, f, g)
            || PlainInsertion(f.diffs, 0, 0, f.substantive, g.lo, g.hi, r.news[g.lo..g.hi], Some(g.to))
    ensures GapCopied(r, f, g) ==> g.src + (g.hi - g.lo) <= |r.olds|
    ensures NoEmpty(f.diffs) && Blank(r.cc, r.olds, g.src, g.to) && 0 < g.src <= g.to <= |r.olds|
    ensures SourceAt(f.diffs, g.lo - 1) == Some((g.src - 1) as nat)
  {
    hide IsScript, NoEmpty, SourceAt, Copied, PlainInsertion, Blank, HunkAccounted, InsertedRanges;
  }

  lemma {:induction false} RunParts(r: Request, f: Findings, sorted: seq<Attribution>, result: seq<Attribution>)
    requires IsRunOf(r, f, sorted, result)
    ensures SortedVersion(sorted, r.attrs) && ValidInput(InputOf(r, f, sorted))
    ensures var inp := InputOf(r, f, sorted);
            && inp == Input(r.cc, sorted, r.author, Insertions(f.diffs), f.mappings, r.ts, f.substantive, r.isAi)
            && Separated(f.substantive)
  {
  }

  lemma {:induction false} SortedWriter(r: Request, sorted: seq<Attribution>, o: Owner)
    requires SortedVersion(sorted, r.attrs) && WrittenBy(r.attrs, |r.olds|, o)
    ensures WrittenBy(sorted, |r.olds|, o)
  {
    hide Owners;
    forall p: nat | p < |r.olds| ensures Owners(sorted, p) != {} {
      SameMembersSameOwners(sorted, r.attrs, p);
    }
  }

  lemma {:induction false} CopiedFrom(r: Request, f: Findings, g: Gap, p: nat)
    requires GapCopied(r, f, g) && g.lo <= p < g.hi
    ensures SourceAt(f.diffs, p, 0, 0) == Some(g.src + (p - g.lo))
  {
  }

  lemma {:induction false} ExplainedCopy(inp: Input, ds: seq<ByteDiff>, p: nat, q: nat, owners: set<Owner>)
    requires SourceAt(ds, p, 0, 0) == Some(q) && Explained(inp, ds, 0, 0, p, owners)
    ensures owners == Owners(inp.attrs, q)
  {
    hide SourceAt, Owners;
  }

  lemma {:induction false} OneWriter(attrs: seq<Attribution>, len: nat, o: Owner, p: nat)
    requires WrittenBy(attrs, len, o) && p < len
    ensures Owners(attrs, p) == {o}
  {
    assert Owners(attrs, p) != {};
    forall x | x in Owners(attrs, p) ensures x == o {
    }
  }

  lemma {:induction false} InsertedGap(r: Request, f: Findings, sorted: seq<Attribution>, g: Gap, p: nat, o: Owner)
    requires SortedVersion(sorted, r.attrs) && ValidInput(InputOf(r, f, sorted)) && WrittenBy(sorted, |r.olds|, o)
    requires IsScript(f.diffs, r.olds, r.news) && NoEmpty(f.diffs) && !r.isAi
    requires 0 < g.lo <= p < g.hi <= |r.news| && 0 < g.src <= g.to <= |r.olds|
    requires PlainInsertion(f.diffs, 0, 0, f.substantive, g.lo, g.hi, r.news[g.lo..g.hi], Some(g.to))
    requires SourceAt(f.diffs, g.lo - 1) == Some((g.src - 1) as nat) && Blank(r.cc, r.olds, g.src, g.to)
    requires '\n' !in r.news[g.lo..g.hi] && !AroundMove(InputOf(r, f, r.attrs), p)
    ensures Base(InputOf(r, f, sorted), START, f.diffs, p) == {o}
  {
    hide *;
    var inp, ds := InputOf(r, f, sorted), f.diffs;
    var s := Insertion(g.lo, g.to, r.news[g.lo..g.hi]);
    InputParts(r, f, sorted);
    PlainAt(ds, f.substantive, g.lo, g.hi, s.data, g.to);
    var m, n := CopiedBefore(r.cc, ds, r.olds, r.news, s, g.src - 1);
    ScriptParts(ds, r.olds, r.news);
    NotSubstantive(inp, ds, g.lo, g.hi, s.data, g.to);
    NoMoveHere(inp, ds, n, p);
    PlainIntro(inp, ds, n);
    InheritsOwner(inp, ds, m, n, p, o);
  }

  lemma {:induction false} InputParts(r: Request, f: Findings, sorted: seq<Attribution>)
    ensures var inp := InputOf(r, f, sorted);
            && inp == Input(r.cc, sorted, r.author, Insertions(f.diffs), f.mappings, r.ts, f.substantive, r.isAi)
    ensures forall p: nat :: AroundMove(InputOf(r, f, sorted), p) <==> AroundMove(InputOf(r, f, r.attrs), p)
  {
    hide Insertions;
  }

  lemma {:induction false} PlainAt(ds: seq<ByteDiff>, rs: seq<Range>, lo: nat, hi: nat, text: string, to: nat)
    requires PlainInsertion(ds, 0, 0, rs, lo, hi, text, Some(to)) && lo < hi
    ensures InsertAt(ds, lo) == Some(Insertion(lo, to, text))
  {
    hide InsertAt;
    assert InsertAt(ds, lo, 0, 0).Some?;
  }

  lemma {:induction false} NotSubstantive(inp: Input, ds: seq<ByteDiff>, lo: nat, hi: nat, text: string, to: nat)
    requires PlainInsertion(ds, 0, 0, inp.substantive, lo, hi, text, Some(to)) && |text| == hi - lo
    requires ValidInput(inp)
    ensures !Substantive(inp, lo, |text|)
  {
    hide InsertAt;
    assert forall p: nat | lo <= p < hi :: !InSome(inp.substantive, p);
    hide PlainInsertion;
    if lo == hi {
      return;
    }
    forall r | r in inp.substantive ensures !Ranges.Overlaps(r, (lo, hi)) {
      if Ranges.Overlaps(r, (lo, hi)) {
        var q := CommonPoint(inp.substantive, r, lo, hi);
      }
    }
  }

  lemma {:induction false} CommonPoint(rs: seq<Range>, r: Range, lo: nat, hi: nat) returns (q: nat)
    requires r in rs && r.0 < r.1 && lo < hi && Ranges.Overlaps(r, (lo, hi))
    ensures lo <= q < hi && InSome(rs, q)
  {
    q := Max(r.0, lo);
    assert Contains(r, q);
  }

  /** The insertion that diff `n` makes, in the catalog. */
  lemma {:induction false} InsertionOf(ds: seq<ByteDiff>, n: nat, b: nat)
    requires n < |ds| && ds[n].op.Insert?
    ensures var i := |Insertions(ds[..n], b)|;
            && i < |Insertions(ds, b)|
            && Insertions(ds, b)[i] == Segment(b + |NewText(ds[..n])|, b + |NewText(ds[..n])| + |ds[n].data|)
  {
    hide *;
    if n == 0 {
      InsertionFirst(ds, b);
    } else {
      InsertionOf(ds[1..], n - 1, b + |NewPart(ds[0])|);
      InsertionLater(ds, n, b);
    }
  }

  lemma {:induction false} InsertionFirst(ds: seq<ByteDiff>, b: nat)
    requires ds != [] && ds[0].op.Insert?
    ensures |Insertions(ds[..0], b)| == 0 < |Insertions(ds, b)| && |NewText(ds[..0])| == 0
    ensures Insertions(ds, b)[0] == Segment(b, b + |ds[0].data|)
  {
    assert ds[..0] == [];
  }

  lemma {:induction false} InsertionLater(ds: seq<ByteDiff>, n: nat, b: nat)
    requires 0 < n < |ds| && ds[n].op.Insert?
    requires var i, b' := |Insertions(ds[1..][..n - 1], b + |NewPart(ds[0])|)|, b + |NewPart(ds[0])|;
             && i < |Insertions(ds[1..], b')|
             && Insertions(ds[1..], b')[i] == Segment(b' + |NewText(ds[1..][..n - 1])|,
                                                      b' + |NewText(ds[1..][..n - 1])| + |ds[n].data|)
    ensures var i := |Insertions(ds[..n], b)|;
            && i < |Insertions(ds, b)|
            && Insertions(ds, b)[i] == Segment(b + |NewText(ds[..n])|, b + |NewText(ds[..n])| + |ds[n].data|)
  {
    hide *;
    assert ds[..n][0] == ds[0] && ds[..n][1..] == ds[1..][..n - 1];
    InsertionsHead(ds, b);
    InsertionsHead(ds[..n], b);
    FirstText(ds, n);
  }

  lemma {:induction false} InsertionsHead(ds: seq<ByteDiff>, b: nat)
    requires ds != []
    ensures Insertions(ds, b)
         == (if ds[0].op.Insert? then [Segment(b, b + |ds[0].data|)] else [])
            + Insertions(ds[1..], b + |NewPart(ds[0])|)
  {
  }

  lemma {:induction false} NoMoveHere(inp: Input, ds: seq<ByteDiff>, n: nat, p: nat)
    requires inp.insertions == Insertions(ds) && n < |ds| && ds[n].op.Insert? && !AroundMove(inp, p)
    requires |NewText(ds[..n])| <= p < |NewText(ds[..n])| + |ds[n].data|
    ensures TargetsOf(inp.mappings, |Insertions(ds[..n])|) == []
  {
    hide *;
    InsertionOf(ds, n, 0);
    InsertionsApart(ds, 0);
    WithinIntro(inp.insertions[|Insertions(ds[..n])|], p);
    TargetsAt(inp, |Insertions(ds[..n])|, p);
  }

  lemma {:induction false} WithinIntro(s: Segment, p: nat)
    requires s.start <= p < s.end
    ensures Within(s, p)
  {
  }

  lemma {:induction false} PlainIntro(inp: Input, ds: seq<ByteDiff>, n: nat)
    requires n < |ds| && ds[n].op.Insert? && !inp.isAi && '\n' !in ds[n].data
    requires !Substantive(inp, |NewText(ds[..n])|, |ds[n].data|) && TargetsOf(inp.mappings, |Insertions(ds[..n])|) == []
    ensures PlainInsert(inp, ds, n)
  {
  }
}
