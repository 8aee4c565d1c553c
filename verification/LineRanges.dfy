/**
 * Line ranges of the authorship log: set operations on ranges and lists of ranges, shifting after
 * an insertion, and run-length compression of line numbers.
 */
module LineRanges {
  import opened Prelude
  import L = LineOwnership

  const U32_MAX := 0xFFFF_FFFF

  type u32 = n: int | 0 <= n <= U32_MAX
  type i32 = n: int | -0x8000_0000 <= n <= 0x7FFF_FFFF

  datatype LineRange = Single(line: u32) | Range(start: u32, end: u32)

  function First(r: LineRange): u32 {
    match r
    case Single(l) => l
    case Range(start, _) => start
  }

  function Last(r: LineRange): u32 {
    match r
    case Single(l) => l
    case Range(_, end) => end
  }

  predicate WellFormed(r: LineRange) {
    First(r) <= Last(r)
  }

  /** `contains`. */
  predicate Contains(r: LineRange, line: u32) {
    match r
    case Single(l) => l == line
    case Range(start, end) => line >= start && line <= end
  }

  /** `overlaps`. */
  predicate Overlaps(a: LineRange, b: LineRange) {
    match (a, b)
    case (Single(l1), Single(l2)) => l1 == l2
    case (Single(l), Range(start, end)) => l >= start && l <= end
    case (Range(start, end), Single(l)) => l >= start && l <= end
    case (Range(start1, end1), Range(start2, end2)) => start1 <= end2 && start2 <= end1
  }

  /** `overlaps` asks for a common line. */
  lemma {:induction false} OverlapsIsCommonLine(a: LineRange, b: LineRange)
    requires WellFormed(a) && WellFormed(b)
    ensures Overlaps(a, b) <==> exists l: u32 :: Contains(a, l) && Contains(b, l)
  {
    if Overlaps(a, b) {
      var l: u32 := if First(a) <= First(b) then First(b) else First(a);
      assert Contains(a, l) && Contains(b, l);
    }
  }

  // ----- Removal -----

  /** `remove`: what is left of `a`. */
  function Remove(a: LineRange, b: LineRange): seq<LineRange> {
    match (a, b)
    case (Single(l), Single(r)) => if l == r then [] else [a]
    case (Single(l), Range(start, end)) => if l >= start && l <= end then [] else [a]
    case (Range(start, end), Single(r)) =>
      if r < start || r > end then [a]
      else if r == start && r == end then []
      else if r == start then [Range(start + 1, end)]
      else if r == end then [Range(start, end - 1)]
      else [Range(start, r - 1), Range(r + 1, end)]
    case (Range(start1, end1), Range(start2, end2)) =>
      if start2 > end1 || end2 < start1 then [a]
      else (if start1 < start2 then [Range(start1, start2 - 1)] else [])
           + (if end1 > end2 then [Range(end2 + 1, end1)] else [])
  }

  /** Some range of the list contains the line. */
  ghost predicate Covers(rs: seq<LineRange>, line: u32) {
    exists k | 0 <= k < |rs| :: Contains(rs[k], line)
  }

  ghost predicate Apart(a: LineRange, b: LineRange) {
    forall l: u32 :: !(Contains(a, l) && Contains(b, l))
  }

  ghost predicate Disjoint(rs: seq<LineRange>) {
    forall i, j | 0 <= i < j < |rs| :: Apart(rs[i], rs[j])
  }

  predicate AllWellFormed(rs: seq<LineRange>) {
    forall k | 0 <= k < |rs| :: WellFormed(rs[k])
  }

  lemma {:induction false} CoversConcat(a: seq<LineRange>, b: seq<LineRange>, line: u32)
    ensures Covers(a + b, line) <==> Covers(a, line) || Covers(b, line)
  {
    if Covers(a, line) {
      var k :| 0 <= k < |a| && Contains(a[k], line);
      assert (a + b)[k] == a[k];
    }
    if Covers(b, line) {
      var k :| 0 <= k < |b| && Contains(b[k], line);
      assert (a + b)[|a| + k] == b[k];
    }
  }

  lemma {:induction false} CoversOne(r: LineRange, line: u32)
    ensures Covers([r], line) <==> Contains(r, line)
    ensures !Covers([], line)
  {
    if Contains(r, line) {
      assert Contains([r][0], line);
    }
  }

  lemma {:induction false} CoversTwo(r: LineRange, q: LineRange, line: u32)
    ensures Covers([r, q], line) <==> Contains(r, line) || Contains(q, line)
  {
    assert [r, q] == [r] + [q];
    CoversConcat([r], [q], line);
    CoversOne(r, line);
    CoversOne(q, line);
  }

  lemma {:induction false} CoversShort(rs: seq<LineRange>, line: u32)
    ensures |rs| == 0 ==> !Covers(rs, line)
    ensures |rs| == 1 ==> (Covers(rs, line) <==> Contains(rs[0], line))
    ensures |rs| == 2 ==> (Covers(rs, line) <==> Contains(rs[0], line) || Contains(rs[1], line))
  {
    if |rs| == 1 {
      assert rs == [rs[0]];
      CoversOne(rs[0], line);
    } else if |rs| == 2 {
      assert rs == [rs[0], rs[1]];
      CoversTwo(rs[0], rs[1], line);
    }
  }

  /** `remove` is set difference, even when a range is written backwards. */
  lemma {:induction false} RemoveIsDifference(a: LineRange, b: LineRange, line: u32)
    ensures Covers(Remove(a, b), line) <==> Contains(a, line) && !Contains(b, line)
  {
    hide Covers;
    assert |Remove(a, b)| <= 2;
    CoversShort(Remove(a, b), line);
  }

  lemma {:induction false} RemoveIsTidy(a: LineRange, b: LineRange)
    requires WellFormed(a) && WellFormed(b)
    ensures AllWellFormed(Remove(a, b)) && Disjoint(Remove(a, b))
  {
  }

  /** One removal from every range of a list. */
  ghost function RemovedOne(rs: seq<LineRange>, b: LineRange): seq<LineRange> {
    if rs == [] then [] else RemovedOne(rs[..|rs| - 1], b) + Remove(rs[|rs| - 1], b)
  }

  ghost function RemovedAll(rs: seq<LineRange>, bs: seq<LineRange>): seq<LineRange> {
    if bs == [] then rs else RemovedOne(RemovedAll(rs, bs[..|bs| - 1]), bs[|bs| - 1])
  }

  lemma {:induction false} RemovedOneMeaning(rs: seq<LineRange>, b: LineRange, line: u32)
    ensures Covers(RemovedOne(rs, b), line) <==> Covers(rs, line) && !Contains(b, line)
  {
    if rs != [] {
      hide Covers, Contains, Remove;
      var init, last := rs[..|rs| - 1], rs[|rs| - 1];
      RemovedOneMeaning(init, b, line);
      RemoveIsDifference(last, b, line);
      CoversConcat(RemovedOne(init, b), Remove(last, b), line);
      CoversConcat(init, [last], line);
      CoversOne(last, line);
      assert rs == init + [last];
    } else {
      CoversShort(rs, line);
    }
  }

  /** Removing a list of ranges takes away exactly their lines. */
  lemma {:induction false} RemovedAllMeaning(rs: seq<LineRange>, bs: seq<LineRange>, line: u32)
    ensures Covers(RemovedAll(rs, bs), line) <==> Covers(rs, line) && !Covers(bs, line)
  {
    hide Covers, Contains;
    if bs != [] {
      var init, last := bs[..|bs| - 1], bs[|bs| - 1];
      RemovedAllMeaning(rs, init, line);
      RemovedOneMeaning(RemovedAll(rs, init), last, line);
      CoversConcat(init, [last], line);
      CoversOne(last, line);
      assert bs == init + [last];
    } else {
      CoversShort(bs, line);
    }
  }

  lemma {:induction false} DisjointConcat(a: seq<LineRange>, b: seq<LineRange>)
    requires Disjoint(a) && Disjoint(b)
    requires forall l: u32 :: !(Covers(a, l) && Covers(b, l))
    ensures Disjoint(a + b)
  {
    forall i, j, l: u32 | 0 <= i < |a| <= j < |a| + |b| ensures !(Contains((a + b)[i], l) && Contains((a + b)[j], l)) {
      assert (a + b)[i] == a[i] && (a + b)[j] == b[j - |a|];
      if Contains(a[i], l) && Contains(b[j - |a|], l) {
        assert Covers(a, l) && Covers(b, l);
      }
    }
    assert forall i, j | 0 <= i < j < |a| :: (a + b)[i] == a[i] && (a + b)[j] == a[j];
    forall i, j | |a| <= i < j < |a| + |b| ensures Apart((a + b)[i], (a + b)[j]) {
      assert Apart(b[i - |a|], b[j - |a|]);
    }
  }

  lemma {:induction false} LastApart(rs: seq<LineRange>, l: u32)
    requires rs != [] && Disjoint(rs) && Contains(rs[|rs| - 1], l)
    ensures !Covers(rs[..|rs| - 1], l)
  {
    var front := rs[..|rs| - 1];
    forall k | 0 <= k < |front| ensures !Contains(front[k], l) {
      assert Apart(rs[k], rs[|rs| - 1]);
    }
  }

  lemma {:induction false} TidyInit(rs: seq<LineRange>)
    requires rs != [] && AllWellFormed(rs) && Disjoint(rs)
    ensures AllWellFormed(rs[..|rs| - 1]) && Disjoint(rs[..|rs| - 1]) && WellFormed(rs[|rs| - 1])
  {
  }

  lemma {:induction false} WellFormedConcat(a: seq<LineRange>, b: seq<LineRange>)
    requires AllWellFormed(a) && AllWellFormed(b)
    ensures AllWellFormed(a + b)
  {
  }

  lemma {:induction false} RemovedOneTidy(rs: seq<LineRange>, b: LineRange)
    requires AllWellFormed(rs) && Disjoint(rs) && WellFormed(b)
    ensures AllWellFormed(RemovedOne(rs, b)) && Disjoint(RemovedOne(rs, b))
  {
    if rs != [] {
      hide *;
      var init, last := rs[..|rs| - 1], rs[|rs| - 1];
      TidyInit(rs);
      RemovedOneTidy(init, b);
      RemoveIsTidy(last, b);
      RemovedOneUnfold(rs, b);
      WellFormedConcat(RemovedOne(init, b), Remove(last, b));
      forall l: u32 ensures !(Covers(RemovedOne(init, b), l) && Covers(Remove(last, b), l)) {
        RemovedOneMeaning(init, b, l);
        RemoveIsDifference(last, b, l);
        if Contains(last, l) {
          LastApart(rs, l);
        }
      }
      DisjointConcat(RemovedOne(init, b), Remove(last, b));
    }
  }

  lemma {:induction false} RemovedOneUnfold(rs: seq<LineRange>, b: LineRange)
    requires rs != []
    ensures RemovedOne(rs, b) == RemovedOne(rs[..|rs| - 1], b) + Remove(rs[|rs| - 1], b)
  {
  }

  /** Removal keeps a list of ranges well-formed and pairwise disjoint. */
  lemma {:induction false} RemovedAllTidy(rs: seq<LineRange>, bs: seq<LineRange>)
    requires AllWellFormed(rs) && Disjoint(rs) && AllWellFormed(bs)
    ensures AllWellFormed(RemovedAll(rs, bs)) && Disjoint(RemovedAll(rs, bs))
  {
    if bs != [] {
      RemovedAllTidy(rs, bs[..|bs| - 1]);
      RemovedOneTidy(RemovedAll(rs, bs[..|bs| - 1]), bs[|bs| - 1]);
    }
  }

  // ----- Shifting -----

  function ShiftLine(line: u32, point: u32, offset: i32): Option<u32> {
    if line >= point then
      if 0 <= line + offset <= U32_MAX then Some(line + offset) else None
    else Some(line)
  }

  /** A range of one line is written as a single line. */
  function MakeRange(start: u32, end: u32): LineRange {
    if start == end then Single(start) else Range(start, end)
  }

  /** `shift`. */
  function Shift(r: LineRange, point: u32, offset: i32): Option<LineRange> {
    match r
    case Single(l) =>
      var line := ShiftLine(l, point, offset);
      if line.None? then None else Some(Single(line.value))
    case Range(start, end) =>
      var newStart := ShiftLine(start, point, offset);
      if newStart.None? then None else
      var newEnd := ShiftLine(end, point, offset);
      if newEnd.None? then None
      else if newStart.value <= newEnd.value then Some(MakeRange(newStart.value, newEnd.value))
      else None
  }

  /** The line numbers of a shifted range; none for one that is dropped. */
  predicate ShiftHas(r: LineRange, point: u32, offset: i32, l: u32) {
    Shift(r, point, offset).Some? && Contains(Shift(r, point, offset).value, l)
  }

  /**
   * Line `l` belongs to the range after the change.  An insertion of `offset` lines before line `point` keeps
   * earlier lines, moves later ones, and the new lines belong to a range that they are strictly inside.  A
   * negative offset deletes the lines just before line `point`: earlier ones stay and later ones move up.
   */
  predicate AfterChange(r: LineRange, point: u32, offset: i32, l: u32) {
    || (l < point && l < point + offset && Contains(r, l))
    || (l >= point + offset && 0 <= l - offset <= U32_MAX && l - offset >= point && Contains(r, l - offset))
    || (point <= l < point + offset && First(r) < point <= Last(r))
  }

  /**
   * When shifting a range is right.  An insertion must not push part of it past the largest number; a deletion
   * must not reach its last line only, nor its first line only, nor push part of it below 0.
   */
  predicate ShiftFits(r: LineRange, point: u32, offset: i32) {
    if offset >= 0 then
      Last(r) < point || Last(r) + offset <= U32_MAX || (First(r) >= point && First(r) + offset > U32_MAX)
    else if Last(r) < point then Last(r) < point + offset
    else if First(r) >= point then First(r) + offset >= 0 || Last(r) + offset < 0
    else First(r) <= point + offset || First(r) == 0 || Last(r) + offset < 0
  }

  lemma {:induction false} ShiftFitsSuffices(r: LineRange, point: u32, offset: i32, l: u32)
    requires WellFormed(r) && ShiftFits(r, point, offset)
    ensures ShiftHas(r, point, offset, l) <==> AfterChange(r, point, offset, l)
  {
  }

  /** A line that is wrong where the condition fails. */
  lemma {:induction false} ShiftMisfit(r: LineRange, point: u32, offset: i32) returns (l: u32)
    requires WellFormed(r) && !ShiftFits(r, point, offset)
    ensures ShiftHas(r, point, offset, l) != AfterChange(r, point, offset, l)
  {
    if offset >= 0 {
      l := if First(r) < point then First(r) else First(r) + offset;
    } else if Last(r) < point {
      l := Last(r);
    } else if First(r) >= point {
      l := Last(r) + offset;
    } else {
      l := if point + offset >= 0 then point + offset else 0;
    }
  }

  /** `shift` gives exactly the lines of the range after the change, exactly if the range fits the change. */
  lemma {:induction false} ShiftIsExactIff(r: LineRange, point: u32, offset: i32)
    requires WellFormed(r)
    ensures (forall l: u32 :: ShiftHas(r, point, offset, l) <==> AfterChange(r, point, offset, l))
       <==> ShiftFits(r, point, offset)
  {
    hide ShiftHas, AfterChange, ShiftFits;
    if ShiftFits(r, point, offset) {
      forall l: u32 ensures ShiftHas(r, point, offset, l) <==> AfterChange(r, point, offset, l) {
        ShiftFitsSuffices(r, point, offset, l);
      }
    } else {
      var l := ShiftMisfit(r, point, offset);
    }
  }

  /** When a range survives the shift at all. */
  lemma {:induction false} ShiftSurvivesIff(r: LineRange, point: u32, offset: i32)
    requires WellFormed(r)
    ensures Shift(r, point, offset).Some?
       <==> Last(r) < point
            || (First(r) >= point && First(r) + offset >= 0 && Last(r) + offset <= U32_MAX)
            || (First(r) < point <= Last(r) && First(r) <= Last(r) + offset <= U32_MAX)
  {
  }

  /** Lines 6 to 10 are deleted: lines 11 and 12 of the range become 6 and 7, but only line 7 is kept. */
  lemma {:induction false} DeletionLosesLine()
    ensures Shift(Range(7, 12), 11, -5) == Some(Single(7))
    ensures AfterChange(Range(7, 12), 11, -5, 6) && AfterChange(Range(7, 12), 11, -5, 7)
  {
    assert MakeRange(7, 7) == Single(7);
  }

  /** Deleting the inserted lines again undoes an insertion. */
  lemma {:induction false} ShiftUndone(r: LineRange, point: u32, count: i32)
    requires WellFormed(r) && count >= 0 && point + count <= U32_MAX && Shift(r, point, count).Some?
    ensures Shift(Shift(r, point, count).value, point + count, -count) == Some(MakeRange(First(r), Last(r)))
  {
  }

  ghost function ShiftedAll(rs: seq<LineRange>, point: u32, offset: i32): seq<LineRange> {
    if rs == [] then []
    else
      var shifted := Shift(rs[|rs| - 1], point, offset);
      ShiftedAll(rs[..|rs| - 1], point, offset) + if shifted.Some? then [shifted.value] else []
  }

  /** Some range of the list has line `l` after the shift. */
  ghost predicate AnyShiftHas(rs: seq<LineRange>, point: u32, offset: i32, l: u32) {
    exists k | 0 <= k < |rs| :: ShiftHas(rs[k], point, offset, l)
  }

  lemma {:induction false} ShiftedAllMeaning(rs: seq<LineRange>, point: u32, offset: i32, l: u32)
    ensures Covers(ShiftedAll(rs, point, offset), l) <==> AnyShiftHas(rs, point, offset, l)
  {
    if rs != [] {
      var init, last := rs[..|rs| - 1], rs[|rs| - 1];
      ShiftedAllMeaning(init, point, offset, l);
      assert rs == init + [last];
      assert AnyShiftHas(rs, point, offset, l)
        <==> AnyShiftHas(init, point, offset, l) || ShiftHas(last, point, offset, l);
      var more := if Shift(last, point, offset).Some? then [Shift(last, point, offset).value] else [];
      CoversConcat(ShiftedAll(init, point, offset), more, l);
      CoversShort(more, l);
      hide AnyShiftHas, Shift, Contains;
    }
  }

  ghost predicate AllFit(rs: seq<LineRange>, point: u32, offset: i32) {
    forall k | 0 <= k < |rs| :: WellFormed(rs[k]) && ShiftFits(rs[k], point, offset)
  }

  /** A deletion, where no range starts or ends among the deleted lines: exactly the other lines are left, moved up. */
  lemma {:induction false} DeletedFromAll(rs: seq<LineRange>, point: u32, count: int, l: u32)
    requires 0 < count <= 0x8000_0000 && AllFit(rs, point, -count)
    ensures Covers(ShiftedAll(rs, point, -count), l)
       <==> (l < point - count && Covers(rs, l))
            || (l + count >= point && l + count <= U32_MAX && Covers(rs, l + count))
  {
    hide ShiftedAll, Covers, AnyShiftHas, Contains, ShiftHas, ShiftFits, WellFormed, AfterChange, AfterDeletion;
    ShiftedAllMeaning(rs, point, -count, l);
    forall k | 0 <= k < |rs|
      ensures ShiftHas(rs[k], point, -count, l) <==> AfterDeletion(rs[k], point, count, l)
    {
      ShiftFitsSuffices(rs[k], point, -count, l);
      AfterChangeDeletes(rs[k], point, count, l);
    }
    AnyAfterDeletion(rs, point, count, l);
  }

  lemma {:induction false} AfterChangeDeletes(r: LineRange, point: u32, count: int, l: u32)
    requires 0 < count <= 0x8000_0000
    ensures AfterChange(r, point, -count, l) <==> AfterDeletion(r, point, count, l)
  {
  }

  lemma {:induction false} AnyAfterDeletion(rs: seq<LineRange>, point: u32, count: int, l: u32)
    requires 0 < count <= 0x8000_0000
    requires forall k | 0 <= k < |rs| :: ShiftHas(rs[k], point, -count, l) <==> AfterDeletion(rs[k], point, count, l)
    ensures AnyShiftHas(rs, point, -count, l)
       <==> (l < point - count && Covers(rs, l))
            || (l + count >= point && l + count <= U32_MAX && Covers(rs, l + count))
  {
    hide ShiftHas, Contains;
  }

  predicate AfterDeletion(r: LineRange, point: u32, count: int, l: u32)
    requires 0 < count
  {
    (l < point - count && Contains(r, l)) || (l + count >= point && l + count <= U32_MAX && Contains(r, l + count))
  }

  /** An insertion: earlier lines stay, later ones move, and the new ones are covered where they split a range. */
  lemma {:induction false} InsertedIntoAll(rs: seq<LineRange>, point: u32, count: i32, l: u32)
    requires count >= 0 && AllFit(rs, point, count)
    ensures Covers(ShiftedAll(rs, point, count), l)
       <==> (l < point && Covers(rs, l))
            || (l >= point + count && Covers(rs, l - count))
            || (point <= l < point + count && exists k | 0 <= k < |rs| :: First(rs[k]) < point <= Last(rs[k]))
  {
    ShiftedAllMeaning(rs, point, count, l);
    forall k | 0 <= k < |rs|
      ensures ShiftHas(rs[k], point, count, l)
         <==> (l < point && Contains(rs[k], l))
              || (l >= point + count && Contains(rs[k], l - count))
              || (point <= l < point + count && First(rs[k]) < point <= Last(rs[k]))
    {
      ShiftFitsSuffices(rs[k], point, count, l);
      hide ShiftHas;
    }
    hide ShiftHas, Contains, ShiftedAll, ShiftFits, First, Last;
  }

  // ----- The entry that holds a list -----

  class AttestationEntry {
    const hash: string
    var lineRanges: seq<LineRange>

    constructor (hash: string, lineRanges: seq<LineRange>)
      ensures this.hash == hash && this.lineRanges == lineRanges
    {
      this.hash := hash;
      this.lineRanges := lineRanges;
    }

    /** `remove_line_ranges`: exactly the other lines are left, and disjoint ranges stay disjoint. */
    method RemoveLineRanges(toRemove: seq<LineRange>)
      modifies this`lineRanges
      ensures lineRanges == RemovedAll(old(lineRanges), toRemove)
      ensures forall l: u32 :: Covers(lineRanges, l) <==> Covers(old(lineRanges), l) && !Covers(toRemove, l)
      ensures AllWellFormed(old(lineRanges)) && Disjoint(old(lineRanges)) && AllWellFormed(toRemove) ==>
                AllWellFormed(lineRanges) && Disjoint(lineRanges)
    {
      hide Covers, Disjoint, AllWellFormed, Remove;
      var current := lineRanges;
      var k: nat := 0;
      while k < |toRemove|
        invariant k <= |toRemove| && lineRanges == old(lineRanges) && current == RemovedAll(lineRanges, toRemove[..k])
      {
        var next := [];
        var i: nat := 0;
        while i < |current|
          invariant i <= |current| && next == RemovedOne(current[..i], toRemove[k])
        {
          assert current[..i + 1][..i] == current[..i];
          next := next + Remove(current[i], toRemove[k]);
          i := i + 1;
        }
        assert current[..i] == current && toRemove[..k + 1][..k] == toRemove[..k];
        current := next;
        k := k + 1;
      }
      assert toRemove[..k] == toRemove;
      forall l: u32 ensures Covers(current, l) <==> Covers(lineRanges, l) && !Covers(toRemove, l) {
        RemovedAllMeaning(lineRanges, toRemove, l);
      }
      if AllWellFormed(lineRanges) && Disjoint(lineRanges) && AllWellFormed(toRemove) {
        RemovedAllTidy(lineRanges, toRemove);
      }
      lineRanges := current;
    }

    /** `shift_line_ranges`: every range shifted; ranges that do not survive are dropped. */
    method ShiftLineRanges(point: u32, offset: i32)
      modifies this`lineRanges
      ensures lineRanges == ShiftedAll(old(lineRanges), point, offset)
      ensures forall l: u32 :: Covers(lineRanges, l) <==> AnyShiftHas(old(lineRanges), point, offset, l)
    {
      hide Shift, Covers, AnyShiftHas;
      var shifted := [];
      var i: nat := 0;
      while i < |lineRanges|
        invariant i <= |lineRanges| && lineRanges == old(lineRanges)
        invariant shifted == ShiftedAll(lineRanges[..i], point, offset)
      {
        assert lineRanges[..i + 1][..i] == lineRanges[..i];
        var r := Shift(lineRanges[i], point, offset);
        if r.Some? {
          shifted := shifted + [r.value];
        }
        i := i + 1;
      }
      assert lineRanges[..i] == lineRanges;
      forall l: u32 ensures Covers(shifted, l) <==> AnyShiftHas(lineRanges, point, offset, l) {
        ShiftedAllMeaning(lineRanges, point, offset, l);
      }
      lineRanges := shifted;
    }
  }

  // ----- Compression -----

  /** `line + 1` in 32 bits; overflow checks would stop where it wraps. */
  function NextLine(line: u32): u32 {
    if line == U32_MAX then 0 else line + 1
  }

  /** One turn of the loop: the last range takes the line or a new range starts. */
  ghost function Push(rs: seq<LineRange>, line: u32): (r: seq<LineRange>)
    ensures r != [] && Last(r[|r| - 1]) == line
  {
    if rs != [] && line == NextLine(Last(rs[|rs| - 1])) then rs[..|rs| - 1] + [MakeRange(First(rs[|rs| - 1]), line)]
    else rs + [Single(line)]
  }

  /** The finished ranges and the current one after the loop over `lines`. */
  ghost function Compressed(lines: seq<u32>): (rs: seq<LineRange>)
    ensures lines != [] ==> rs != [] && Last(rs[|rs| - 1]) == lines[|lines| - 1]
  {
    if lines == [] then [] else Push(Compressed(lines[..|lines| - 1]), lines[|lines| - 1])
  }

  /** `compress_lines`. */
  method CompressLines(lines: seq<u32>) returns (ranges: seq<LineRange>)
    ensures ranges == Compressed(lines)
  {
    if lines == [] {
      return [];
    }
    ranges := [];
    var currentStart := lines[0];
    var currentEnd := lines[0];
    var i: nat := 1;
    assert lines[..1][..0] == [];
    while i < |lines|
      invariant 1 <= i <= |lines|
      invariant Compressed(lines[..i]) == ranges + [MakeRange(currentStart, currentEnd)]
    {
      var line := lines[i];
      assert lines[..i + 1][..i] == lines[..i];
      if line == NextLine(currentEnd) {
        currentEnd := line;
      } else {
        if currentStart == currentEnd {
          ranges := ranges + [Single(currentStart)];
        } else {
          ranges := ranges + [Range(currentStart, currentEnd)];
        }
        currentStart := line;
        currentEnd := line;
      }
      i := i + 1;
    }
    assert lines[..i] == lines;
    if currentStart == currentEnd {
      ranges := ranges + [Single(currentStart)];
    } else {
      ranges := ranges + [Range(currentStart, currentEnd)];
    }
  }

  ghost function ToAttributions(rs: seq<LineRange>, author: string, overrode: Option<string>): seq<L.LineAttribution> {
    seq(|rs|, k requires 0 <= k < |rs| => L.LineAttribution(First(rs[k]), Last(rs[k]), author, overrode))
  }

  lemma {:induction false} PushSplit(rs: seq<LineRange>, line: u32)
    ensures var r := Push(rs, line);
            if rs != [] && line == NextLine(Last(rs[|rs| - 1]))
            then r[..|r| - 1] == rs[..|rs| - 1] && r[|r| - 1] == MakeRange(First(rs[|rs| - 1]), line)
            else r[..|r| - 1] == rs && r[|r| - 1] == Single(line)
  {
  }

  lemma {:induction false} ToAttributionsSnoc(rs: seq<LineRange>, author: string, overrode: Option<string>)
    requires rs != []
    ensures ToAttributions(rs, author, overrode)
         == ToAttributions(rs[..|rs| - 1], author, overrode)
            + [L.LineAttribution(First(rs[|rs| - 1]), Last(rs[|rs| - 1]), author, overrode)]
  {
  }

  /** The first `i` lines are done: their last range is `start` to `end`, and `result` has the ranges before it. */
  ghost predicate InProgress(lines: seq<u32>, i: nat, start: u32, end: u32, result: seq<L.LineAttribution>,
                             author: string, overrode: Option<string>)
  {
    && i <= |lines| && Compressed(lines[..i]) != []
    && var rs := Compressed(lines[..i]);
       rs[|rs| - 1] == MakeRange(start, end) && result == ToAttributions(rs[..|rs| - 1], author, overrode)
  }

  lemma {:induction false} ProgressStep(lines: seq<u32>, i: nat, start: u32, end: u32, result: seq<L.LineAttribution>,
                                        author: string, overrode: Option<string>)
    requires InProgress(lines, i, start, end, result, author, overrode) && 0 < i < |lines|
    ensures var line := lines[i];
            if line == NextLine(end) then InProgress(lines, i + 1, start, line, result, author, overrode)
            else InProgress(lines, i + 1, line, line, result + [L.LineAttribution(start, end, author, overrode)],
                            author, overrode)
  {
    CompressedNext(lines, i);
    PushSplit(Compressed(lines[..i]), lines[i]);
    hide Push, ToAttributions, Compressed, MakeRange;
    ToAttributionsSnoc(Compressed(lines[..i]), author, overrode);
    EndsOf(start, end);
    EndsOf(lines[i], lines[i]);
  }

  lemma {:induction false} ProgressDone(lines: seq<u32>, start: u32, end: u32, result: seq<L.LineAttribution>,
                                        author: string, overrode: Option<string>)
    requires InProgress(lines, |lines|, start, end, result, author, overrode)
    ensures result + [L.LineAttribution(start, end, author, overrode)]
         == ToAttributions(Compressed(lines), author, overrode)
  {
    assert lines[..|lines|] == lines;
    hide ToAttributions, Compressed, MakeRange;
    ToAttributionsSnoc(Compressed(lines), author, overrode);
    EndsOf(start, end);
  }

  /** `compress_lines_to_working_log_format`: the same ranges with an author. */
  method CompressLinesToWorkingLogFormat(lines: seq<u32>, author: string, overrode: Option<string>)
    returns (result: seq<L.LineAttribution>)
    ensures result == ToAttributions(Compressed(lines), author, overrode)
  {
    if lines == [] {
      return [];
    }
    result := [];
    var start := lines[0];
    var end := lines[0];
    var i: nat := 1;
    FirstCompressed(lines, author, overrode);
    hide Push, ToAttributions, Compressed, MakeRange;
    assert InProgress(lines, 1, start, end, result, author, overrode);
    hide InProgress;
    while i < |lines|
      invariant 1 <= i <= |lines| && InProgress(lines, i, start, end, result, author, overrode)
    {
      ProgressStep(lines, i, start, end, result, author, overrode);
      var line := lines[i];
      if line == NextLine(end) {
        end := line;
      } else {
        result := result + [L.LineAttribution(start, end, author, overrode)];
        start := line;
        end := line;
      }
      i := i + 1;
    }
    ProgressDone(lines, start, end, result, author, overrode);
    result := result + [L.LineAttribution(start, end, author, overrode)];
  }

  lemma {:induction false} FirstCompressed(lines: seq<u32>, author: string, overrode: Option<string>)
    requires lines != []
    ensures Compressed(lines[..1]) == [MakeRange(lines[0], lines[0])]
    ensures ToAttributions([], author, overrode) == [] && [MakeRange(lines[0], lines[0])][..0] == []
  {
    assert lines[..1][..0] == [];
  }

  lemma {:induction false} CompressedNext(lines: seq<u32>, i: nat)
    requires i < |lines|
    ensures Compressed(lines[..i + 1]) == Push(Compressed(lines[..i]), lines[i])
  {
    assert lines[..i + 1][..i] == lines[..i];
  }

  lemma {:induction false} EndsOf(start: u32, end: u32)
    ensures First(MakeRange(start, end)) == start && Last(MakeRange(start, end)) == end
    ensures start == end ==> MakeRange(start, end) == Single(start)
  {
  }

  /** `expand`. */
  function Expand(r: LineRange): (lines: seq<u32>)
    ensures r.Single? ==> lines == [r.line]
  {
    match r
    case Single(l) => [l]
    case Range(start, end) =>
      var n: nat := if start <= end then end - start + 1 else 0;
      seq(n, k requires 0 <= k < n => (start + k) as u32)
  }

  ghost function ExpandAll(rs: seq<LineRange>): seq<u32> {
    if rs == [] then [] else ExpandAll(rs[..|rs| - 1]) + Expand(rs[|rs| - 1])
  }

  /** No line 0 right after the last line number there is. */
  predicate NoWrap(lines: seq<u32>) {
    forall i | 0 < i < |lines| :: !(lines[i - 1] == U32_MAX && lines[i] == 0)
  }

  lemma {:induction false} ExpandAllSnoc(rs: seq<LineRange>, r: LineRange)
    ensures ExpandAll(rs + [r]) == ExpandAll(rs) + Expand(r)
  {
    assert (rs + [r])[..|rs|] == rs;
  }

  lemma {:induction false} ExpandLonger(start: u32, end: u32)
    requires start <= end < U32_MAX
    ensures Expand(MakeRange(start, end + 1)) == Expand(MakeRange(start, end)) + [end + 1]
  {
  }

  lemma {:induction false} CompressedSnoc(lines: seq<u32>, line: u32)
    ensures Compressed(lines + [line]) == Push(Compressed(lines), line)
  {
    assert (lines + [line])[..|lines|] == lines;
  }

  lemma {:induction false} SplitLast(rs: seq<LineRange>)
    requires rs != []
    ensures rs == rs[..|rs| - 1] + [rs[|rs| - 1]]
    ensures ExpandAll(rs) == ExpandAll(rs[..|rs| - 1]) + Expand(rs[|rs| - 1])
  {
  }

  predicate Joins(rs: seq<LineRange>, line: u32) {
    rs != [] && line == NextLine(Last(rs[|rs| - 1]))
  }

  lemma {:induction false} PushJoins(rs: seq<LineRange>, line: u32)
    requires Joins(rs, line)
    ensures ExpandAll(rs) == ExpandAll(rs[..|rs| - 1]) + Expand(rs[|rs| - 1])
    ensures ExpandAll(Push(rs, line)) == ExpandAll(rs[..|rs| - 1]) + Expand(MakeRange(First(rs[|rs| - 1]), line))
  {
    SplitLast(rs);
    hide ExpandAll, Expand, MakeRange;
    ExpandAllSnoc(rs[..|rs| - 1], MakeRange(First(rs[|rs| - 1]), line));
  }

  lemma {:induction false} PushStarts(rs: seq<LineRange>, line: u32)
    requires !Joins(rs, line)
    ensures Push(rs, line) == rs + [Single(line)]
    ensures ExpandAll(Push(rs, line)) == ExpandAll(rs) + [line]
  {
    hide ExpandAll;
    ExpandAllSnoc(rs, Single(line));
  }

  lemma {:induction false} ExpandMade(r: LineRange)
    ensures WellFormed(r) ==> Expand(MakeRange(First(r), Last(r))) == Expand(r)
    ensures r.Single? ==> MakeRange(First(r), Last(r)) == r
  {
  }

  lemma {:induction false} PushExpands(rs: seq<LineRange>, line: u32)
    requires AllWellFormed(rs) && (rs != [] ==> !(Last(rs[|rs| - 1]) == U32_MAX && line == 0))
    ensures ExpandAll(Push(rs, line)) == ExpandAll(rs) + [line] && AllWellFormed(Push(rs, line))
  {
    hide ExpandAll, Expand;
    if Joins(rs, line) {
      var last := rs[|rs| - 1];
      PushJoins(rs, line);
      ExpandMade(last);
      ExpandLonger(First(last), Last(last));
    } else {
      PushStarts(rs, line);
    }
  }

  lemma {:induction false} ExpandCompressed(lines: seq<u32>)
    requires NoWrap(lines)
    ensures ExpandAll(Compressed(lines)) == lines && AllWellFormed(Compressed(lines))
  {
    hide Push, Expand, ExpandAll, NoWrap, AllWellFormed, Compressed;
    NothingCompressed();
    if lines != [] {
      var init, line := lines[..|lines| - 1], lines[|lines| - 1];
      NoWrapSnoc(lines);
      assert init != [] ==> init[|init| - 1] == lines[|lines| - 2];
      ExpandCompressed(init);
      CompressedSnoc(init, line);
      PushExpands(Compressed(init), line);
      assert lines == init + [line];
    }
  }

  lemma {:induction false} ExpandSize(start: u32, end: u32)
    ensures |Expand(MakeRange(start, end))| == if start <= end then end - start + 1 else 0
    ensures Last(MakeRange(start, end)) == end && First(MakeRange(start, end)) == start
  {
  }

  lemma {:induction false} SizeOf(r: LineRange)
    ensures |Expand(r)| == if First(r) <= Last(r) then Last(r) - First(r) + 1 else 0
  {
  }

  lemma {:induction false} PushShrinks(rs: seq<LineRange>, line: u32)
    ensures |ExpandAll(Push(rs, line))| <= |ExpandAll(rs)| + 1
    ensures rs != [] && Last(rs[|rs| - 1]) == U32_MAX && line == 0 ==> |ExpandAll(Push(rs, line))| <= |ExpandAll(rs)|
  {
    hide ExpandAll, Expand, Push;
    if Joins(rs, line) {
      var last := rs[|rs| - 1];
      PushJoins(rs, line);
      SizeOf(last);
      ExpandSize(First(last), line);
    } else {
      PushStarts(rs, line);
    }
  }

  lemma {:induction false} NothingCompressed()
    ensures Compressed([]) == [] && ExpandAll(Compressed([])) == [] && NoWrap([]) && AllWellFormed(Compressed([]))
  {
  }

  /** A wrapped run loses lines for good. */
  lemma {:induction false} ExpansionShrinks(lines: seq<u32>)
    ensures |ExpandAll(Compressed(lines))| <= |lines|
    ensures !NoWrap(lines) ==> |ExpandAll(Compressed(lines))| < |lines|
  {
    hide *;
    if lines == [] {
      NothingCompressed();
    } else {
      var init, line := lines[..|lines| - 1], lines[|lines| - 1];
      ExpansionShrinks(init);
      CompressedSnoc(init, line);
      NoWrapSnoc(lines);
      assert lines == init + [line];
      PushShrinks(Compressed(init), line);
    }
  }

  lemma {:induction false} NoWrapSnoc(lines: seq<u32>)
    requires lines != []
    ensures NoWrap(lines) <==> NoWrap(lines[..|lines| - 1])
                               && (|lines| > 1 ==> !(lines[|lines| - 2] == U32_MAX && lines[|lines| - 1] == 0))
  {
  }

  /** Expanding the compressed list gives the list back exactly when no line number wraps. */
  lemma {:induction false} RoundTripIff(lines: seq<u32>)
    ensures ExpandAll(Compressed(lines)) == lines <==> NoWrap(lines)
  {
    if NoWrap(lines) {
      ExpandCompressed(lines);
    } else {
      ExpansionShrinks(lines);
    }
  }

  /** No two neighbouring ranges could be one, and a range of one line is a single line. */
  ghost predicate Canonical(rs: seq<LineRange>) {
    && (forall k | 0 <= k < |rs| :: rs[k].Range? ==> rs[k].start < rs[k].end)
    && (forall k | 0 < k < |rs| :: First(rs[k]) != NextLine(Last(rs[k - 1])))
  }

  lemma {:induction false} PushCanonical(rs: seq<LineRange>, line: u32)
    requires Canonical(rs) && (rs != [] ==> !(Last(rs[|rs| - 1]) == U32_MAX && line == 0))
    ensures Canonical(Push(rs, line))
  {
  }

  lemma {:induction false} CompressedIsCanonical(lines: seq<u32>)
    requires NoWrap(lines)
    ensures Canonical(Compressed(lines))
  {
    if lines != [] {
      var init, line := lines[..|lines| - 1], lines[|lines| - 1];
      NoWrapSnoc(lines);
      CompressedIsCanonical(init);
      hide Canonical, Push;
      PushCanonical(Compressed(init), line);
    }
  }

  lemma {:induction false} MakeOne(line: u32)
    ensures MakeRange(line, line) == Single(line) && Expand(MakeRange(line, line)) == [line]
  {
  }

  lemma {:induction false} PushLonger(rs: seq<LineRange>, start: u32, end: u32)
    requires start <= end < U32_MAX
    ensures Push(rs + [MakeRange(start, end)], end + 1) == rs + [MakeRange(start, end + 1)]
  {
    assert (rs + [MakeRange(start, end)])[..|rs|] == rs;
  }

  /** A whole run appended to lines it cannot join. */
  lemma {:induction false} CompressedRun(lines: seq<u32>, start: u32, end: u32)
    requires start <= end && !Joins(Compressed(lines), start)
    ensures Compressed(lines + Expand(MakeRange(start, end))) == Compressed(lines) + [MakeRange(start, end)]
    decreases end - start
  {
    hide *;
    if start == end {
      MakeOne(start);
      CompressedSnoc(lines, start);
      PushStarts(Compressed(lines), start);
    } else {
      CompressedRun(lines, start, end - 1);
      ExpandLonger(start, end - 1);
      var shorter := Expand(MakeRange(start, end - 1));
      assert lines + (shorter + [end]) == (lines + shorter) + [end];
      CompressedSnoc(lines + shorter, end);
      PushLonger(Compressed(lines), start, end - 1);
    }
  }

  lemma {:induction false} CanonicalInit(rs: seq<LineRange>)
    requires rs != [] && Canonical(rs)
    ensures Canonical(rs[..|rs| - 1]) && !Joins(rs[..|rs| - 1], First(rs[|rs| - 1]))
    ensures WellFormed(rs[|rs| - 1]) && rs[|rs| - 1] == MakeRange(First(rs[|rs| - 1]), Last(rs[|rs| - 1]))
  {
  }

  /** Compressing an expanded list gives the list back: canonical lists are the only normal forms. */
  lemma {:induction false} CompressExpanded(rs: seq<LineRange>)
    requires Canonical(rs)
    ensures Compressed(ExpandAll(rs)) == rs
  {
    if rs != [] {
      var init, last := rs[..|rs| - 1], rs[|rs| - 1];
      CanonicalInit(rs);
      SplitLast(rs);
      CompressExpanded(init);
      hide *;
      CompressedRun(ExpandAll(init), First(last), Last(last));
    }
  }
}
