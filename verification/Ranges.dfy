/** Half-open ranges: merging and the overlap test on merged ranges. */
module Ranges {
  import opened Prelude
  import Sorting

  type Range = (nat, nat)

  predicate Contains(r: Range, p: nat) {
    r.0 <= p < r.1
  }

  ghost predicate InSome(rs: seq<Range>, p: nat) {
    exists r | r in rs :: Contains(r, p)
  }

  /** `[lo, hi)` lies inside one of the ranges. */
  ghost predicate CoveredBy(rs: seq<Range>, lo: nat, hi: nat) {
    exists r | r in rs :: r.0 <= lo && hi <= r.1
  }

  predicate RangeLe(a: Range, b: Range) {
    a.0 < b.0 || (a.0 == b.0 && a.1 <= b.1)
  }

  predicate StartLe(a: Range, b: Range) {
    a.0 <= b.0
  }

  /** Non-empty, increasing, and with a gap between neighbours. */
  ghost predicate Separated(rs: seq<Range>) {
    && (forall i | 0 <= i < |rs| :: rs[i].0 < rs[i].1)
    && (forall i, j | 0 <= i < j < |rs| :: rs[i].1 < rs[j].0)
  }

  /** The loop body shared by the two merging loops. */
  function MergeStep(merged: seq<Range>, r: Range): seq<Range> {
    if r.0 >= r.1 then merged
    else if merged != [] && r.0 <= merged[|merged| - 1].1 then
      var last := merged[|merged| - 1];
      merged[..|merged| - 1] + [(last.0, Max(last.1, r.1))]
    else merged + [r]
  }

  ghost function MergeFrom(merged: seq<Range>, rs: seq<Range>): seq<Range>
    decreases rs
  {
    if rs == [] then merged else MergeFrom(MergeStep(merged, rs[0]), rs[1..])
  }

  /** `merged` is what the ranges `done` (in order of start) merge into. */
  ghost predicate MergedSoFar(merged: seq<Range>, done: seq<Range>) {
    && Separated(merged)
    && KeepsRanges(merged, done)
    && KeepsPoints(merged, done)
    && (forall m | m in merged :: exists r | r in done :: r.0 == m.0)
  }

  ghost predicate KeepsRanges(merged: seq<Range>, done: seq<Range>) {
    forall r | r in done && r.0 < r.1 :: CoveredBy(merged, r.0, r.1)
  }

  ghost predicate KeepsPoints(merged: seq<Range>, done: seq<Range>) {
    forall m, p | m in merged && Contains(m, p) :: InSome(done, p)
  }

  lemma {:induction false} MergeStepCorrect(merged: seq<Range>, done: seq<Range>, r: Range)
    requires MergedSoFar(merged, done)
    requires forall d | d in done :: d.0 <= r.0
    ensures MergedSoFar(MergeStep(merged, r), done + [r])
  {
    if r.0 >= r.1 {
      SkipEmpty(merged, done, r);
    } else if merged != [] && r.0 <= merged[|merged| - 1].1 {
      WidenLast(merged, done, r);
    } else {
      PushNew(merged, done, r);
    }
  }

  lemma {:induction false} SkipEmpty(merged: seq<Range>, done: seq<Range>, r: Range)
    requires MergedSoFar(merged, done) && r.0 >= r.1
    ensures MergedSoFar(merged, done + [r])
  {
    MorePoints(merged, done, r);
    MoreStarts(merged, done, r);
  }

  lemma {:induction false} MorePoints(merged: seq<Range>, done: seq<Range>, r: Range)
    requires KeepsPoints(merged, done)
    ensures KeepsPoints(merged, done + [r])
  {
    forall m, p | m in merged && Contains(m, p) ensures InSome(done + [r], p) {
      var d :| d in done && Contains(d, p);
      assert d in done + [r];
    }
  }

  lemma {:induction false} MoreStarts(merged: seq<Range>, done: seq<Range>, r: Range)
    requires forall m | m in merged :: exists d | d in done :: d.0 == m.0
    ensures forall m | m in merged :: exists d | d in done + [r] :: d.0 == m.0
  {
    forall m | m in merged ensures exists d | d in done + [r] :: d.0 == m.0 {
      var d :| d in done && d.0 == m.0;
      assert d in done + [r];
    }
  }

  lemma {:induction false} PushNew(merged: seq<Range>, done: seq<Range>, r: Range)
    requires MergedSoFar(merged, done) && r.0 < r.1
    requires merged != [] ==> merged[|merged| - 1].1 < r.0
    ensures MergedSoFar(merged + [r], done + [r])
  {
    PushKeepsSeparated(merged, r);
    hide Separated, KeepsPoints, KeepsRanges;
    PushKeepsPoints(merged, done, r);
    PushKeepsRanges(merged, done, r);
    PushKeepsStarts(merged, done, r);
  }

  lemma {:induction false} PushKeepsSeparated(merged: seq<Range>, r: Range)
    requires Separated(merged) && r.0 < r.1
    requires merged != [] ==> merged[|merged| - 1].1 < r.0
    ensures Separated(merged + [r])
  {
    var n := |merged|;
    forall i | 0 <= i < n ensures merged[i].1 < r.0 {
      if i < n - 1 {
        assert merged[i].1 < merged[n - 1].0;
      }
    }
  }

  lemma {:induction false} MemberOfPush(rs: seq<Range>, r: Range)
    ensures forall x :: x in rs + [r] <==> x in rs || x == r
  {
    assert (rs + [r])[|rs|] == r;
  }

  lemma {:induction false} PushKeepsPoints(merged: seq<Range>, done: seq<Range>, r: Range)
    requires KeepsPoints(merged, done)
    ensures KeepsPoints(merged + [r], done + [r])
  {
    MorePoints(merged, done, r);
    MemberOfPush(merged, r);
    MemberOfPush(done, r);
    forall m, p | m in merged + [r] && Contains(m, p) ensures InSome(done + [r], p) {
      if m == r {
        assert Contains(r, p);
      } else {
        assert m in merged;
      }
    }
  }

  lemma {:induction false} PushKeepsRanges(merged: seq<Range>, done: seq<Range>, r: Range)
    requires KeepsRanges(merged, done)
    ensures KeepsRanges(merged + [r], done + [r])
  {
    MemberOfPush(merged, r);
    MemberOfPush(done, r);
    forall d | d in done + [r] && d.0 < d.1 ensures CoveredBy(merged + [r], d.0, d.1) {
      if d in done {
        assert CoveredBy(merged, d.0, d.1);
        var m :| m in merged && m.0 <= d.0 && d.1 <= m.1;
        assert m in merged + [r];
      } else {
        assert r in merged + [r];
      }
    }
  }

  lemma {:induction false} PushKeepsStarts(merged: seq<Range>, done: seq<Range>, r: Range)
    requires forall m | m in merged :: exists d | d in done :: d.0 == m.0
    ensures forall m | m in merged + [r] :: exists d | d in done + [r] :: d.0 == m.0
  {
    MoreStarts(merged, done, r);
    MemberOfPush(merged, r);
    MemberOfPush(done, r);
    forall m | m in merged + [r] ensures exists d | d in done + [r] :: d.0 == m.0 {
      if m == r {
        assert r in done + [r];
      }
    }
  }

  lemma {:induction false} WidenLast(merged: seq<Range>, done: seq<Range>, r: Range)
    requires MergedSoFar(merged, done) && r.0 < r.1
    requires forall d | d in done :: d.0 <= r.0
    requires merged != [] && r.0 <= merged[|merged| - 1].1
    ensures MergedSoFar(MergeStep(merged, r), done + [r])
  {
    var n := |merged| - 1;
    var last := merged[n];
    var wide := (last.0, Max(last.1, r.1));
    var merged', done' := merged[..n] + [wide], done + [r];
    assert merged' == MergeStep(merged, r);
    assert done'[|done|] == r && merged'[n] == wide && last in merged;
    assert wide.0 <= r.0;
    assert forall m | m in merged' :: m == wide || m in merged;
    assert forall i | 0 <= i < n :: merged'[i] == merged[i];
    MorePoints(merged, done, r);
    MoreStarts(merged, done, r);
    WidenKeepsRanges(merged, done, r, merged', wide);
    assert KeepsPoints(merged', done') by {
      forall m, p | m in merged' && Contains(m, p) ensures InSome(done', p) {
        if m == wide {
          assert Contains(last, p) || Contains(r, p);
        }
      }
    }
    hide CoveredBy, KeepsPoints, InSome, KeepsRanges;
    WidenKeepsSeparated(merged, merged', wide);
  }

  lemma {:induction false} WidenKeepsSeparated(merged: seq<Range>, merged': seq<Range>, wide: Range)
    requires Separated(merged) && merged != []
    requires wide.0 == merged[|merged| - 1].0 && merged[|merged| - 1].1 <= wide.1
    requires merged' == merged[..|merged| - 1] + [wide]
    ensures Separated(merged')
  {
    assert forall i | 0 <= i < |merged| - 1 :: merged'[i] == merged[i];
  }

  lemma {:induction false} WidenKeepsRanges(merged: seq<Range>, done: seq<Range>, r: Range, merged': seq<Range>,
                                            wide: Range)
    requires KeepsRanges(merged, done) && merged != []
    requires merged' == merged[..|merged| - 1] + [wide]
    requires wide.0 == merged[|merged| - 1].0 && merged[|merged| - 1].1 <= wide.1
    requires wide.0 <= r.0 && r.1 <= wide.1
    ensures KeepsRanges(merged', done + [r])
  {
    var n := |merged| - 1;
    assert merged'[n] == wide;
    forall d | d in done + [r] && d.0 < d.1 ensures CoveredBy(merged', d.0, d.1) {
      if d in done {
        assert CoveredBy(merged, d.0, d.1);
        var m :| m in merged && m.0 <= d.0 && d.1 <= m.1;
        var i :| 0 <= i < |merged| && merged[i] == m;
        assert merged'[i].0 <= d.0 && d.1 <= merged'[i].1;
        assert merged'[i] in merged';
      } else {
        assert merged'[n] in merged';
      }
    }
  }

  /** Same points as `rs`, in separated ranges; every range of `rs` stays in one piece. */
  ghost predicate IsMergeOf(merged: seq<Range>, rs: seq<Range>) {
    && Separated(merged)
    && (forall r | r in rs && r.0 < r.1 :: CoveredBy(merged, r.0, r.1))
    && (forall p :: InSome(merged, p) <==> InSome(rs, p))
  }

  lemma {:induction false} MergedIsMerge(merged: seq<Range>, sorted: seq<Range>, rs: seq<Range>)
    requires MergedSoFar(merged, sorted) && (forall r :: r in sorted <==> r in rs)
    ensures IsMergeOf(merged, rs)
  {
    forall p ensures InSome(merged, p) <==> InSome(rs, p) {
      if InSome(rs, p) {
        var r :| r in rs && Contains(r, p);
        assert CoveredBy(merged, r.0, r.1);
        var m :| m in merged && m.0 <= r.0 && r.1 <= m.1;
        assert Contains(m, p);
      }
      if InSome(merged, p) {
        var r :| r in sorted && Contains(r, p);
        assert r in rs;
      }
    }
  }

  lemma {:induction false} StartsBefore(sorted: seq<Range>, k: nat)
    requires Sorting.SortedBy(sorted, StartLe) && k < |sorted|
    ensures forall d | d in sorted[..k] :: d.0 <= sorted[k].0
  {
    forall d | d in sorted[..k] ensures d.0 <= sorted[k].0 {
      var i :| 0 <= i < k && sorted[i] == d;
      assert StartLe(sorted[i], sorted[k]);
    }
  }

  /** The merging loop over ranges already sorted by start. */
  method MergeSorted(sorted: seq<Range>) returns (merged: seq<Range>)
    requires Sorting.SortedBy(sorted, StartLe)
    ensures MergedSoFar(merged, sorted) && merged == MergeFrom([], sorted)
  {
    merged := [];
    NothingMerged();
    hide MergedSoFar, Sorting.SortedBy;
    for k := 0 to |sorted|
      invariant MergedSoFar(merged, sorted[..k])
      invariant MergeFrom(merged, sorted[k..]) == MergeFrom([], sorted)
    {
      var r := sorted[k];
      assert sorted[k..][0] == r && sorted[k..][1..] == sorted[k + 1..];
      StartsBefore(sorted, k);
      MergeStepCorrect(merged, sorted[..k], r);
      assert sorted[..k + 1] == sorted[..k] + [r];
      if r.0 < r.1 {
        if merged != [] && r.0 <= merged[|merged| - 1].1 {
          var last := merged[|merged| - 1];
          merged := merged[..|merged| - 1] + [(last.0, Max(last.1, r.1))];
        } else {
          merged := merged + [r];
        }
      }
    }
    assert sorted[..|sorted|] == sorted;
  }

  lemma {:induction false} NothingMerged()
    ensures MergedSoFar([], [])
  {
  }

  lemma {:induction false} RangeOrderIsTotal()
    ensures Sorting.TotalPreorder(RangeLe)
  {
  }

  /** `merge_ranges`. */
  method MergeRanges(ranges: seq<Range>) returns (merged: seq<Range>)
    ensures IsMergeOf(merged, ranges)
  {
    var sorted := Sorting.Sort(ranges, RangeLe);
    RangeOrderIsTotal();
    Sorting.SortIsSorted(ranges, RangeLe);
    Sorting.SortMembers(ranges, RangeLe);
    assert forall i, j | 0 <= i < j < |sorted| :: RangeLe(sorted[i], sorted[j]);
    merged := MergeSorted(sorted);
    MergedIsMerge(merged, sorted, ranges);
  }

  predicate Overlaps(r: Range, target: Range) {
    r.0 < target.1 && target.0 < r.1
  }

  /** `ranges_intersect`: on merged ranges the early exits lose nothing. */
  method RangesIntersect(ranges: seq<Range>, target: Range) returns (hit: bool)
    requires Separated(ranges)
    ensures hit <==> target.0 < target.1 && exists r | r in ranges :: Overlaps(r, target)
  {
    if target.0 >= target.1 {
      return false;
    }
    for k := 0 to |ranges|
      invariant forall i | 0 <= i < k :: ranges[i].1 <= target.0
    {
      if ranges[k].1 <= target.0 {
        continue;
      }
      if ranges[k].0 >= target.1 {
        assert forall i | k < i < |ranges| :: ranges[k].1 < ranges[i].0;
        return false;
      }
      assert Overlaps(ranges[k], target) && ranges[k] in ranges;
      return true;
    }
    hit := false;
  }

  /** A target overlaps a merged range exactly when it shares a point with an original one. */
  lemma {:induction false} OverlapIsSharedPoint(merged: seq<Range>, rs: seq<Range>, target: Range)
    requires IsMergeOf(merged, rs)
    ensures (exists r | r in merged :: target.0 < target.1 && Overlaps(r, target))
       <==> exists p :: Contains(target, p) && InSome(rs, p)
  {
    if exists r | r in merged :: target.0 < target.1 && Overlaps(r, target) {
      var r :| r in merged && target.0 < target.1 && Overlaps(r, target);
      var p := Max(r.0, target.0);
      assert Contains(r, p) && InSome(merged, p);
      assert Contains(target, p) && InSome(rs, p);
    }
    if p :| Contains(target, p) && InSome(rs, p) {
      assert InSome(merged, p);
      var r :| r in merged && Contains(r, p);
      assert Overlaps(r, target);
    }
  }
}
