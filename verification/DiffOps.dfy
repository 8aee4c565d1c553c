/** Element-level diffs (`imara_diff_utils.rs`). */
module DiffOps {
  // The Myers library is a parameter: a `Differ` returns hunks, and all that is assumed of it is that
  // the hunks are valid.
  import opened Prelude

  /** Old elements `[oldStart, oldEnd)` became new elements `[newStart, newEnd)`. */
  datatype Hunk = Hunk(oldStart: nat, oldEnd: nat, newStart: nat, newEnd: nat)

  type Differ = (seq<string>, seq<string>) -> seq<Hunk>

  /** Where the gap before hunk `n` starts on either side. */
  function OldAt(hunks: seq<Hunk>, n: nat): nat
    requires n <= |hunks|
  {
    if n == 0 then 0 else hunks[n - 1].oldEnd
  }

  function NewAt(hunks: seq<Hunk>, n: nat): nat
    requires n <= |hunks|
  {
    if n == 0 then 0 else hunks[n - 1].newEnd
  }

  predicate WellShaped(h: Hunk) {
    h.oldStart <= h.oldEnd && h.newStart <= h.newEnd
  }

  predicate EqualGap(before: seq<string>, after: seq<string>, i: nat, i': nat, j: nat, j': nat) {
    i <= i' <= |before| && j <= j' <= |after| && before[i..i'] == after[j..j']
  }

  predicate HunkFits(before: seq<string>, after: seq<string>, hunks: seq<Hunk>, n: nat)
    requires n < |hunks|
  {
    && WellShaped(hunks[n])
    && EqualGap(before, after, OldAt(hunks, n), hunks[n].oldStart, NewAt(hunks, n), hunks[n].newStart)
  }

  /** Ordered hunks whose gaps are equal on both sides. */
  predicate ValidHunks(before: seq<string>, after: seq<string>, hunks: seq<Hunk>) {
    && (forall n | 0 <= n < |hunks| :: WellShaped(hunks[n]))
    && (forall n | 0 <= n < |hunks| :: HunkFits(before, after, hunks, n))
    && EqualGap(before, after, OldAt(hunks, |hunks|), |before|, NewAt(hunks, |hunks|), |after|)
  }

  ghost predicate HonestDiffer(differ: Differ) {
    forall a, b :: ValidHunks(a, b, differ(a, b))
  }

  /** The library call that gives these hunks for these two sequences, and one whole hunk for any others. */
  function DifferGiving(before: seq<string>, after: seq<string>, hunks: seq<Hunk>): Differ {
    (a, b) => if a == before && b == after then hunks else [Hunk(0, |a|, 0, |b|)]
  }

  /** Valid hunks are all that is known of the library: every one of them can be its answer. */
  lemma {:induction false} HonestAnswers(before: seq<string>, after: seq<string>, hunks: seq<Hunk>)
    ensures HonestDiffer(DifferGiving(before, after, hunks)) <==> ValidHunks(before, after, hunks)
    ensures DifferGiving(before, after, hunks)(before, after) == hunks
  {
    var differ := DifferGiving(before, after, hunks);
    forall a, b | !(a == before && b == after) ensures ValidHunks(a, b, differ(a, b)) {
      WholeHunk(a, b);
    }
    assert differ(before, after) == hunks;
    hide ValidHunks;
  }

  lemma {:induction false} WholeHunk(a: seq<string>, b: seq<string>)
    ensures ValidHunks(a, b, [Hunk(0, |a|, 0, |b|)])
  {
    NoGap(a, b, 0, 0);
    NoGap(a, b, |a|, |b|);
    hide EqualGap;
  }

  lemma {:induction false} NoGap(a: seq<string>, b: seq<string>, i: nat, j: nat)
    requires i <= |a| && j <= |b|
    ensures EqualGap(a, b, i, i, j, j)
  {
    assert a[i..i] == [] == b[j..j];
  }

  datatype DiffOp =
    | Equal(oldIndex: nat, newIndex: nat, len: nat)
    | Delete(oldIndex: nat, oldLen: nat, newIndex: nat)
    | Insert(oldIndex: nat, newIndex: nat, newLen: nat)
    | Replace(oldIndex: nat, oldLen: nat, newIndex: nat, newLen: nat)

  /** `line_span_for_op`. */
  function SpanOf(op: DiffOp, forOld: bool): (nat, nat) {
    match (op, forOld)
    case (Equal(o, _, n), true) => (o, o + n)
    case (Equal(_, w, n), false) => (w, w + n)
    case (Delete(o, n, _), true) => (o, o + n)
    case (Delete(_, _, w), false) => (w, w)
    case (Insert(o, _, _), true) => (o, o)
    case (Insert(_, w, n), false) => (w, w + n)
    case (Replace(o, n, _, _), true) => (o, o + n)
    case (Replace(_, _, w, n), false) => (w, w + n)
  }

  /** What one hunk turns into; a hunk that is empty on both sides gives nothing. */
  ghost function HunkOp(h: Hunk): seq<DiffOp>
    requires WellShaped(h)
  {
    var oldLen, newLen := h.oldEnd - h.oldStart, h.newEnd - h.newStart;
    if oldLen > 0 && newLen > 0 then [Replace(h.oldStart, oldLen, h.newStart, newLen)]
    else if oldLen > 0 then [Delete(h.oldStart, oldLen, h.newStart)]
    else if newLen > 0 then [Insert(h.oldStart, h.newStart, newLen)]
    else []
  }

  ghost function GapOp(i: nat, j: nat, oldEnd: nat): seq<DiffOp> {
    if i < oldEnd then [Equal(i, j, oldEnd - i)] else []
  }

  /** The ops for hunk `n` and everything after it. */
  ghost function OpsOf(hunks: seq<Hunk>, oldLen: nat, n: nat := 0): seq<DiffOp>
    requires n <= |hunks| && forall k | 0 <= k < |hunks| :: WellShaped(hunks[k])
    decreases |hunks| - n
  {
    var i, j := OldAt(hunks, n), NewAt(hunks, n);
    if n == |hunks| then GapOp(i, j, oldLen)
    else GapOp(i, j, hunks[n].oldStart) + (HunkOp(hunks[n]) + OpsOf(hunks, oldLen, n + 1))
  }

  /** The ops tile both sequences from `(i, j)` on, no op is empty, and Equal ops pair equal elements. */
  ghost predicate OpsTile(before: seq<string>, after: seq<string>, ops: seq<DiffOp>, i: nat, j: nat)
    decreases ops
  {
    if ops == [] then i == |before| && j == |after|
    else OpFits(before, after, ops[0], i, j)
         && OpsTile(before, after, ops[1..], SpanOf(ops[0], true).1, SpanOf(ops[0], false).1)
  }

  ghost predicate OpFits(before: seq<string>, after: seq<string>, op: DiffOp, i: nat, j: nat) {
    var (o0, o1) := SpanOf(op, true);
    var (w0, w1) := SpanOf(op, false);
    && o0 == i && w0 == j && o1 <= |before| && w1 <= |after|
    && (o0 < o1 || w0 < w1)
    && (op.Replace? ==> o0 < o1 && w0 < w1)
    && (op.Equal? ==> before[o0..o1] == after[w0..w1])
  }

  lemma {:induction false} TileCons(before: seq<string>, after: seq<string>, op: DiffOp, rest: seq<DiffOp>, i: nat,
                                    j: nat)
    requires OpFits(before, after, op, i, j)
    requires OpsTile(before, after, rest, SpanOf(op, true).1, SpanOf(op, false).1)
    ensures OpsTile(before, after, [op] + rest, i, j)
  {
    assert ([op] + rest)[1..] == rest;
  }

  lemma {:induction false} GapTile(before: seq<string>, after: seq<string>, rest: seq<DiffOp>, i: nat, i': nat, j: nat,
                                   j': nat)
    requires EqualGap(before, after, i, i', j, j') && OpsTile(before, after, rest, i', j')
    ensures OpsTile(before, after, GapOp(i, j, i') + rest, i, j)
  {
    assert |before[i..i']| == |after[j..j']|;
    if i < i' {
      TileCons(before, after, Equal(i, j, i' - i), rest, i, j);
    } else {
      assert [] + rest == rest;
    }
  }

  lemma {:induction false} HunkTile(before: seq<string>, after: seq<string>, h: Hunk, rest: seq<DiffOp>)
    requires WellShaped(h) && h.oldEnd <= |before| && h.newEnd <= |after|
    requires OpsTile(before, after, rest, h.oldEnd, h.newEnd)
    ensures OpsTile(before, after, HunkOp(h) + rest, h.oldStart, h.newStart)
  {
    if HunkOp(h) == [] {
      assert [] + rest == rest;
    } else {
      TileCons(before, after, HunkOp(h)[0], rest, h.oldStart, h.newStart);
      assert HunkOp(h) == [HunkOp(h)[0]];
    }
  }

  /** Elements at the same distance from the start of a gap are equal. */
  lemma {:induction false} GapElement(before: seq<string>, after: seq<string>, i: nat, i': nat, j: nat, j': nat, k: nat)
    requires EqualGap(before, after, i, i', j, j') && k < i' - i
    ensures i' - i == j' - j && before[i + k] == after[j + k]
  {
    assert |before[i..i']| == |after[j..j']|;
    assert before[i + k] == before[i..i'][k] == after[j..j'][k] == after[j + k];
  }

  /** Where the gap before hunk `n` starts lies inside both sequences. */
  lemma {:induction false} GapStarts(before: seq<string>, after: seq<string>, hunks: seq<Hunk>, n: nat)
    requires ValidHunks(before, after, hunks) && n <= |hunks|
    ensures OldAt(hunks, n) <= |before| && NewAt(hunks, n) <= |after|
  {
    if n < |hunks| {
      assert HunkFits(before, after, hunks, n);
    }
  }

  lemma {:induction false} OpsOfTile(before: seq<string>, after: seq<string>, hunks: seq<Hunk>, n: nat)
    requires ValidHunks(before, after, hunks) && n <= |hunks|
    ensures OpsTile(before, after, OpsOf(hunks, |before|, n), OldAt(hunks, n), NewAt(hunks, n))
    decreases |hunks| - n
  {
    var i, j := OldAt(hunks, n), NewAt(hunks, n);
    if n == |hunks| {
      GapTile(before, after, [], i, |before|, j, |after|);
      assert GapOp(i, j, |before|) + [] == GapOp(i, j, |before|);
    } else {
      var h := hunks[n];
      assert HunkFits(before, after, hunks, n);
      OpsOfTile(before, after, hunks, n + 1);
      GapStarts(before, after, hunks, n + 1);
      HunkTile(before, after, h, OpsOf(hunks, |before|, n + 1));
      GapTile(before, after, HunkOp(h) + OpsOf(hunks, |before|, n + 1), i, h.oldStart, j, h.newStart);
    }
  }

  /** The ops of the gap before one hunk and of the hunk. */
  method PushHunk(done: seq<DiffOp>, h: Hunk, oldIdx: nat, newIdx: nat) returns (ops: seq<DiffOp>)
    requires WellShaped(h)
    ensures ops == (done + GapOp(oldIdx, newIdx, h.oldStart)) + HunkOp(h)
  {
    ops := done;
    if oldIdx < h.oldStart {
      ops := ops + [Equal(oldIdx, newIdx, h.oldStart - oldIdx)];
    }
    assert ops == done + GapOp(oldIdx, newIdx, h.oldStart);
    ghost var gapped := ops;
    var oldHunkLen := h.oldEnd - h.oldStart;
    var newHunkLen := h.newEnd - h.newStart;
    if oldHunkLen > 0 && newHunkLen > 0 {
      ops := ops + [Replace(h.oldStart, oldHunkLen, h.newStart, newHunkLen)];
    } else if oldHunkLen > 0 {
      ops := ops + [Delete(h.oldStart, oldHunkLen, h.newStart)];
    } else if newHunkLen > 0 {
      ops := ops + [Insert(h.oldStart, h.newStart, newHunkLen)];
    }
    assert ops == gapped + HunkOp(h);
  }

  /** `hunks_to_diff_ops`. */
  method HunksToDiffOps(hunks: seq<Hunk>, oldLen: nat) returns (ops: seq<DiffOp>)
    requires forall k | 0 <= k < |hunks| :: WellShaped(hunks[k])
    ensures ops == OpsOf(hunks, oldLen)
  {
    ops := [];
    var oldIdx: nat, newIdx: nat := 0, 0;
    for n := 0 to |hunks|
      invariant oldIdx == OldAt(hunks, n) && newIdx == NewAt(hunks, n)
      invariant ops + OpsOf(hunks, oldLen, n) == OpsOf(hunks, oldLen)
    {
      var h := hunks[n];
      Regroup(ops, GapOp(oldIdx, newIdx, h.oldStart), HunkOp(h), OpsOf(hunks, oldLen, n + 1));
      ops := PushHunk(ops, h, oldIdx, newIdx);
      oldIdx := h.oldEnd;
      newIdx := h.newEnd;
    }
    if oldIdx < oldLen {
      ops := ops + [Equal(oldIdx, newIdx, oldLen - oldIdx)];
    }
  }

  lemma {:induction false} Regroup<T>(a: seq<T>, b: seq<T>, c: seq<T>, d: seq<T>)
    ensures ((a + b) + c) + d == a + (b + (c + d))
  {
  }

  /** The diff of two sequences, as a function of the hunks the library returns. */
  ghost function DiffSpec(differ: Differ, before: seq<string>, after: seq<string>): (ops: seq<DiffOp>)
    requires HonestDiffer(differ)
  {
    assert ValidHunks(before, after, differ(before, after));
    OpsOf(differ(before, after), |before|)
  }

  /** `capture_diff_slices`. */
  method CaptureDiffSlices(differ: Differ, before: seq<string>, after: seq<string>) returns (ops: seq<DiffOp>)
    requires HonestDiffer(differ)
    ensures ops == DiffSpec(differ, before, after)
  {
    var hunks := differ(before, after);
    assert ValidHunks(before, after, hunks);
    ops := HunksToDiffOps(hunks, |before|);
  }

  lemma {:induction false} DiffTiles(differ: Differ, before: seq<string>, after: seq<string>)
    requires HonestDiffer(differ)
    ensures OpsTile(before, after, DiffSpec(differ, before, after), 0, 0)
  {
    assert ValidHunks(before, after, differ(before, after));
    OpsOfTile(before, after, differ(before, after), 0);
  }

  // ----- Which old element a new element is paired with -----

  /**
   * The old element that new element `k` is paired with, read off the hunks:
   * none inside a hunk, and elsewhere the one at the same distance from the hunk before.
   */
  function Counterpart(hunks: seq<Hunk>, k: nat, n: nat := 0): Option<nat>
    requires n <= |hunks| && NewAt(hunks, n) <= k
    decreases |hunks| - n
  {
    if n == |hunks| || k < hunks[n].newStart then Some(OldAt(hunks, n) + (k - NewAt(hunks, n)))
    else if k < hunks[n].newEnd then None
    else Counterpart(hunks, k, n + 1)
  }

  /** The same pairing read off the ops. */
  ghost function OpCounterpart(ops: seq<DiffOp>, k: nat): Option<nat> {
    if ops == [] then None else
    var (w0, w1) := SpanOf(ops[0], false);
    if w0 <= k < w1 then (if ops[0].Equal? then Some(ops[0].oldIndex + (k - w0)) else None)
    else OpCounterpart(ops[1..], k)
  }

  lemma {:induction false} OpCounterpartSkip(op: DiffOp, rest: seq<DiffOp>, k: nat)
    ensures var (w0, w1) := SpanOf(op, false);
            OpCounterpart([op] + rest, k)
            == if w0 <= k < w1 then (if op.Equal? then Some(op.oldIndex + (k - w0)) else None)
               else OpCounterpart(rest, k)
  {
    assert ([op] + rest)[1..] == rest;
  }

  lemma {:induction false} CounterpartOfOps(before: seq<string>, after: seq<string>, hunks: seq<Hunk>, k: nat, n: nat)
    requires ValidHunks(before, after, hunks) && n <= |hunks|
    requires NewAt(hunks, n) <= k < |after|
    ensures OpCounterpart(OpsOf(hunks, |before|, n), k) == Counterpart(hunks, k, n)
    decreases |hunks| - n
  {
    var i, j := OldAt(hunks, n), NewAt(hunks, n);
    if n == |hunks| {
      assert |before[i..|before|]| == |after[j..|after|]|;
      OpCounterpartSkip(Equal(i, j, |before| - i), [], k);
      assert OpsOf(hunks, |before|, n) == [Equal(i, j, |before| - i)] + [];
    } else {
      var h := hunks[n];
      var rest := OpsOf(hunks, |before|, n + 1);
      var mid := HunkOp(h) + rest;
      assert HunkFits(before, after, hunks, n);
      assert |before[i..h.oldStart]| == |after[j..h.newStart]|;
      if i < h.oldStart {
        OpCounterpartSkip(Equal(i, j, h.oldStart - i), mid, k);
      } else {
        assert [] + mid == mid;
      }
      if h.newStart <= k {
        if HunkOp(h) == [] {
          assert mid == rest;
        } else {
          OpCounterpartSkip(HunkOp(h)[0], rest, k);
          assert mid == [HunkOp(h)[0]] + rest;
        }
        if h.newEnd <= k {
          CounterpartOfOps(before, after, hunks, k, n + 1);
        }
      }
    }
  }

  /** A new element is paired, the first of a changed stretch (which may replace old elements), or later in one. */
  datatype Role = Paired(partner: nat) | Starts(over: Option<nat>) | Continues

  /** The role of new element `k`, read off the hunks. */
  function RoleOf(hunks: seq<Hunk>, k: nat, n: nat := 0): Role
    requires n <= |hunks| && NewAt(hunks, n) <= k
    decreases |hunks| - n
  {
    if n == |hunks| || k < hunks[n].newStart then Paired(OldAt(hunks, n) + (k - NewAt(hunks, n)))
    else if k < hunks[n].newEnd then
      if k > hunks[n].newStart then Continues
      else Starts(if hunks[n].oldStart < hunks[n].oldEnd then Some(hunks[n].oldStart) else None)
    else RoleOf(hunks, k, n + 1)
  }

  lemma {:induction false} RoleIsCounterpart(hunks: seq<Hunk>, k: nat, n: nat)
    requires n <= |hunks| && NewAt(hunks, n) <= k
    ensures Counterpart(hunks, k, n) == match RoleOf(hunks, k, n) case Paired(o) => Some(o) case _ => None
    decreases |hunks| - n
  {
    if n < |hunks| && hunks[n].newStart <= k && hunks[n].newEnd <= k {
      RoleIsCounterpart(hunks, k, n + 1);
    }
  }

  /** The same read off the ops. */
  ghost function OpRole(ops: seq<DiffOp>, k: nat): Role {
    if ops == [] then Continues else
    var (w0, w1) := SpanOf(ops[0], false);
    if w0 <= k < w1 then RoleIn(ops[0], k - w0) else OpRole(ops[1..], k)
  }

  /** The role of the element at distance `d` into an op. */
  function RoleIn(op: DiffOp, d: nat): Role {
    match op
    case Equal(i, _, _) => Paired(i + d)
    case Replace(i, _, _, _) => if d == 0 then Starts(Some(i)) else Continues
    case _ => if d == 0 then Starts(None) else Continues
  }

  lemma {:induction false} OpRoleSkip(op: DiffOp, rest: seq<DiffOp>, k: nat)
    ensures var (w0, w1) := SpanOf(op, false);
            OpRole([op] + rest, k) == if w0 <= k < w1 then RoleIn(op, k - w0) else OpRole(rest, k)
  {
    assert ([op] + rest)[1..] == rest;
  }

  lemma {:induction false} RoleOfOps(before: seq<string>, after: seq<string>, hunks: seq<Hunk>, k: nat, n: nat)
    requires ValidHunks(before, after, hunks) && n <= |hunks|
    requires NewAt(hunks, n) <= k < |after|
    ensures OpRole(OpsOf(hunks, |before|, n), k) == RoleOf(hunks, k, n)
    decreases |hunks| - n
  {
    var i, j := OldAt(hunks, n), NewAt(hunks, n);
    hide ValidHunks, HunkFits, EqualGap;
    if n == |hunks| {
      GapSizes(before, after, hunks, n);
      OpRoleSkip(Equal(i, j, |before| - i), [], k);
      assert OpsOf(hunks, |before|, n) == [Equal(i, j, |before| - i)] + [];
    } else {
      var h := hunks[n];
      var rest := OpsOf(hunks, |before|, n + 1);
      GapSizes(before, after, hunks, n);
      if i < h.oldStart {
        OpRoleSkip(Equal(i, j, h.oldStart - i), HunkOp(h) + rest, k);
      } else {
        assert [] + (HunkOp(h) + rest) == HunkOp(h) + rest;
      }
      if h.newStart <= k {
        HunkRole(h, rest, k);
        if h.newEnd <= k {
          RoleOfOps(before, after, hunks, k, n + 1);
        }
      }
    }
  }

  /** A gap is as long on the old side as on the new one. */
  lemma {:induction false} GapSizes(before: seq<string>, after: seq<string>, hunks: seq<Hunk>, n: nat)
    requires ValidHunks(before, after, hunks) && n <= |hunks|
    ensures n < |hunks| ==> WellShaped(hunks[n]) && hunks[n].oldStart >= OldAt(hunks, n)
                            && hunks[n].oldStart - OldAt(hunks, n) == hunks[n].newStart - NewAt(hunks, n)
    ensures n == |hunks| ==> |before| >= OldAt(hunks, n) && |before| - OldAt(hunks, n) == |after| - NewAt(hunks, n)
    ensures forall m | 0 <= m < |hunks| :: WellShaped(hunks[m])
  {
    if n == |hunks| {
      assert |before[OldAt(hunks, n)..|before|]| == |after[NewAt(hunks, n)..|after|]|;
    } else {
      assert HunkFits(before, after, hunks, n);
      assert |before[OldAt(hunks, n)..hunks[n].oldStart]| == |after[NewAt(hunks, n)..hunks[n].newStart]|;
    }
  }

  lemma {:induction false} HunkRole(h: Hunk, rest: seq<DiffOp>, k: nat)
    requires WellShaped(h) && h.newStart <= k
    ensures OpRole(HunkOp(h) + rest, k)
         == if h.newEnd <= k then OpRole(rest, k)
            else if k > h.newStart then Continues
            else Starts(if h.oldStart < h.oldEnd then Some(h.oldStart) else None)
  {
    if HunkOp(h) == [] {
      assert HunkOp(h) + rest == rest;
    } else {
      OpRoleSkip(HunkOp(h)[0], rest, k);
      assert HunkOp(h) + rest == [HunkOp(h)[0]] + rest;
    }
  }

  /** Paired elements are equal. */
  lemma {:induction false} CounterpartIsEqual(before: seq<string>, after: seq<string>, hunks: seq<Hunk>, k: nat, n: nat)
    requires ValidHunks(before, after, hunks) && n <= |hunks| && NewAt(hunks, n) <= k < |after|
    ensures Counterpart(hunks, k, n).Some? ==>
              var o := Counterpart(hunks, k, n).value; o < |before| && before[o] == after[k]
    decreases |hunks| - n
  {
    var i, j := OldAt(hunks, n), NewAt(hunks, n);
    if n == |hunks| {
      assert |before[i..]| == |after[j..]|;
      GapElement(before, after, i, |before|, j, |after|, k - j);
    } else if k < hunks[n].newStart {
      assert HunkFits(before, after, hunks, n);
      assert |before[i..hunks[n].oldStart]| == |after[j..hunks[n].newStart]|;
      GapElement(before, after, i, hunks[n].oldStart, j, hunks[n].newStart, k - j);
    } else if hunks[n].newEnd <= k {
      CounterpartIsEqual(before, after, hunks, k, n + 1);
    }
  }

  // ----- The pairing, hunk by hunk -----

  /** Hunk `n` and the gap before it: in order, and the gap is as long on both sides. */
  lemma {:induction false} HunkOrder(before: seq<string>, after: seq<string>, hunks: seq<Hunk>, n: nat)
    requires ValidHunks(before, after, hunks) && n < |hunks|
    ensures OldAt(hunks, n) <= hunks[n].oldStart <= hunks[n].oldEnd == OldAt(hunks, n + 1)
    ensures NewAt(hunks, n) <= hunks[n].newStart <= hunks[n].newEnd == NewAt(hunks, n + 1)
    ensures hunks[n].oldStart - OldAt(hunks, n) == hunks[n].newStart - NewAt(hunks, n)
  {
    GapSizes(before, after, hunks, n);
    hide ValidHunks;
  }

  /** What comes before hunk `n` does not matter for what comes after it. */
  lemma {:induction false} CounterpartFrom(before: seq<string>, after: seq<string>, hunks: seq<Hunk>, n: nat, j: nat)
    requires ValidHunks(before, after, hunks) && n <= |hunks| && NewAt(hunks, n) <= j
    ensures Counterpart(hunks, j) == Counterpart(hunks, j, n)
  {
    if n > 0 {
      HunkOrder(before, after, hunks, n - 1);
      hide ValidHunks;
      CounterpartFrom(before, after, hunks, n - 1, j);
    }
  }

  lemma {:induction false} OldAtRises(before: seq<string>, after: seq<string>, hunks: seq<Hunk>, m: nat, n: nat)
    requires ValidHunks(before, after, hunks) && m <= n <= |hunks|
    ensures OldAt(hunks, m) <= OldAt(hunks, n)
    decreases n - m
  {
    hide ValidHunks, OldAt;
    if m < n {
      HunkOrder(before, after, hunks, n - 1);
      OldAtRises(before, after, hunks, m, n - 1);
    }
  }

  /** The old elements of a hunk have no partner. */
  lemma {:induction false} NoPartner(before: seq<string>, after: seq<string>, hunks: seq<Hunk>, n: nat, i: nat, j: nat,
                                     m: nat)
    requires ValidHunks(before, after, hunks) && n < |hunks| && hunks[n].oldStart <= i < hunks[n].oldEnd
    requires m <= |hunks| && NewAt(hunks, m) <= j
    ensures Counterpart(hunks, j, m) != Some(i)
    decreases |hunks| - m
  {
    HunkOrder(before, after, hunks, n);
    if m <= n {
      HunkOrder(before, after, hunks, m);
      OldAtRises(before, after, hunks, m, n);
      if m < n {
        OldAtRises(before, after, hunks, m + 1, n);
      }
    } else {
      OldAtRises(before, after, hunks, n + 1, m);
    }
    hide ValidHunks;
    if m < |hunks| && hunks[m].newEnd <= j && hunks[m].newStart <= j {
      NoPartner(before, after, hunks, n, i, j, m + 1);
    }
  }

  // ----- Consuming the ops one by one -----

  /** The ops from number `t` on are still to do, and start at old element `i` and new element `j`. */
  ghost predicate Remaining(before: seq<string>, after: seq<string>, ops: seq<DiffOp>, t: nat, i: nat, j: nat) {
    && t <= |ops|
    && OpsTile(before, after, ops[t..], i, j)
    && i <= |before| && j <= |after|
    && (forall k: nat | j <= k :: OpCounterpart(ops[t..], k) == OpCounterpart(ops, k))
    && (forall k: nat | j <= k :: OpRole(ops[t..], k) == OpRole(ops, k))
  }

  /** The next op, and what it says about the elements it spans. */
  lemma {:induction false} NextOp(before: seq<string>, after: seq<string>, ops: seq<DiffOp>, t: nat, i: nat, j: nat)
    requires Remaining(before, after, ops, t, i, j) && t < |ops|
    ensures var op := ops[t];
            var (i', j') := (SpanOf(op, true).1, SpanOf(op, false).1);
            && OpFits(before, after, op, i, j)
            && i' <= |before| && j' <= |after|
            && Remaining(before, after, ops, t + 1, i', j')
            && (forall k: nat | j <= k < j' ::
                  OpCounterpart(ops, k) == if op.Equal? then Some(i + (k - j)) else None)
            && (forall k: nat | j <= k < j' :: OpRole(ops, k) == RoleIn(op, k - j))
  {
    var rest := ops[t + 1..];
    assert ops[t..] == [ops[t]] + rest && ops[t..][1..] == rest;
    var op := ops[t];
    var j' := SpanOf(op, false).1;
    forall k: nat | j <= k
      ensures OpCounterpart(ops, k)
           == if k < j' then (if op.Equal? then Some(i + (k - j)) else None) else OpCounterpart(rest, k)
    {
      OpCounterpartSkip(op, rest, k);
    }
    forall k: nat | j <= k ensures OpRole(ops, k) == if k < j' then RoleIn(op, k - j) else OpRole(rest, k) {
      OpRoleSkip(op, rest, k);
    }
  }

  lemma {:induction false} StartRemaining(differ: Differ, before: seq<string>, after: seq<string>)
    requires HonestDiffer(differ)
    ensures Remaining(before, after, DiffSpec(differ, before, after), 0, 0, 0)
  {
    DiffTiles(differ, before, after);
    var ops := DiffSpec(differ, before, after);
    assert ops[0..] == ops;
  }

  lemma {:induction false} NoneRemaining(before: seq<string>, after: seq<string>, ops: seq<DiffOp>, i: nat, j: nat)
    requires Remaining(before, after, ops, |ops|, i, j)
    ensures i == |before| && j == |after|
  {
  }
}
