/** The one-pass scans of `transform_attributions`. */
module Cursors {
  // A cursor that only moves forward replaces a search through the whole attribution list; both forms
  // are given, and the loops are proved equal to the search.
  import opened Prelude
  import opened Attributions
  import opened Sorting

  ghost predicate WellFormed(attrs: seq<Attribution>) {
    forall k | 0 <= k < |attrs| :: attrs[k].start <= attrs[k].end
  }

  ghost predicate StartsSorted(attrs: seq<Attribution>) {
    forall i, j | 0 <= i < j < |attrs| :: attrs[i].start <= attrs[j].start
  }

  lemma {:induction false} SortedStarts(attrs: seq<Attribution>)
    requires SortedBy(attrs, AttrLe)
    ensures StartsSorted(attrs)
  {
    forall i, j | 0 <= i < j < |attrs| ensures attrs[i].start <= attrs[j].start {
      assert AttrLe(attrs[i], attrs[j]);
    }
  }

  // ----- Copying what overlaps a segment -----

  /** The part of `a` inside `[lo, hi)`, moved so that `lo` lands on `to`. */
  function CopyOne(a: Attribution, lo: nat, hi: nat, to: nat): seq<Attribution> {
    match Intersection(a, lo, hi)
    case Some((s, e)) => [Attribution(to + (s - lo), to + (s - lo) + (e - s), a.author, a.ts)]
    case None => []
  }

  /** The parts of attributions `i..k`, in list order. */
  function CopyRange(attrs: seq<Attribution>, i: nat, k: nat, lo: nat, hi: nat, to: nat): seq<Attribution>
    requires k <= |attrs|
    decreases k
  {
    if k <= i then [] else CopyRange(attrs, i, k - 1, lo, hi, to) + CopyOne(attrs[k - 1], lo, hi, to)
  }

  /** The search: every attribution is tried. */
  function CopyOverlaps(attrs: seq<Attribution>, lo: nat, hi: nat, to: nat): seq<Attribution> {
    CopyRange(attrs, 0, |attrs|, lo, hi, to)
  }

  /** Position `p` of the copy is owned by exactly the owners of the matching old position. */
  lemma {:induction false} CopyOwners(attrs: seq<Attribution>, lo: nat, hi: nat, to: nat, p: nat)
    requires lo <= hi
    ensures Owners(CopyOverlaps(attrs, lo, hi, to), p)
         == if to <= p < to + (hi - lo) then Owners(attrs, lo + (p - to)) else {}
  {
    CopyRangeOwners(attrs, |attrs|, lo, hi, to, p);
    assert attrs[..|attrs|] == attrs;
  }

  lemma {:induction false} CopyRangeOwners(attrs: seq<Attribution>, k: nat, lo: nat, hi: nat, to: nat, p: nat)
    requires lo <= hi && k <= |attrs|
    ensures Owners(CopyRange(attrs, 0, k, lo, hi, to), p)
         == if to <= p < to + (hi - lo) then Owners(attrs[..k], lo + (p - to)) else {}
  {
    if k == 0 {
      assert Owners([], p) == {} && forall q :: Owners([], q) == {};
    } else {
      var last := attrs[k - 1];
      assert attrs[..k] == attrs[..k - 1] + [last];
      CopyRangeOwners(attrs, k - 1, lo, hi, to, p);
      OwnersAppend(CopyRange(attrs, 0, k - 1, lo, hi, to), CopyOne(last, lo, hi, to), p);
      CopyOneOwners(last, lo, hi, to, p);
      if to <= p {
        OwnersAppend(attrs[..k - 1], [last], lo + (p - to));
        OwnersOne(last, lo + (p - to));
      }
    }
  }

  lemma {:induction false} CopyOneOwners(a: Attribution, lo: nat, hi: nat, to: nat, p: nat)
    requires lo <= hi
    ensures Owners(CopyOne(a, lo, hi, to), p)
         == if to <= p < to + (hi - lo) && Covers(a, lo + (p - to)) then {OwnerOf(a)} else {}
  {
    var c := CopyOne(a, lo, hi, to);
    if c == [] {
      assert Owners(c, p) == {};
    } else {
      OwnersOne(c[0], p);
      assert c == [c[0]];
    }
  }

  /** A copied entry stays inside its target and belongs to an old owner. */
  ghost predicate IsCopyOf(c: Attribution, attrs: seq<Attribution>, to: nat, len: nat) {
    to <= c.start < c.end <= to + len && exists a | a in attrs :: OwnerOf(a) == OwnerOf(c)
  }

  lemma {:induction false} CopyEntries(attrs: seq<Attribution>, i: nat, k: nat, lo: nat, hi: nat, to: nat)
    requires lo <= hi && k <= |attrs|
    ensures forall c | c in CopyRange(attrs, i, k, lo, hi, to) :: IsCopyOf(c, attrs, to, hi - lo)
    decreases k
  {
    if i < k {
      CopyEntries(attrs, i, k - 1, lo, hi, to);
      var last := attrs[k - 1];
      forall c | c in CopyOne(last, lo, hi, to) ensures IsCopyOf(c, attrs, to, hi - lo) {
        assert last in attrs && OwnerOf(last) == OwnerOf(c);
      }
    }
  }

  /** Attributions that end by `lo`, or start at `hi` or later, add nothing. */
  lemma {:induction false} CopySkips(attrs: seq<Attribution>, i: nat, k: nat, n: nat, lo: nat, hi: nat, to: nat)
    requires i <= k <= n <= |attrs|
    requires forall m | 0 <= m < i :: attrs[m].end <= lo
    requires forall m | k <= m < n :: attrs[m].start >= hi
    ensures CopyRange(attrs, 0, n, lo, hi, to) == CopyRange(attrs, i, k, lo, hi, to)
    decreases n
  {
    if k < n {
      CopySkips(attrs, i, k, n - 1, lo, hi, to);
    } else if i < k {
      CopySkips(attrs, i, k - 1, n - 1, lo, hi, to);
    } else if n > 0 {
      CopySkips(attrs, i - 1, k - 1, n - 1, lo, hi, to);
    }
  }

  /** All attributions before the cursor end by `lo`: no segment from `lo` on can need them again. */
  ghost predicate CursorAt(attrs: seq<Attribution>, cursor: nat, lo: nat) {
    cursor <= |attrs| && forall k | 0 <= k < cursor :: attrs[k].end <= lo
  }

  /** The scan of one Equal segment or one move source. */
  method CollectOverlaps(attrs: seq<Attribution>, cursor: nat, lo: nat, hi: nat, to: nat, out: seq<Attribution>,
                         ghost floor: nat)
    returns (out': seq<Attribution>, cursor': nat)
    requires StartsSorted(attrs) && CursorAt(attrs, cursor, floor) && floor <= lo
    ensures CursorAt(attrs, cursor', lo)
    ensures out' == out + CopyOverlaps(attrs, lo, hi, to)
  {
    out', cursor' := out, cursor;
    while cursor' < |attrs| && attrs[cursor'].end <= lo
      invariant CursorAt(attrs, cursor', lo)
    {
      cursor' := cursor' + 1;
    }
    var idx := cursor';
    while idx < |attrs|
      invariant cursor' <= idx <= |attrs|
      invariant out' == out + CopyRange(attrs, cursor', idx, lo, hi, to)
    {
      var a := attrs[idx];
      if a.start >= hi {
        break;
      }
      match Intersection(a, lo, hi)
      case Some((s, e)) =>
        var offset, len := s - lo, e - s;
        out' := out' + [Attribution(to + offset, to + offset + len, a.author, a.ts)];
        idx := idx + 1;
      case None =>
        idx := idx + 1;
    }
    CopySkips(attrs, cursor', idx, |attrs|, lo, hi, to);
  }

  // ----- Whose text an insertion continues -----

  /** Later timestamp first, then greater length. */
  predicate Better(a: Attribution, best: Attribution)
    requires a.start <= a.end && best.start <= best.end
  {
    a.ts > best.ts || (a.ts == best.ts && a.end - a.start > best.end - best.start)
  }

  /** The search: the best attribution among the first `n` that cover `position`, the first on ties. */
  function BestCovering(attrs: seq<Attribution>, position: nat, n: nat): Option<Attribution>
    requires n <= |attrs| && WellFormed(attrs)
    ensures BestCovering(attrs, position, n).Some? ==>
              BestCovering(attrs, position, n).value.start <= BestCovering(attrs, position, n).value.end
  {
    if n == 0 then None else
    var best := BestCovering(attrs, position, n - 1);
    var a := attrs[n - 1];
    if Covers(a, position) && (best.None? || Better(a, best.value)) then Some(a) else best
  }

  /** What the search returns, said without the search. */
  lemma {:induction false} BestCoveringMeaning(attrs: seq<Attribution>, position: nat, n: nat)
    requires n <= |attrs| && WellFormed(attrs)
    ensures match BestCovering(attrs, position, n)
            case None => forall k | 0 <= k < n :: !Covers(attrs[k], position)
            case Some(b) =>
              exists i | 0 <= i < n ::
                && attrs[i] == b && Covers(b, position)
                && (forall k | 0 <= k < n && Covers(attrs[k], position) :: !Better(attrs[k], b))
                && (forall k | 0 <= k < i && Covers(attrs[k], position) :: Better(b, attrs[k]))
  {
    if n > 0 {
      BestCoveringMeaning(attrs, position, n - 1);
      var best := BestCovering(attrs, position, n - 1);
      var a := attrs[n - 1];
      if best.Some? {
        var i :| 0 <= i < n - 1 && attrs[i] == best.value && Covers(best.value, position)
          && (forall k | 0 <= k < n - 1 && Covers(attrs[k], position) :: !Better(attrs[k], best.value))
          && (forall k | 0 <= k < i && Covers(attrs[k], position) :: Better(best.value, attrs[k]));
        if Covers(a, position) && Better(a, best.value) {
          assert attrs[n - 1] == a;
        } else {
          assert attrs[i] == best.value;
        }
      } else if Covers(a, position) {
        assert attrs[n - 1] == a;
      }
    }
  }

  /** Number of leading attributions that end by `position`. */
  function EndedBefore(attrs: seq<Attribution>, position: nat, from: nat := 0): (c: nat)
    requires from <= |attrs|
    ensures from <= c <= |attrs|
    ensures forall k | from <= k < c :: attrs[k].end <= position
    ensures c < |attrs| ==> attrs[c].end > position
    decreases |attrs| - from
  {
    if from < |attrs| && attrs[from].end <= position then EndedBefore(attrs, position, from + 1) else from
  }

  function FirstStartingAt(attrs: seq<Attribution>, position: nat, from: nat): Option<Attribution>
    requires from <= |attrs|
    decreases |attrs| - from
  {
    if from == |attrs| then None
    else if attrs[from].start >= position then Some(attrs[from])
    else FirstStartingAt(attrs, position, from + 1)
  }

  /**
   * `find_attribution_for_insertion` without its cursor: the best covering attribution; failing that,
   * the last of the leading ones that end before; failing that, the first that starts after.
   */
  function FindForInsertion(attrs: seq<Attribution>, position: nat): Option<Attribution>
    requires WellFormed(attrs)
  {
    var best := BestCovering(attrs, position, |attrs|);
    if best.Some? then best else
    var c := EndedBefore(attrs, position);
    if c > 0 then Some(attrs[c - 1]) else FirstStartingAt(attrs, position, 0)
  }

  /** Attributions that end before `position` or start after it do not change the search. */
  lemma {:induction false} BestSkips(attrs: seq<Attribution>, position: nat, i: nat, n: nat)
    requires i <= n <= |attrs| && WellFormed(attrs)
    requires forall k | i <= k < n :: !Covers(attrs[k], position)
    ensures BestCovering(attrs, position, n) == BestCovering(attrs, position, i)
    decreases n
  {
    if i < n {
      BestSkips(attrs, position, i, n - 1);
    }
  }

  lemma {:induction false} FindIsOld(attrs: seq<Attribution>, position: nat)
    requires WellFormed(attrs)
    ensures FindForInsertion(attrs, position).Some? ==> FindForInsertion(attrs, position).value in attrs
  {
    BestCoveringMeaning(attrs, position, |attrs|);
    FirstStartingIsOld(attrs, position, 0);
  }

  lemma {:induction false} FirstStartingIsOld(attrs: seq<Attribution>, position: nat, from: nat)
    requires from <= |attrs|
    ensures FirstStartingAt(attrs, position, from).Some? ==> FirstStartingAt(attrs, position, from).value in attrs
    decreases |attrs| - from
  {
    if from < |attrs| && attrs[from].start < position {
      FirstStartingIsOld(attrs, position, from + 1);
    }
  }

  /** `find_attribution_for_insertion`. */
  method FindAttributionForInsertion(attrs: seq<Attribution>, position: nat, cursorHint: nat, ghost floor: nat)
    returns (found: Option<Attribution>, cursorHint': nat)
    requires WellFormed(attrs) && StartsSorted(attrs)
    requires CursorAt(attrs, cursorHint, floor) && floor <= position
    ensures CursorAt(attrs, cursorHint', position)
    ensures found == FindForInsertion(attrs, position)
  {
    cursorHint' := cursorHint;
    if attrs == [] {
      return None, cursorHint';
    }
    while cursorHint' < |attrs| && attrs[cursorHint'].end <= position
      invariant CursorAt(attrs, cursorHint', position)
    {
      cursorHint' := cursorHint' + 1;
    }
    CursorIsEnded(attrs, cursorHint', position);
    BestSkips(attrs, position, 0, cursorHint');
    var best: Option<Attribution> := None;
    var idx := cursorHint';
    while idx < |attrs|
      invariant cursorHint' <= idx <= |attrs|
      invariant best == BestCovering(attrs, position, idx)
    {
      var a := attrs[idx];
      if a.start > position {
        break;
      }
      var better := best.None? || Better(a, best.value);
      if Overlaps(a, position, position + 1) && better {
        best := Some(a);
      }
      idx := idx + 1;
    }
    BestSkips(attrs, position, idx, |attrs|);
    if best.Some? {
      return best, cursorHint';
    }
    var before := if cursorHint' > 0 then Some(attrs[cursorHint' - 1]) else None;
    found := if before.Some? then before else FirstStartingAt(attrs, position, cursorHint');
  }

  lemma {:induction false} CursorIsEnded(attrs: seq<Attribution>, cursor: nat, position: nat)
    requires CursorAt(attrs, cursor, position)
    requires cursor < |attrs| ==> attrs[cursor].end > position
    ensures EndedBefore(attrs, position) == cursor
  {
    var c := EndedBefore(attrs, position);
  }
}
