/** Giving unowned text to an author (`attribute_unattributed_ranges`), on UTF-8 byte positions. */
module Unattributed {
  import opened Prelude
  import opened Attributions

  /** `char::len_utf8`. */
  function Utf8Len(c: char): (n: nat)
    ensures 1 <= n <= 4
  {
    var v := c as int;
    if v < 0x80 then 1 else if v < 0x800 then 2 else if v < 0x1_0000 then 3 else 4
  }

  /** Byte position of character `i`. */
  function Offset(c: string, i: nat): nat
    requires i <= |c|
  {
    if i == 0 then 0 else Offset(c, i - 1) + Utf8Len(c[i - 1])
  }

  lemma {:induction false} OffsetMonotone(c: string, i: nat, j: nat)
    requires i <= j <= |c|
    ensures Offset(c, i) + (j - i) <= Offset(c, j)
    decreases j - i
  {
    if i < j {
      OffsetMonotone(c, i, j - 1);
    }
  }

  predicate OverlapsSome(attrs: seq<Attribution>, start: nat, end: nat) {
    exists k | 0 <= k < |attrs| :: Overlaps(attrs[k], start, end)
  }

  /** Character `i` is overlapped by an attribution. */
  predicate Covered(c: string, attrs: seq<Attribution>, i: nat)
    requires i < |c|
  {
    OverlapsSome(attrs, Offset(c, i), Offset(c, i + 1))
  }

  /** Characters `[i, j)` are a maximal run without attribution. */
  ghost predicate IsGap(c: string, attrs: seq<Attribution>, i: nat, j: nat) {
    && i < j <= |c|
    && (forall k | i <= k < j :: !Covered(c, attrs, k))
    && (i > 0 ==> Covered(c, attrs, i - 1))
    && (j < |c| ==> Covered(c, attrs, j))
  }

  ghost function GapRanges(c: string, gaps: seq<(nat, nat)>, author: string, ts: nat): (r: seq<Attribution>)
    requires forall k | 0 <= k < |gaps| :: gaps[k].0 < gaps[k].1 <= |c|
    ensures |r| == |gaps|
    ensures forall k | 0 <= k < |r| :: r[k] == Attribution(Offset(c, gaps[k].0), Offset(c, gaps[k].1), author, ts)
  {
    if gaps == [] then [] else
    var (i, j) := gaps[|gaps| - 1];
    GapRanges(c, gaps[..|gaps| - 1], author, ts) + [Attribution(Offset(c, i), Offset(c, j), author, ts)]
  }

  /** The gaps, in order, with attributed text between them. */
  ghost predicate AreGaps(c: string, attrs: seq<Attribution>, gaps: seq<(nat, nat)>) {
    && (forall k | 0 <= k < |gaps| :: IsGap(c, attrs, gaps[k].0, gaps[k].1))
    && (forall k, m | 0 <= k < m < |gaps| :: gaps[k].1 < gaps[m].0)
  }

  /** Ranges of earlier gaps do not reach character `i`. */
  lemma {:induction false} OldGapsDoNotReach(c: string, prev: seq<Attribution>, gaps: seq<(nat, nat)>, author: string,
                                             ts: nat, i: nat)
    requires i < |c| && AreGaps(c, prev, gaps) && forall k | 0 <= k < |gaps| :: gaps[k].1 <= i
    ensures forall k | 0 <= k < |gaps| :: gaps[k].0 < gaps[k].1 <= |c|
    ensures OverlapsSome(prev + GapRanges(c, gaps, author, ts), Offset(c, i), Offset(c, i + 1)) <==> Covered(c, prev, i)
  {
    var added := GapRanges(c, gaps, author, ts);
    var all := prev + added;
    if Covered(c, prev, i) {
      var k :| 0 <= k < |prev| && Overlaps(prev[k], Offset(c, i), Offset(c, i + 1));
      assert all[k] == prev[k];
    }
    forall k | |prev| <= k < |all| ensures !Overlaps(all[k], Offset(c, i), Offset(c, i + 1)) {
      OffsetMonotone(c, gaps[k - |prev|].1, i);
      assert all[k] == added[k - |prev|];
    }
    if OverlapsSome(all, Offset(c, i), Offset(c, i + 1)) {
      var k :| 0 <= k < |all| && Overlaps(all[k], Offset(c, i), Offset(c, i + 1));
      assert all[k] == prev[k];
    }
  }

  lemma {:induction false} GapIsOverlapped(c: string, prev: seq<Attribution>, gaps: seq<(nat, nat)>, author: string,
                                           ts: nat, g: nat, i: nat)
    requires forall k | 0 <= k < |gaps| :: gaps[k].0 < gaps[k].1 <= |c|
    requires g < |gaps| && gaps[g].0 <= i < gaps[g].1
    ensures Covered(c, prev + GapRanges(c, gaps, author, ts), i)
  {
    var added := GapRanges(c, gaps, author, ts);
    OffsetMonotone(c, gaps[g].0, i);
    OffsetMonotone(c, i + 1, gaps[g].1);
    OffsetMonotone(c, i, i + 1);
    assert (prev + added)[|prev| + g] == added[g];
    assert Overlaps((prev + added)[|prev| + g], Offset(c, i), Offset(c, i + 1));
  }

  lemma {:induction false} CoveredStays(c: string, prev: seq<Attribution>, more: seq<Attribution>, i: nat)
    requires i < |c| && Covered(c, prev, i)
    ensures Covered(c, prev + more, i)
  {
    var k :| 0 <= k < |prev| && Overlaps(prev[k], Offset(c, i), Offset(c, i + 1));
    assert (prev + more)[k] == prev[k];
  }

  /**
   * `attribute_unattributed_ranges`: the given list stays a prefix, exactly the maximal runs
   * without attribution are added, in order, and then every character is overlapped.  The
   * list that is queried grows during the loop.
   */
  method AttributeUnattributedRanges(content: string, prev: seq<Attribution>, author: string, ts: nat)
    returns (attributions: seq<Attribution>, ghost gaps: seq<(nat, nat)>)
    ensures AreGaps(content, prev, gaps)
    ensures forall i: nat, j: nat :: IsGap(content, prev, i, j) ==> (i, j) in gaps
    ensures attributions == prev + GapRanges(content, gaps, author, ts)
    ensures forall i | 0 <= i < |content| :: Covered(content, attributions, i)
  {
    attributions, gaps := prev, [];
    NoGaps(content, prev, author, ts);
    hide OverlapsSome, Covered, GapRanges, AreGaps, Utf8Len;
    var rangeStart: Option<nat> := None;
    ghost var s: nat := 0;
    var idx := 0;
    for i := 0 to |content|
      invariant idx == Offset(content, i)
      invariant AreGaps(content, prev, gaps) && forall k | 0 <= k < |gaps| :: gaps[k].1 < |content|
      invariant forall k | 0 <= k < |gaps| :: gaps[k].1 < i
      invariant forall k | 0 <= k < |gaps| :: gaps[k].0 < gaps[k].1 <= |content|
      invariant attributions == prev + GapRanges(content, gaps, author, ts)
      invariant rangeStart.None? ==> s == i && (i > 0 ==> Covered(content, prev, i - 1))
      invariant rangeStart.Some? ==>
        && s < i && rangeStart.value == Offset(content, s)
        && (forall k | s <= k < i :: !Covered(content, prev, k))
        && (s > 0 ==> Covered(content, prev, s - 1))
        && (forall k | 0 <= k < |gaps| :: gaps[k].1 < s)
      invariant forall k | 0 <= k < s && !Covered(content, prev, k) :: InGap(gaps, k)
    {
      var end := idx + Utf8Len(content[i]);
      OldGapsDoNotReach(content, prev, gaps, author, ts, i);
      var covered := OverlapsSome(attributions, idx, end);
      if covered {
        if rangeStart.Some? {
          var start := rangeStart.value;
          rangeStart := None;
          OffsetMonotone(content, s, i);
          if start < idx {
            PushGap(content, prev, gaps, author, ts, s, i);
            attributions := attributions + [Attribution(start, idx, author, ts)];
            gaps := gaps + [(s, i)];
          }
        }
        s := i + 1;
      } else if rangeStart.None? {
        rangeStart := Some(idx);
        s := i;
      }
      idx := end;
    }
    if rangeStart.Some? {
      var start := rangeStart.value;
      OffsetMonotone(content, s, |content|);
      if start < idx {
        PushGap(content, prev, gaps, author, ts, s, |content|);
        attributions := attributions + [Attribution(start, idx, author, ts)];
        gaps := gaps + [(s, |content|)];
      }
    }
    AllGaps(content, prev, gaps, author, ts);
  }

  lemma {:induction false} NoGaps(c: string, prev: seq<Attribution>, author: string, ts: nat)
    ensures AreGaps(c, prev, []) && prev + GapRanges(c, [], author, ts) == prev
  {
  }

  ghost predicate InGap(gaps: seq<(nat, nat)>, k: nat) {
    exists g | 0 <= g < |gaps| :: gaps[g].0 <= k < gaps[g].1
  }

  lemma {:induction false} PushGap(c: string, prev: seq<Attribution>, gaps: seq<(nat, nat)>, author: string, ts: nat,
                                   s: nat, e: nat)
    requires AreGaps(c, prev, gaps) && IsGap(c, prev, s, e)
    requires forall k | 0 <= k < |gaps| :: gaps[k].1 < s
    ensures AreGaps(c, prev, gaps + [(s, e)])
    ensures (prev + GapRanges(c, gaps, author, ts)) + [Attribution(Offset(c, s), Offset(c, e), author, ts)]
         == prev + GapRanges(c, gaps + [(s, e)], author, ts)
    ensures forall k: nat | InGap(gaps, k) || s <= k < e :: InGap(gaps + [(s, e)], k)
  {
    var gaps' := gaps + [(s, e)];
    assert gaps'[..|gaps|] == gaps && gaps'[|gaps|] == (s, e);
    forall k: nat | InGap(gaps, k) || s <= k < e ensures InGap(gaps', k) {
      if InGap(gaps, k) {
        var g :| 0 <= g < |gaps| && gaps[g].0 <= k < gaps[g].1;
        assert gaps'[g] == gaps[g];
      } else {
        assert gaps'[|gaps|].0 <= k < gaps'[|gaps|].1;
      }
    }
  }

  lemma {:induction false} AllGaps(c: string, prev: seq<Attribution>, gaps: seq<(nat, nat)>, author: string, ts: nat)
    requires AreGaps(c, prev, gaps)
    requires forall k | 0 <= k < |c| && !Covered(c, prev, k) :: InGap(gaps, k)
    ensures forall i: nat, j: nat :: IsGap(c, prev, i, j) ==> (i, j) in gaps
    ensures forall i | 0 <= i < |c| :: Covered(c, prev + GapRanges(c, gaps, author, ts), i)
  {
    forall i: nat, j: nat | IsGap(c, prev, i, j) ensures (i, j) in gaps {
      assert InGap(gaps, i);
      var g :| 0 <= g < |gaps| && gaps[g].0 <= i < gaps[g].1;
      assert IsGap(c, prev, gaps[g].0, gaps[g].1);
      SameGap(c, prev, i, j, gaps[g].0, gaps[g].1);
      assert gaps[g] == (i, j);
    }
    forall i | 0 <= i < |c| ensures Covered(c, prev + GapRanges(c, gaps, author, ts), i) {
      if Covered(c, prev, i) {
        CoveredStays(c, prev, GapRanges(c, gaps, author, ts), i);
      } else {
        var g :| 0 <= g < |gaps| && gaps[g].0 <= i < gaps[g].1;
        GapIsOverlapped(c, prev, gaps, author, ts, g, i);
      }
    }
  }

  /** Two maximal runs that share a character are the same run. */
  lemma {:induction false} SameGap(c: string, attrs: seq<Attribution>, i: nat, j: nat, i': nat, j': nat)
    requires IsGap(c, attrs, i, j) && IsGap(c, attrs, i', j') && i' <= i < j'
    ensures i == i' && j == j'
  {
  }
}
