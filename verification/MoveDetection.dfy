/**
 * Moved blocks of lines (`move_detection.rs`): sorting and trimming in place, groups of consecutive
 * lines, and the search for common runs through a table of hashes.
 */
module MoveDetection {
  import opened Prelude
  import Sorting

  /** An inserted or deleted line; `editIdx` says which insertion or deletion it belongs to. */
  datatype LineRecord = LineRecord(content: string, normalized: string, number: nat, editIdx: nat)

  datatype LineMapping = LineMapping(deletionGroup: nat, insertionGroup: nat,
                                     deleted: seq<LineRecord>, inserted: seq<LineRecord>)

  // ----- Normalising -----

  predicate NumberLe(a: LineRecord, b: LineRecord) {
    a.number <= b.number
  }

  function NormalizeAll(cc: CharClass, ls: seq<LineRecord>): (r: seq<LineRecord>)
    ensures |r| == |ls|
    ensures forall k | 0 <= k < |r| :: r[k] == ls[k].(normalized := Trim(cc, ls[k].content))
  {
    if ls == [] then [] else
    var l := ls[|ls| - 1];
    NormalizeAll(cc, ls[..|ls| - 1]) + [l.(normalized := Trim(cc, l.content))]
  }

  function Prepared(cc: CharClass, ls: seq<LineRecord>): seq<LineRecord> {
    NormalizeAll(cc, Sorting.Sort(ls, NumberLe))
  }

  /** The records, each with its trimmed content, in order of their numbers; records of one number keep their order. */
  lemma {:induction false} PreparedMeaning(cc: CharClass, ls: seq<LineRecord>) returns (sorted: seq<LineRecord>)
    ensures multiset(sorted) == multiset(ls)
    ensures forall i, j | 0 <= i < j < |sorted| :: sorted[i].number <= sorted[j].number
    ensures forall x :: Sorting.SameKey(sorted, x, NumberLe) == Sorting.SameKey(ls, x, NumberLe)
    ensures |Prepared(cc, ls)| == |sorted|
    ensures forall k | 0 <= k < |sorted| :: Prepared(cc, ls)[k] == sorted[k].(normalized := Trim(cc, sorted[k].content))
  {
    sorted := Sorting.Sort(ls, NumberLe);
    Sorting.SortIsSorted(ls, NumberLe);
    assert forall i, j | 0 <= i < j < |sorted| :: NumberLe(sorted[i], sorted[j]);
    forall x ensures Sorting.SameKey(sorted, x, NumberLe) == Sorting.SameKey(ls, x, NumberLe) {
      Sorting.SortIsStable(ls, x, NumberLe);
    }
  }

  /** `sort_and_normalize`, in place. */
  method SortAndNormalize(cc: CharClass, lines: array<LineRecord>)
    modifies lines
    ensures lines[..] == Prepared(cc, old(lines[..]))
  {
    var sorted := Sorting.Sort(lines[..], NumberLe);
    forall i | 0 <= i < lines.Length {
      lines[i] := sorted[i];
    }
    for i := 0 to lines.Length
      invariant forall k | 0 <= k < i :: lines[k] == sorted[k].(normalized := Trim(cc, sorted[k].content))
      invariant forall k | i <= k < lines.Length :: lines[k] == sorted[k]
    {
      var normalized := Trim(cc, lines[i].content);
      lines[i] := lines[i].(normalized := normalized);
    }
    assert lines[..] == NormalizeAll(cc, sorted);
  }

  // ----- Groups of consecutive non-blank lines -----

  /** A run of non-blank lines with consecutive numbers, as indices into the list. */
  ghost predicate IsRun(ls: seq<LineRecord>, g: seq<nat>) {
    && (forall k | 0 <= k < |g| :: g[k] < |ls| && ls[g[k]].normalized != [])
    && (forall k, m | 0 <= k < m < |g| :: g[k] < g[m] && ls[g[m]].number == ls[g[k]].number + (m - k))
  }

  /** Runs of at least `threshold` lines, in list order and without common lines. */
  ghost predicate AreGroups(ls: seq<LineRecord>, groups: seq<seq<nat>>, threshold: nat) {
    && (forall i | 0 <= i < |groups| :: IsRun(ls, groups[i]) && |groups[i]| >= threshold)
    && (forall i, j, k, m | 0 <= i < j < |groups| && 0 <= k < |groups[i]| && 0 <= m < |groups[j]| ::
          groups[i][k] < groups[j][m])
  }

  datatype Grouping = Grouping(groups: seq<seq<nat>>, current: seq<nat>, last: Option<nat>)

  function FlushGroup(groups: seq<seq<nat>>, current: seq<nat>, threshold: nat): seq<seq<nat>> {
    if |current| >= threshold then groups + [current] else groups
  }

  function GroupStep(g: Grouping, l: LineRecord, idx: nat, threshold: nat): Grouping {
    if l.normalized == [] then g
    else if g.last.Some? && l.number == g.last.value + 1 then
      Grouping(g.groups, g.current + [idx], Some(l.number))
    else
      Grouping(FlushGroup(g.groups, g.current, threshold), [idx], Some(l.number))
  }

  function GroupUpTo(ls: seq<LineRecord>, n: nat, threshold: nat): Grouping
    requires n <= |ls|
  {
    if n == 0 then Grouping([], [], None) else GroupStep(GroupUpTo(ls, n - 1, threshold), ls[n - 1], n - 1, threshold)
  }

  function GroupsOf(ls: seq<LineRecord>, threshold: nat): seq<seq<nat>> {
    var g := GroupUpTo(ls, |ls|, threshold);
    FlushGroup(g.groups, g.current, threshold)
  }

  /** `build_groups`. */
  method BuildGroups(ls: seq<LineRecord>, threshold: nat) returns (groups: seq<seq<nat>>)
    ensures groups == GroupsOf(ls, threshold)
  {
    groups := [];
    var current: seq<nat> := [];
    var lastNumber: Option<nat> := None;
    for idx := 0 to |ls|
      invariant Grouping(groups, current, lastNumber) == GroupUpTo(ls, idx, threshold)
    {
      var line := ls[idx];
      if line.normalized == [] {
        continue;
      }
      if lastNumber.Some? && line.number == lastNumber.value + 1 {
        current := current + [idx];
      } else {
        if |current| >= threshold {
          groups := groups + [current];
        }
        current := [idx];
      }
      lastNumber := Some(line.number);
    }
    if |current| >= threshold {
      groups := groups + [current];
    }
  }

  /** The finished groups, then the current run, all before line `n`. */
  ghost predicate GroupedUpTo(ls: seq<LineRecord>, g: Grouping, threshold: nat, n: nat) {
    && AreGroups(ls, g.groups, threshold)
    && IsRun(ls, g.current)
    && (forall k | 0 <= k < |g.current| :: g.current[k] < n)
    && (forall i, k | 0 <= i < |g.groups| && 0 <= k < |g.groups[i]| ::
          g.groups[i][k] < n && forall m | 0 <= m < |g.current| :: g.groups[i][k] < g.current[m])
    && (g.current == [] <==> g.last.None?)
    && (g.current != [] ==> g.last == Some(ls[g.current[|g.current| - 1]].number))
  }

  lemma {:induction false} FlushKeepsGroups(ls: seq<LineRecord>, g: Grouping, threshold: nat, n: nat)
    requires GroupedUpTo(ls, g, threshold, n)
    ensures AreGroups(ls, FlushGroup(g.groups, g.current, threshold), threshold)
  {
  }

  lemma {:induction false} ExtendRun(ls: seq<LineRecord>, g: Grouping, threshold: nat, n: nat)
    requires n < |ls| && GroupedUpTo(ls, g, threshold, n) && ls[n].normalized != []
    requires g.last.Some? && ls[n].number == g.last.value + 1
    ensures GroupedUpTo(ls, Grouping(g.groups, g.current + [n], Some(ls[n].number)), threshold, n + 1)
  {
    hide AreGroups;
    var c := g.current;
    forall k, m | 0 <= k < m < |c + [n]|
      ensures (c + [n])[k] < (c + [n])[m] && ls[(c + [n])[m]].number == ls[(c + [n])[k]].number + (m - k)
    {
      if m == |c| && k < |c| - 1 {
        assert ls[c[|c| - 1]].number == ls[c[k]].number + (|c| - 1 - k);
      }
    }
    assert IsRun(ls, c + [n]);
  }

  lemma {:induction false} RestartRun(ls: seq<LineRecord>, g: Grouping, threshold: nat, n: nat)
    requires n < |ls| && GroupedUpTo(ls, g, threshold, n) && ls[n].normalized != []
    ensures GroupedUpTo(ls, Grouping(FlushGroup(g.groups, g.current, threshold), [n], Some(ls[n].number)),
                        threshold, n + 1)
  {
    FlushKeepsGroups(ls, g, threshold, n);
    hide AreGroups, IsRun;
    assert IsRun(ls, [n]) by { OneRun(ls, n); }
  }

  lemma {:induction false} OneRun(ls: seq<LineRecord>, n: nat)
    requires n < |ls| && ls[n].normalized != []
    ensures IsRun(ls, [n])
  {
  }

  lemma {:induction false} SkipBlank(ls: seq<LineRecord>, g: Grouping, threshold: nat, n: nat)
    requires n < |ls| && GroupedUpTo(ls, g, threshold, n)
    ensures GroupedUpTo(ls, g, threshold, n + 1)
  {
    hide AreGroups, IsRun;
  }

  lemma {:induction false} NothingGrouped(ls: seq<LineRecord>, threshold: nat)
    ensures GroupedUpTo(ls, GroupUpTo(ls, 0, threshold), threshold, 0)
  {
  }

  lemma {:induction false} GroupUnfold(ls: seq<LineRecord>, n: nat, threshold: nat)
    requires 0 < n <= |ls|
    ensures var g, l := GroupUpTo(ls, n - 1, threshold), ls[n - 1];
            GroupUpTo(ls, n, threshold)
            == if l.normalized == [] then g
               else if g.last.Some? && l.number == g.last.value + 1 then
                 Grouping(g.groups, g.current + [n - 1], Some(l.number))
               else Grouping(FlushGroup(g.groups, g.current, threshold), [n - 1], Some(l.number))
  {
  }

  lemma {:induction false} GroupingCorrect(ls: seq<LineRecord>, n: nat, threshold: nat)
    requires n <= |ls|
    ensures GroupedUpTo(ls, GroupUpTo(ls, n, threshold), threshold, n)
  {
    hide *;
    if n == 0 {
      NothingGrouped(ls, threshold);
      return;
    }
    GroupingCorrect(ls, n - 1, threshold);
    GroupUnfold(ls, n, threshold);
    var g := GroupUpTo(ls, n - 1, threshold);
    if ls[n - 1].normalized == [] {
      SkipBlank(ls, g, threshold, n - 1);
    } else if g.last.Some? && ls[n - 1].number == g.last.value + 1 {
      ExtendRun(ls, g, threshold, n - 1);
    } else {
      RestartRun(ls, g, threshold, n - 1);
    }
  }

  lemma {:induction false} GroupsCorrect(ls: seq<LineRecord>, threshold: nat)
    ensures AreGroups(ls, GroupsOf(ls, threshold), threshold)
  {
    GroupingCorrect(ls, |ls|, threshold);
    FlushKeepsGroups(ls, GroupUpTo(ls, |ls|, threshold), threshold, |ls|);
  }

  // ----- No run is missed -----

  /** The non-blank lines among the first `n`: blank lines do not interrupt a run. */
  function NonBlank(ls: seq<LineRecord>, n: nat): (r: seq<nat>)
    requires n <= |ls|
    ensures forall k | 0 <= k < |r| :: r[k] < n
  {
    if n == 0 then [] else NonBlank(ls, n - 1) + if ls[n - 1].normalized == [] then [] else [n - 1]
  }

  /** Line `idx[k]` has the number after that of the non-blank line before it. */
  predicate Follows(ls: seq<LineRecord>, idx: seq<nat>, k: nat) {
    && 0 < k < |idx| && idx[k - 1] < |ls| && idx[k] < |ls|
    && ls[idx[k]].number == ls[idx[k - 1]].number + 1
  }

  /** `idx[a..b]` is a run of at least `threshold` lines that neither neighbour continues. */
  ghost predicate MaximalRun(ls: seq<LineRecord>, idx: seq<nat>, threshold: nat, a: nat, b: nat) {
    && a < b <= |idx| && b - a >= threshold
    && (forall k | a < k < b :: Follows(ls, idx, k))
    && !Follows(ls, idx, a) && !Follows(ls, idx, b)
  }

  /** `groups` are the maximal runs that end by position `e`. */
  ghost predicate RunsBy(ls: seq<LineRecord>, idx: seq<nat>, threshold: nat, e: nat, groups: seq<seq<nat>>) {
    && (forall a: nat, b: nat | MaximalRun(ls, idx, threshold, a, b) && b <= e :: idx[a..b] in groups)
    && (forall g | g in groups ::
          exists a: nat, b: nat | MaximalRun(ls, idx, threshold, a, b) :: b <= e && g == idx[a..b])
  }

  /** The loop's state after the non-blank lines `idx`: the current run starts at position `s`. */
  ghost predicate GroupedSoFar(ls: seq<LineRecord>, idx: seq<nat>, threshold: nat, g: Grouping, s: nat) {
    && (forall k | 0 <= k < |idx| :: idx[k] < |ls|)
    && s <= |idx| && g.current == idx[s..] && (s == |idx| <==> idx == [])
    && g.last == (if idx == [] then None else Some(ls[idx[|idx| - 1]].number))
    && (forall k | s < k < |idx| :: Follows(ls, idx, k)) && !Follows(ls, idx, s)
    && RunsBy(ls, idx, threshold, s, g.groups)
  }

  lemma {:induction false} FollowsPush(ls: seq<LineRecord>, idx: seq<nat>, n: nat)
    requires n < |ls|
    ensures forall k: nat | k < |idx| :: Follows(ls, idx + [n], k) == Follows(ls, idx, k)
  {
  }

  /** A line more changes none of the runs that have ended. */
  lemma {:induction false} MaximalRunPush(ls: seq<LineRecord>, idx: seq<nat>, threshold: nat, n: nat, a: nat, b: nat)
    requires n < |ls| && b <= |idx| && (b == |idx| ==> !Follows(ls, idx + [n], |idx|))
    ensures MaximalRun(ls, idx + [n], threshold, a, b) <==> MaximalRun(ls, idx, threshold, a, b)
    ensures a < b ==> (idx + [n])[a..b] == idx[a..b]
  {
    FollowsPush(ls, idx, n);
    assert !Follows(ls, idx, |idx|);
    hide Follows;
  }

  lemma {:induction false} RunsByPush(ls: seq<LineRecord>, idx: seq<nat>, threshold: nat, e: nat,
                                      groups: seq<seq<nat>>, n: nat)
    requires RunsBy(ls, idx, threshold, e, groups) && e <= |idx| && n < |ls|
    requires e == |idx| ==> !Follows(ls, idx + [n], |idx|)
    ensures RunsBy(ls, idx + [n], threshold, e, groups)
  {
    hide MaximalRun, Follows;
    forall a: nat, b: nat | b <= e
      ensures MaximalRun(ls, idx + [n], threshold, a, b) <==> MaximalRun(ls, idx, threshold, a, b)
      ensures MaximalRun(ls, idx, threshold, a, b) ==> a < b && (idx + [n])[a..b] == idx[a..b]
    {
      MaximalRunPush(ls, idx, threshold, n, a, b);
      if MaximalRun(ls, idx, threshold, a, b) {
        RunIsNonEmpty(ls, idx, threshold, a, b);
      }
    }
  }

  lemma {:induction false} RunIsNonEmpty(ls: seq<LineRecord>, idx: seq<nat>, threshold: nat, a: nat, b: nat)
    requires MaximalRun(ls, idx, threshold, a, b)
    ensures a < b <= |idx|
  {
  }

  /** Past position `s` there is one maximal run: from `s` to the end. */
  lemma {:induction false} LastRun(ls: seq<LineRecord>, idx: seq<nat>, threshold: nat, s: nat, a: nat, b: nat)
    requires s < |idx| && !Follows(ls, idx, s) && forall k | s < k < |idx| :: Follows(ls, idx, k)
    requires MaximalRun(ls, idx, threshold, a, b)
    ensures b <= s || (a == s && b == |idx|)
  {
    hide Follows;
  }

  lemma {:induction false} Flushed(ls: seq<LineRecord>, idx: seq<nat>, threshold: nat, g: Grouping, s: nat)
    requires GroupedSoFar(ls, idx, threshold, g, s) && threshold > 0
    ensures RunsBy(ls, idx, threshold, |idx|, FlushGroup(g.groups, g.current, threshold))
  {
    var groups := FlushGroup(g.groups, g.current, threshold);
    assert !Follows(ls, idx, |idx|);
    assert idx[s..|idx|] == idx[s..];
    hide Follows;
    forall a: nat, b: nat | MaximalRun(ls, idx, threshold, a, b) ensures idx[a..b] in groups {
      LastRun(ls, idx, threshold, s, a, b);
    }
    if |idx| - s >= threshold {
      assert MaximalRun(ls, idx, threshold, s, |idx|);
    }
  }

  lemma {:induction false} ExtendGrouped(ls: seq<LineRecord>, idx: seq<nat>, threshold: nat, g: Grouping, s: nat,
                                         n: nat)
    requires GroupedSoFar(ls, idx, threshold, g, s) && n < |ls|
    requires g.last.Some? && ls[n].number == g.last.value + 1
    ensures GroupedSoFar(ls, idx + [n], threshold, Grouping(g.groups, g.current + [n], Some(ls[n].number)), s)
  {
    RunsByPush(ls, idx, threshold, s, g.groups, n);
    FollowsPush(ls, idx, n);
    assert Follows(ls, idx + [n], |idx|);
    assert (idx + [n])[s..] == idx[s..] + [n];
    hide RunsBy, Follows;
  }

  lemma {:induction false} RestartGrouped(ls: seq<LineRecord>, idx: seq<nat>, threshold: nat, g: Grouping, s: nat,
                                          n: nat)
    requires GroupedSoFar(ls, idx, threshold, g, s) && n < |ls| && threshold > 0
    requires !(g.last.Some? && ls[n].number == g.last.value + 1)
    ensures GroupedSoFar(ls, idx + [n], threshold,
                         Grouping(FlushGroup(g.groups, g.current, threshold), [n], Some(ls[n].number)), |idx|)
  {
    var groups := FlushGroup(g.groups, g.current, threshold);
    Flushed(ls, idx, threshold, g, s);
    FollowsPush(ls, idx, n);
    assert !Follows(ls, idx + [n], |idx|);
    assert (idx + [n])[|idx|..] == [n];
    RunsByPush(ls, idx, threshold, |idx|, groups, n);
    hide Follows, RunsBy, FlushGroup;
  }

  lemma {:induction false} StepGrouped(ls: seq<LineRecord>, idx: seq<nat>, threshold: nat, g: Grouping, s: nat, n: nat)
    returns (s': nat)
    requires GroupedSoFar(ls, idx, threshold, g, s) && n < |ls| && threshold > 0
    ensures GroupedSoFar(ls, idx + (if ls[n].normalized == [] then [] else [n]), threshold,
                         GroupStep(g, ls[n], n, threshold), s')
  {
    hide GroupedSoFar, FlushGroup;
    s' := s;
    if ls[n].normalized == [] {
      assert idx + [] == idx;
    } else if g.last.Some? && ls[n].number == g.last.value + 1 {
      ExtendGrouped(ls, idx, threshold, g, s, n);
    } else {
      RestartGrouped(ls, idx, threshold, g, s, n);
      s' := |idx|;
    }
  }

  lemma {:induction false} GroupingComplete(ls: seq<LineRecord>, n: nat, threshold: nat) returns (s: nat)
    requires n <= |ls| && threshold > 0
    ensures GroupedSoFar(ls, NonBlank(ls, n), threshold, GroupUpTo(ls, n, threshold), s)
  {
    hide *;
    if n == 0 {
      s := 0;
      NothingGroupedSoFar(ls, threshold);
    } else {
      s := GroupingComplete(ls, n - 1, threshold);
      s := StepGrouped(ls, NonBlank(ls, n - 1), threshold, GroupUpTo(ls, n - 1, threshold), s, n - 1);
      OneLineMore(ls, n, threshold);
    }
  }

  lemma {:induction false} NothingGroupedSoFar(ls: seq<LineRecord>, threshold: nat)
    ensures GroupedSoFar(ls, NonBlank(ls, 0), threshold, GroupUpTo(ls, 0, threshold), 0)
  {
  }

  lemma {:induction false} OneLineMore(ls: seq<LineRecord>, n: nat, threshold: nat)
    requires 0 < n <= |ls|
    ensures NonBlank(ls, n) == NonBlank(ls, n - 1) + if ls[n - 1].normalized == [] then [] else [n - 1]
    ensures GroupUpTo(ls, n, threshold) == GroupStep(GroupUpTo(ls, n - 1, threshold), ls[n - 1], n - 1, threshold)
  {
  }

  /**
   * What `build_groups` finds: exactly the maximal runs of at least `threshold` non-blank lines with consecutive
   * numbers, once each and in list order.
   */
  lemma {:induction false} GroupsAreMaximalRuns(ls: seq<LineRecord>, threshold: nat)
    requires threshold > 0
    ensures AreGroups(ls, GroupsOf(ls, threshold), threshold)
    ensures RunsBy(ls, NonBlank(ls, |ls|), threshold, |NonBlank(ls, |ls|)|, GroupsOf(ls, threshold))
  {
    GroupsCorrect(ls, threshold);
    var s := GroupingComplete(ls, |ls|, threshold);
    hide GroupedSoFar, RunsBy, AreGroups;
    Flushed(ls, NonBlank(ls, |ls|), threshold, GroupUpTo(ls, |ls|, threshold), s);
  }

  // ----- Matching -----

  /** The two sides of a search: normalised lines and their groups. */
  datatype Sides = Sides(ins: seq<LineRecord>, insGroups: seq<seq<nat>>, del: seq<LineRecord>, delGroups: seq<seq<nat>>)

  ghost predicate ValidGroups(ls: seq<LineRecord>, groups: seq<seq<nat>>) {
    forall g, k | 0 <= g < |groups| && 0 <= k < |groups[g]| :: groups[g][k] < |ls|
  }

  ghost predicate ValidSides(s: Sides) {
    ValidGroups(s.ins, s.insGroups) && ValidGroups(s.del, s.delGroups)
  }

  predicate SameText(s: Sides, g: nat, p: nat, h: nat, q: nat)
    requires ValidSides(s) && g < |s.insGroups| && p < |s.insGroups[g]| && h < |s.delGroups| && q < |s.delGroups[h]|
  {
    s.ins[s.insGroups[g][p]].normalized == s.del[s.delGroups[h][q]].normalized
  }

  /** Length of the longest common run from position `p` of inserted group `g` and `q` of deleted group `h`. */
  function MatchLen(s: Sides, g: nat, p: nat, h: nat, q: nat): (n: nat)
    requires ValidSides(s) && g < |s.insGroups| && p <= |s.insGroups[g]| && h < |s.delGroups| && q <= |s.delGroups[h]|
    ensures p + n <= |s.insGroups[g]| && q + n <= |s.delGroups[h]|
    decreases |s.insGroups[g]| - p
  {
    if p < |s.insGroups[g]| && q < |s.delGroups[h]| && SameText(s, g, p, h, q) then
      MatchLen(s, g, p + 1, h, q + 1) + 1
    else 0
  }

  lemma {:induction false} MatchLenMeaning(s: Sides, g: nat, p: nat, h: nat, q: nat)
    requires ValidSides(s) && g < |s.insGroups| && p <= |s.insGroups[g]| && h < |s.delGroups| && q <= |s.delGroups[h]|
    ensures var n := MatchLen(s, g, p, h, q);
            && (forall i: nat, j: nat | p <= i < p + n && j - i == q - p :: SameText(s, g, i, h, j))
            && (p + n < |s.insGroups[g]| && q + n < |s.delGroups[h]| ==> !SameText(s, g, p + n, h, q + n))
    decreases |s.insGroups[g]| - p
  {
    if p < |s.insGroups[g]| && q < |s.delGroups[h]| && SameText(s, g, p, h, q) {
      MatchLenMeaning(s, g, p + 1, h, q + 1);
      hide SameText, ValidSides;
    }
  }

  type Place = (nat, nat)

  ghost predicate ValidPlaces(s: Sides, ps: seq<Place>) {
    forall k | 0 <= k < |ps| :: ps[k].0 < |s.delGroups| && ps[k].1 < |s.delGroups[ps[k].0]|
  }

  /** The places of deleted group `h` before position `q`. */
  function PlacesIn(h: nat, q: nat): seq<Place> {
    if q == 0 then [] else PlacesIn(h, q - 1) + [(h, q - 1)]
  }

  /** All places in the deleted groups, group by group. */
  function PlacesUpTo(groups: seq<seq<nat>>, h: nat): seq<Place>
    requires h <= |groups|
  {
    if h == 0 then [] else PlacesUpTo(groups, h - 1) + PlacesIn(h - 1, |groups[h - 1]|)
  }

  lemma {:induction false} PlacesInAre(h: nat, q: nat)
    ensures forall p :: p in PlacesIn(h, q) <==> p.0 == h && p.1 < q
  {
    if q > 0 {
      PlacesInAre(h, q - 1);
    }
  }

  lemma {:induction false} PlacesAre(groups: seq<seq<nat>>, h: nat)
    requires h <= |groups|
    ensures forall p :: p in PlacesUpTo(groups, h) <==> p.0 < h && p.1 < |groups[p.0]|
  {
    if h > 0 {
      PlacesAre(groups, h - 1);
      PlacesInAre(h - 1, |groups[h - 1]|);
    }
  }

  /** The first place that gives a run of at least `threshold` lines. */
  function FirstMatch(s: Sides, g: nat, p: nat, places: seq<Place>, threshold: nat): (r: Option<Place>)
    requires ValidSides(s) && ValidPlaces(s, places) && g < |s.insGroups| && p < |s.insGroups[g]|
    ensures r.Some? ==> r.value.0 < |s.delGroups| && r.value.1 < |s.delGroups[r.value.0]|
    ensures r.Some? ==> MatchLen(s, g, p, r.value.0, r.value.1) >= threshold
    decreases places
  {
    if places == [] then None
    else if MatchLen(s, g, p, places[0].0, places[0].1) >= threshold then Some(places[0])
    else FirstMatch(s, g, p, places[1..], threshold)
  }

  lemma {:induction false} FirstMatchMeaning(s: Sides, g: nat, p: nat, places: seq<Place>, threshold: nat)
    requires ValidSides(s) && ValidPlaces(s, places) && g < |s.insGroups| && p < |s.insGroups[g]|
    ensures FirstMatch(s, g, p, places, threshold).None? ==>
              forall k | 0 <= k < |places| :: MatchLen(s, g, p, places[k].0, places[k].1) < threshold
    decreases places
  {
    if places != [] && MatchLen(s, g, p, places[0].0, places[0].1) < threshold {
      FirstMatchMeaning(s, g, p, places[1..], threshold);
      hide MatchLen, ValidSides;
      assert places == [places[0]] + places[1..];
    }
  }

  /** A match: `len` lines from position `p` of inserted group `g` and position `q` of deleted group `h`. */
  datatype Match = Match(g: nat, p: nat, h: nat, q: nat, len: nat)

  /** The search through inserted group `g` from position `p` on: take the first match, then continue after it. */
  ghost function ScanGroup(s: Sides, g: nat, p: nat, threshold: nat): seq<Match>
    requires ValidSides(s) && g < |s.insGroups| && p <= |s.insGroups[g]| && threshold > 0
    decreases |s.insGroups[g]| - p
  {
    if p == |s.insGroups[g]| then [] else
    AllPlacesValid(s);
    var m := FirstMatch(s, g, p, PlacesUpTo(s.delGroups, |s.delGroups|), threshold);
    if m.None? then ScanGroup(s, g, p + 1, threshold) else
    var len := MatchLen(s, g, p, m.value.0, m.value.1);
    [Match(g, p, m.value.0, m.value.1, len)] + ScanGroup(s, g, p + len, threshold)
  }

  ghost function ScanGroups(s: Sides, g: nat, threshold: nat): seq<Match>
    requires ValidSides(s) && g <= |s.insGroups| && threshold > 0
    decreases |s.insGroups| - g
  {
    if g == |s.insGroups| then [] else ScanGroup(s, g, 0, threshold) + ScanGroups(s, g + 1, threshold)
  }

  lemma {:induction false} AllPlacesValid(s: Sides)
    ensures ValidPlaces(s, PlacesUpTo(s.delGroups, |s.delGroups|))
  {
    PlacesAre(s.delGroups, |s.delGroups|);
    var ps := PlacesUpTo(s.delGroups, |s.delGroups|);
    forall k | 0 <= k < |ps| ensures ps[k].0 < |s.delGroups| && ps[k].1 < |s.delGroups[ps[k].0]| {
      assert ps[k] in ps;
    }
  }

  // ----- Soundness and completeness -----

  ghost predicate SoundMatch(s: Sides, m: Match, threshold: nat)
    requires ValidSides(s)
  {
    && m.g < |s.insGroups| && m.p + m.len <= |s.insGroups[m.g]|
    && m.h < |s.delGroups| && m.q + m.len <= |s.delGroups[m.h]|
    && m.len >= threshold
    && forall i: nat, j: nat | m.p <= i < m.p + m.len && j - i == m.q - m.p :: SameText(s, m.g, i, m.h, j)
  }

  predicate Takes(m: Match, g: nat, p: nat) {
    m.g == g && m.p <= p < m.p + m.len
  }

  /** Position `p` of group `g` starts a matching run of `threshold` lines in some deleted group. */
  ghost predicate StartsRun(s: Sides, g: nat, p: nat, threshold: nat)
    requires ValidSides(s) && g < |s.insGroups| && p < |s.insGroups[g]|
  {
    exists h: nat, q: nat | h < |s.delGroups| && q < |s.delGroups[h]| :: MatchLen(s, g, p, h, q) >= threshold
  }

  /** In group `g`: matches are sound, in order, disjoint, and no position they leave out starts a run. */
  ghost predicate Greedy(s: Sides, ms: seq<Match>, g: nat, from: nat, threshold: nat)
    requires ValidSides(s) && g < |s.insGroups|
  {
    && (forall k | 0 <= k < |ms| :: SoundMatch(s, ms[k], threshold) && ms[k].g == g && from <= ms[k].p)
    && (forall k, l | 0 <= k < l < |ms| :: ms[k].p + ms[k].len <= ms[l].p)
    && (forall p: nat | from <= p < |s.insGroups[g]| ::
          StartsRun(s, g, p, threshold) ==> exists k | 0 <= k < |ms| :: Takes(ms[k], g, p))
  }

  lemma {:induction false} ScanUnfold(s: Sides, g: nat, p: nat, threshold: nat)
    requires ValidSides(s) && g < |s.insGroups| && p < |s.insGroups[g]| && threshold > 0
    ensures ValidPlaces(s, PlacesUpTo(s.delGroups, |s.delGroups|))
    ensures var m := FirstMatch(s, g, p, PlacesUpTo(s.delGroups, |s.delGroups|), threshold);
            && (m.None? ==>
                  !StartsRun(s, g, p, threshold) && ScanGroup(s, g, p, threshold) == ScanGroup(s, g, p + 1, threshold))
            && (m.Some? ==>
                  && m.value.0 < |s.delGroups| && m.value.1 < |s.delGroups[m.value.0]|
                  && var len := MatchLen(s, g, p, m.value.0, m.value.1);
                     && len >= threshold
                     && ScanGroup(s, g, p, threshold)
                        == [Match(g, p, m.value.0, m.value.1, len)] + ScanGroup(s, g, p + len, threshold))
  {
    AllPlacesValid(s);
    PlacesAre(s.delGroups, |s.delGroups|);
    var places := PlacesUpTo(s.delGroups, |s.delGroups|);
    FirstMatchMeaning(s, g, p, places, threshold);
    hide MatchLen, ValidSides, FirstMatch;
    if FirstMatch(s, g, p, places, threshold).None? {
      forall h: nat, q: nat | h < |s.delGroups| && q < |s.delGroups[h]| ensures MatchLen(s, g, p, h, q) < threshold {
        assert (h, q) in places;
      }
    }
  }

  lemma {:induction false} RunIsSound(s: Sides, g: nat, p: nat, h: nat, q: nat, threshold: nat)
    requires ValidSides(s) && g < |s.insGroups| && p <= |s.insGroups[g]| && h < |s.delGroups| && q <= |s.delGroups[h]|
    requires MatchLen(s, g, p, h, q) >= threshold
    ensures SoundMatch(s, Match(g, p, h, q, MatchLen(s, g, p, h, q)), threshold)
  {
    MatchLenMeaning(s, g, p, h, q);
    hide MatchLen, ValidSides;
  }

  lemma {:induction false} ScanGroupGreedy(s: Sides, g: nat, p: nat, threshold: nat)
    requires ValidSides(s) && g < |s.insGroups| && p <= |s.insGroups[g]| && threshold > 0
    ensures Greedy(s, ScanGroup(s, g, p, threshold), g, p, threshold)
    decreases |s.insGroups[g]| - p
  {
    hide *;
    if p == |s.insGroups[g]| {
      ScanEnd(s, g, threshold);
      NothingGreedy(s, g, threshold);
      return;
    }
    ScanUnfold(s, g, p, threshold);
    var m := FirstMatch(s, g, p, PlacesUpTo(s.delGroups, |s.delGroups|), threshold);
    if m.None? {
      ScanGroupGreedy(s, g, p + 1, threshold);
      GreedySkip(s, ScanGroup(s, g, p + 1, threshold), g, p, threshold);
    } else {
      var len := MatchLen(s, g, p, m.value.0, m.value.1);
      RunIsSound(s, g, p, m.value.0, m.value.1, threshold);
      ScanGroupGreedy(s, g, p + len, threshold);
      GreedyCons(s, Match(g, p, m.value.0, m.value.1, len), ScanGroup(s, g, p + len, threshold), threshold);
    }
  }

  lemma {:induction false} NothingGreedy(s: Sides, g: nat, threshold: nat)
    requires ValidSides(s) && g < |s.insGroups|
    ensures Greedy(s, [], g, |s.insGroups[g]|, threshold)
  {
  }

  lemma {:induction false} GreedySkip(s: Sides, ms: seq<Match>, g: nat, p: nat, threshold: nat)
    requires ValidSides(s) && g < |s.insGroups| && p < |s.insGroups[g]| && !StartsRun(s, g, p, threshold)
    requires Greedy(s, ms, g, p + 1, threshold)
    ensures Greedy(s, ms, g, p, threshold)
  {
    hide SoundMatch, StartsRun;
  }

  lemma {:induction false} GreedyCons(s: Sides, m: Match, ms: seq<Match>, threshold: nat)
    requires ValidSides(s) && m.g < |s.insGroups| && SoundMatch(s, m, threshold)
             && Greedy(s, ms, m.g, m.p + m.len, threshold)
    ensures Greedy(s, [m] + ms, m.g, m.p, threshold)
  {
    hide SoundMatch, StartsRun;
    var all := [m] + ms;
    forall p: nat | m.p <= p < |s.insGroups[m.g]| && StartsRun(s, m.g, p, threshold)
      ensures exists k | 0 <= k < |all| :: Takes(all[k], m.g, p)
    {
      if p < m.p + m.len {
        assert Takes(all[0], m.g, p);
      } else {
        var k :| 0 <= k < |ms| && Takes(ms[k], m.g, p);
        assert all[k + 1] == ms[k];
      }
    }
  }

  // ----- The result -----

  function Pick(ls: seq<LineRecord>, indices: seq<nat>): (r: seq<LineRecord>)
    requires forall k | 0 <= k < |indices| :: indices[k] < |ls|
    ensures |r| == |indices|
    ensures forall k | 0 <= k < |r| :: r[k] == ls[indices[k]]
  {
    if indices == [] then [] else Pick(ls, indices[..|indices| - 1]) + [ls[indices[|indices| - 1]]]
  }

  ghost predicate InRange(s: Sides, m: Match)
    requires ValidSides(s)
  {
    && m.g < |s.insGroups| && m.p + m.len <= |s.insGroups[m.g]|
    && m.h < |s.delGroups| && m.q + m.len <= |s.delGroups[m.h]|
  }

  ghost function Render(s: Sides, m: Match): LineMapping
    requires ValidSides(s) && InRange(s, m)
  {
    LineMapping(m.h, m.g, Pick(s.del, s.delGroups[m.h][m.q..m.q + m.len]), Pick(s.ins,
                s.insGroups[m.g][m.p..m.p + m.len]))
  }

  /** The mappings are the matches with their lines filled in. */
  ghost predicate Rendered(s: Sides, ms: seq<Match>, mappings: seq<LineMapping>)
    requires ValidSides(s)
  {
    && |mappings| == |ms|
    && forall k | 0 <= k < |ms| :: InRange(s, ms[k]) && mappings[k] == Render(s, ms[k])
  }

  /** Two blocks of at least `threshold` non-blank lines, numbered consecutively and equal after trimming. */
  ghost predicate IsMove(m: LineMapping, threshold: nat) {
    && |m.deleted| == |m.inserted| && |m.deleted| >= threshold
    && (forall k | 0 <= k < |m.deleted| ::
          m.inserted[k].normalized == m.deleted[k].normalized && m.inserted[k].normalized != [])
    && (forall k, l | 0 <= k < l < |m.deleted| ::
          && m.deleted[l].number == m.deleted[k].number + (l - k)
          && m.inserted[l].number == m.inserted[k].number + (l - k))
  }

  lemma {:induction false} RenderedLine(s: Sides, m: Match, k: nat)
    requires ValidSides(s) && InRange(s, m) && k < m.len
    ensures |Render(s, m).inserted| == m.len && |Render(s, m).deleted| == m.len
    ensures s.insGroups[m.g][m.p + k] < |s.ins| && Render(s, m).inserted[k] == s.ins[s.insGroups[m.g][m.p + k]]
    ensures s.delGroups[m.h][m.q + k] < |s.del| && Render(s, m).deleted[k] == s.del[s.delGroups[m.h][m.q + k]]
  {
    assert s.insGroups[m.g][m.p..m.p + m.len][k] == s.insGroups[m.g][m.p + k];
    assert s.delGroups[m.h][m.q..m.q + m.len][k] == s.delGroups[m.h][m.q + k];
  }

  lemma {:induction false} RenderedText(s: Sides, m: Match, threshold: nat, k: nat)
    requires ValidSides(s) && SoundMatch(s, m, threshold) && InRange(s, m) && k < m.len
    requires IsRun(s.ins, s.insGroups[m.g])
    ensures |Render(s, m).inserted| == m.len && |Render(s, m).deleted| == m.len
    ensures Render(s, m).inserted[k].normalized == Render(s, m).deleted[k].normalized
    ensures Render(s, m).inserted[k].normalized != []
  {
    RenderedLine(s, m, k);
    hide Render, ValidSides;
    assert SameText(s, m.g, m.p + k, m.h, m.q + k);
  }

  lemma {:induction false} RenderedNumbers(s: Sides, m: Match, k: nat, l: nat)
    requires ValidSides(s) && InRange(s, m) && k < l < m.len
    requires IsRun(s.ins, s.insGroups[m.g]) && IsRun(s.del, s.delGroups[m.h])
    ensures |Render(s, m).inserted| == m.len && |Render(s, m).deleted| == m.len
    ensures Render(s, m).deleted[l].number == Render(s, m).deleted[k].number + (l - k)
    ensures Render(s, m).inserted[l].number == Render(s, m).inserted[k].number + (l - k)
  {
    RenderedLine(s, m, k);
    RenderedLine(s, m, l);
    hide Render, ValidSides;
  }

  lemma {:induction false} RenderedSize(s: Sides, m: Match, threshold: nat)
    requires ValidSides(s) && SoundMatch(s, m, threshold)
    requires AreGroups(s.ins, s.insGroups, threshold) && AreGroups(s.del, s.delGroups, threshold)
    ensures InRange(s, m) && m.len >= threshold
    ensures IsRun(s.ins, s.insGroups[m.g]) && IsRun(s.del, s.delGroups[m.h])
    ensures |Render(s, m).inserted| == m.len && |Render(s, m).deleted| == m.len
  {
  }

  lemma {:induction false} RenderedMatchIsMove(s: Sides, m: Match, threshold: nat)
    requires ValidSides(s) && SoundMatch(s, m, threshold)
    requires AreGroups(s.ins, s.insGroups, threshold) && AreGroups(s.del, s.delGroups, threshold)
    ensures IsMove(Render(s, m), threshold)
  {
    RenderedSize(s, m, threshold);
    hide AreGroups, ValidSides, SoundMatch, IsRun, InRange, Render;
    var r := Render(s, m);
    forall k | 0 <= k < m.len
      ensures r.inserted[k].normalized == r.deleted[k].normalized && r.inserted[k].normalized != []
    {
      RenderedText(s, m, threshold, k);
    }
    forall k, l | 0 <= k < l < m.len
      ensures r.deleted[l].number == r.deleted[k].number + (l - k)
      ensures r.inserted[l].number == r.inserted[k].number + (l - k)
    {
      RenderedNumbers(s, m, k, l);
    }
  }

  lemma {:induction false} GroupsValid(ls: seq<LineRecord>, threshold: nat)
    ensures ValidGroups(ls, GroupsOf(ls, threshold))
  {
    GroupsCorrect(ls, threshold);
    var gs := GroupsOf(ls, threshold);
    forall g, k | 0 <= g < |gs| && 0 <= k < |gs[g]| ensures gs[g][k] < |ls| {
      assert IsRun(ls, gs[g]);
    }
  }

  /** The prepared lines and their groups. */
  ghost function SidesOf(ins: seq<LineRecord>, del: seq<LineRecord>, threshold: nat): (s: Sides)
    ensures ValidSides(s)
  {
    GroupsValid(ins, threshold);
    GroupsValid(del, threshold);
    Sides(ins, GroupsOf(ins, threshold), del, GroupsOf(del, threshold))
  }

  /**
   * In the groups from `from` on: the matches are sound and come in order without sharing a
   * position, and every position that starts a run is taken by a match.
   */
  ghost predicate GreedyFrom(s: Sides, ms: seq<Match>, from: nat, threshold: nat)
    requires ValidSides(s)
  {
    && (forall k | 0 <= k < |ms| :: SoundMatch(s, ms[k], threshold) && from <= ms[k].g)
    && (forall k, l | 0 <= k < l < |ms| ::
          ms[k].g < ms[l].g || (ms[k].g == ms[l].g && ms[k].p + ms[k].len <= ms[l].p))
    && (forall g: nat, p: nat | from <= g < |s.insGroups| && p < |s.insGroups[g]| && StartsRun(s, g, p, threshold) ::
          exists k | 0 <= k < |ms| :: Takes(ms[k], g, p))
  }

  lemma {:induction false} GreedyJoin(s: Sides, here: seq<Match>, later: seq<Match>, from: nat, threshold: nat)
    requires ValidSides(s) && from < |s.insGroups|
    requires Greedy(s, here, from, 0, threshold) && GreedyFrom(s, later, from + 1, threshold)
    ensures GreedyFrom(s, here + later, from, threshold)
  {
    hide ValidSides, SoundMatch, StartsRun;
    var ms := here + later;
    forall g: nat, p: nat | from <= g < |s.insGroups| && p < |s.insGroups[g]| && StartsRun(s, g, p, threshold)
      ensures exists k | 0 <= k < |ms| :: Takes(ms[k], g, p)
    {
      if g == from {
        var k :| 0 <= k < |here| && Takes(here[k], g, p);
        assert ms[k] == here[k];
      } else {
        var k :| 0 <= k < |later| && Takes(later[k], g, p);
        assert ms[|here| + k] == later[k];
      }
    }
  }

  lemma {:induction false} ScanGroupsGreedy(s: Sides, g: nat, threshold: nat)
    requires ValidSides(s) && g <= |s.insGroups| && threshold > 0
    ensures GreedyFrom(s, ScanGroups(s, g, threshold), g, threshold)
    decreases |s.insGroups| - g
  {
    if g < |s.insGroups| {
      ScanGroupsGreedy(s, g + 1, threshold);
      ScanGroupGreedy(s, g, 0, threshold);
      GreedyJoin(s, ScanGroup(s, g, 0, threshold), ScanGroups(s, g + 1, threshold), g, threshold);
    }
  }

  // ----- The search with a hash table -----

  /** The places whose line hashes to `v`, in order. */
  ghost function WithHash(s: Sides, places: seq<Place>, hash: string -> nat, v: nat): (r: seq<Place>)
    requires ValidSides(s) && ValidPlaces(s, places)
    ensures ValidPlaces(s, r)
  {
    if places == [] then [] else
    var p := places[|places| - 1];
    WithHash(s, places[..|places| - 1], hash, v)
    + if hash(s.del[s.delGroups[p.0][p.1]].normalized) == v then [p] else []
  }

  ghost predicate IsLookup(s: Sides, places: seq<Place>, hash: string -> nat, lookup: map<nat, seq<Place>>)
    requires ValidSides(s) && ValidPlaces(s, places)
  {
    forall v: nat :: (v in lookup <==> WithHash(s, places, hash, v) != [])
                  && (v in lookup ==> lookup[v] == WithHash(s, places, hash, v))
  }

  lemma {:induction false} WithHashPush(s: Sides, places: seq<Place>, hash: string -> nat, p: Place, v: nat)
    requires ValidSides(s) && ValidPlaces(s, places + [p])
    ensures ValidPlaces(s, places)
    ensures p.0 < |s.delGroups| && p.1 < |s.delGroups[p.0]|
    ensures WithHash(s, places + [p], hash, v)
         == WithHash(s, places, hash, v) + if hash(s.del[s.delGroups[p.0][p.1]].normalized) == v then [p] else []
  {
    var ps := places + [p];
    assert ps[..|places|] == places && ps[|places|] == p;
    forall k | 0 <= k < |places| ensures places[k].0 < |s.delGroups| && places[k].1 < |s.delGroups[places[k].0]| {
      assert ps[k] == places[k];
    }
  }

  lemma {:induction false} LookupPush(s: Sides, places: seq<Place>, hash: string -> nat, p: Place,
                                      lookup: map<nat, seq<Place>>)
    requires ValidSides(s) && ValidPlaces(s, places) && ValidPlaces(s, places + [p])
             && IsLookup(s, places, hash, lookup)
    requires p.0 < |s.delGroups| && p.1 < |s.delGroups[p.0]|
    ensures var v := hash(s.del[s.delGroups[p.0][p.1]].normalized);
            IsLookup(s, places + [p], hash, lookup[v := (if v in lookup then lookup[v] else []) + [p]])
  {
    var v := hash(s.del[s.delGroups[p.0][p.1]].normalized);
    forall w: nat
      ensures WithHash(s, places + [p], hash, w) == WithHash(s, places, hash, w) + if w == v then [p] else []
    {
      WithHashPush(s, places, hash, p, w);
    }
    hide WithHash, ValidSides, ValidPlaces;
  }

  lemma {:induction false} PrefixPlaces(s: Sides, h: nat, q: nat)
    requires h < |s.delGroups| && q <= |s.delGroups[h]|
    ensures ValidPlaces(s, PlacesUpTo(s.delGroups, h) + PlacesIn(h, q))
    ensures ValidPlaces(s, PlacesUpTo(s.delGroups, h))
  {
    PlacesAre(s.delGroups, h);
    PlacesInAre(h, q);
    var a, b := PlacesUpTo(s.delGroups, h), PlacesIn(h, q);
    var c: seq<Place> := a + b;
    forall k | 0 <= k < |c| ensures c[k].0 < |s.delGroups| && c[k].1 < |s.delGroups[c[k].0]| {
      assert c[k] in a || c[k] in b;
    }
    forall k | 0 <= k < |a| ensures a[k].0 < |s.delGroups| && a[k].1 < |s.delGroups[a[k].0]| {
      assert a[k] in a;
    }
  }

  /** `build_deletion_lookup`. */
  method BuildDeletionLookup(ghost s: Sides, deleted: seq<LineRecord>, groups: seq<seq<nat>>, hash: string -> nat)
    returns (lookup: map<nat, seq<Place>>)
    requires ValidSides(s) && s.del == deleted && s.delGroups == groups
    ensures ValidPlaces(s, PlacesUpTo(groups, |groups|)) && IsLookup(s, PlacesUpTo(groups, |groups|), hash, lookup)
  {
    hide *;
    lookup := map[];
    LookupStart(s, hash);
    for h := 0 to |groups|
      invariant ValidPlaces(s, PlacesUpTo(groups, h)) && IsLookup(s, PlacesUpTo(groups, h), hash, lookup)
    {
      ghost var before := PlacesUpTo(groups, h);
      PrefixPlaces(s, h, 0);
      PlacesInSnoc(h, before);
      for q := 0 to |groups[h]|
        invariant ValidPlaces(s, before + PlacesIn(h, q)) && IsLookup(s, before + PlacesIn(h, q), hash, lookup)
      {
        PrefixPlaces(s, h, q + 1);
        DeletedIndex(s, h, q);
        PlacesInSnoc(h, before, q);
        LookupPush(s, before + PlacesIn(h, q), hash, (h, q), lookup);
        var v := hash(deleted[groups[h][q]].normalized);
        var entry := if v in lookup then lookup[v] else [];
        lookup := lookup[v := entry + [(h, q)]];
      }
      PlacesUpToNext(groups, h);
    }
  }

  lemma {:induction false} LookupStart(s: Sides, hash: string -> nat)
    requires ValidSides(s)
    ensures PlacesUpTo(s.delGroups, 0) == [] && ValidPlaces(s, []) && IsLookup(s, [], hash, map[])
  {
  }

  lemma {:induction false} PlacesInSnoc(h: nat, before: seq<Place>, q: nat := 0)
    ensures before + PlacesIn(h, 0) == before
    ensures before + PlacesIn(h, q + 1) == (before + PlacesIn(h, q)) + [(h, q)]
  {
  }

  lemma {:induction false} PlacesUpToNext(groups: seq<seq<nat>>, h: nat)
    requires h < |groups|
    ensures PlacesUpTo(groups, h) + PlacesIn(h, |groups[h]|) == PlacesUpTo(groups, h + 1)
  {
  }

  lemma {:induction false} DeletedIndex(s: Sides, h: nat, q: nat)
    requires ValidSides(s) && h < |s.delGroups| && q < |s.delGroups[h]|
    ensures s.delGroups[h][q] < |s.del|
  {
  }

  /** The inner loop that extends a match; both first lines are known to be equal. */
  method ExtendMatch(ghost s: Sides, inserted: seq<LineRecord>, insertGroup: seq<nat>,
                     deleted: seq<LineRecord>, deleteGroup: seq<nat>, g: nat, p: nat, h: nat, q: nat)
    returns (matchLen: nat)
    requires ValidSides(s) && s.ins == inserted && s.del == deleted
    requires g < |s.insGroups| && s.insGroups[g] == insertGroup && p < |insertGroup|
    requires h < |s.delGroups| && s.delGroups[h] == deleteGroup && q < |deleteGroup|
    requires SameText(s, g, p, h, q)
    ensures matchLen == MatchLen(s, g, p, h, q)
  {
    matchLen := 1;
    var insertIter, deleteIter := p + 1, q + 1;
    while insertIter < |insertGroup| && deleteIter < |deleteGroup|
      invariant insertIter == p + matchLen <= |insertGroup| && deleteIter == q + matchLen <= |deleteGroup|
      invariant matchLen + MatchLen(s, g, insertIter, h, deleteIter) == MatchLen(s, g, p, h, q)
    {
      var insertLine := inserted[insertGroup[insertIter]];
      var deleteLine := deleted[deleteGroup[deleteIter]];
      if insertLine.normalized != deleteLine.normalized {
        break;
      }
      matchLen, insertIter, deleteIter := matchLen + 1, insertIter + 1, deleteIter + 1;
    }
  }

  /** Places with another hash cannot match, so the table gives the same first match as the full list. */
  lemma {:induction false} HashChangesNothing(s: Sides, g: nat, p: nat, places: seq<Place>,
                                              hash: string -> nat, threshold: nat)
    requires ValidSides(s) && ValidPlaces(s, places) && threshold > 0
    requires g < |s.insGroups| && p < |s.insGroups[g]|
    ensures FirstMatch(s, g, p, WithHash(s, places, hash, hash(s.ins[s.insGroups[g][p]].normalized)), threshold)
         == FirstMatch(s, g, p, places, threshold)
  {
    if places != [] {
      var v := hash(s.ins[s.insGroups[g][p]].normalized);
      var front, last := places[..|places| - 1], places[|places| - 1];
      assert places == front + [last];
      WithHashPush(s, front, hash, last, v);
      HashChangesNothing(s, g, p, front, hash, threshold);
      FirstMatchPush(s, g, p, front, last, threshold);
      if hash(s.del[s.delGroups[last.0][last.1]].normalized) == v {
        FirstMatchPush(s, g, p, WithHash(s, front, hash, v), last, threshold);
      } else {
        assert !SameText(s, g, p, last.0, last.1);
        assert MatchLen(s, g, p, last.0, last.1) == 0;
        assert WithHash(s, front, hash, v) + [] == WithHash(s, front, hash, v);
      }
    }
  }

  lemma {:induction false} FirstMatchPush(s: Sides, g: nat, p: nat, places: seq<Place>, x: Place, threshold: nat)
    requires ValidSides(s) && ValidPlaces(s, places) && ValidPlaces(s, places + [x])
    requires x.0 < |s.delGroups| && x.1 < |s.delGroups[x.0]|
    requires g < |s.insGroups| && p < |s.insGroups[g]|
    ensures FirstMatch(s, g, p, places + [x], threshold)
         == var r := FirstMatch(s, g, p, places, threshold);
            if r.Some? then r else if MatchLen(s, g, p, x.0, x.1) >= threshold then Some(x) else None
    decreases places
  {
    if places == [] {
      assert places + [x] == [x] && [x][1..] == [];
    } else {
      assert (places + [x])[0] == places[0] && (places + [x])[1..] == places[1..] + [x];
      if MatchLen(s, g, p, places[0].0, places[0].1) < threshold {
        FirstMatchPush(s, g, p, places[1..], x, threshold);
      }
    }
  }

  /** The loop over the candidates of one inserted position. */
  method TryCandidates(ghost s: Sides, inserted: seq<LineRecord>, insertGroup: seq<nat>,
                       deleted: seq<LineRecord>, deletedGroups: seq<seq<nat>>, candidates: seq<Place>,
                       g: nat, p: nat, threshold: nat)
    returns (found: Option<Place>, matchLen: nat)
    requires ValidSides(s) && s.ins == inserted && s.del == deleted && s.delGroups == deletedGroups
    requires g < |s.insGroups| && s.insGroups[g] == insertGroup && p < |insertGroup|
    requires ValidPlaces(s, candidates) && threshold > 0
    ensures found == FirstMatch(s, g, p, candidates, threshold)
    ensures found.Some? ==> matchLen == MatchLen(s, g, p, found.value.0, found.value.1)
  {
    found, matchLen := None, 0;
    assert candidates[0..] == candidates;
    for c := 0 to |candidates|
      invariant FirstMatch(s, g, p, candidates[c..], threshold) == FirstMatch(s, g, p, candidates, threshold)
    {
      assert candidates[c..][0] == candidates[c] && candidates[c..][1..] == candidates[c + 1..];
      var (h, q) := candidates[c];
      var insertedLine := inserted[insertGroup[p]];
      var deleteLine := deleted[deletedGroups[h][q]];
      if insertedLine.normalized != deleteLine.normalized {
        continue;
      }
      matchLen := ExtendMatch(s, inserted, insertGroup, deleted, deletedGroups[h], g, p, h, q);
      if matchLen >= threshold {
        return Some(candidates[c]), matchLen;
      }
    }
  }

  lemma {:induction false} RenderPush(s: Sides, ms: seq<Match>, mappings: seq<LineMapping>, m: Match)
    requires ValidSides(s) && Rendered(s, ms, mappings) && InRange(s, m)
    ensures Rendered(s, ms + [m], mappings + [Render(s, m)])
  {
    hide ValidSides, InRange, Render;
  }

  /** The search through one inserted group. */
  method SearchGroup(ghost s: Sides, inserted: seq<LineRecord>, insertGroup: seq<nat>,
                     deleted: seq<LineRecord>, deletedGroups: seq<seq<nat>>, lookup: map<nat, seq<Place>>,
                     hash: string -> nat, g: nat, threshold: nat, mappings: seq<LineMapping>, ghost ms: seq<Match>)
    returns (r: seq<LineMapping>, ghost ms': seq<Match>)
    requires ValidSides(s) && s.ins == inserted && s.del == deleted && s.delGroups == deletedGroups
    requires g < |s.insGroups| && s.insGroups[g] == insertGroup && threshold > 0
    requires ValidPlaces(s, PlacesUpTo(deletedGroups, |deletedGroups|))
    requires IsLookup(s, PlacesUpTo(deletedGroups, |deletedGroups|), hash, lookup)
    requires Rendered(s, ms, mappings)
    ensures ms' == ms + ScanGroup(s, g, 0, threshold) && Rendered(s, ms', r)
  {
    hide WithHash, FirstMatch, MatchLen, PlacesUpTo, Rendered, ScanGroup, StartsRun;
    ghost var places := PlacesUpTo(deletedGroups, |deletedGroups|);
    r, ms' := mappings, ms;
    var insertPos := 0;
    ScanEnd(s, g, threshold);
    while insertPos < |insertGroup|
      invariant 0 <= insertPos <= |insertGroup|
      invariant ms' + ScanGroup(s, g, insertPos, threshold) == ms + ScanGroup(s, g, 0, threshold)
      invariant Rendered(s, ms', r)
    {
      var v := hash(inserted[insertGroup[insertPos]].normalized);
      HashChangesNothing(s, g, insertPos, places, hash, threshold);
      ScanUnfold(s, g, insertPos, threshold);
      NothingMatches(s, g, insertPos, threshold);
      var found: Option<Place>, matchLen := None, 0;
      if v in lookup {
        found, matchLen :=
          TryCandidates(s, inserted, insertGroup, deleted, deletedGroups, lookup[v], g, insertPos, threshold);
      }
      if found.Some? {
        var (h, q) := found.value;
        ghost var m := Match(g, insertPos, h, q, matchLen);
        var matchedInserted := Pick(inserted, insertGroup[insertPos..insertPos + matchLen]);
        var matchedDeleted := Pick(deleted, deletedGroups[h][q..q + matchLen]);
        RenderPush(s, ms', r, m);
        r := r + [LineMapping(h, g, matchedDeleted, matchedInserted)];
        ms' := ms' + [m];
        insertPos := insertPos + matchLen;
      } else {
        insertPos := insertPos + 1;
      }
    }
  }

  lemma {:induction false} ScanEnd(s: Sides, g: nat, threshold: nat)
    requires ValidSides(s) && g < |s.insGroups| && threshold > 0
    ensures ScanGroup(s, g, |s.insGroups[g]|, threshold) == []
  {
  }

  lemma {:induction false} NothingMatches(s: Sides, g: nat, p: nat, threshold: nat)
    requires ValidSides(s) && g < |s.insGroups| && p < |s.insGroups[g]|
    ensures FirstMatch(s, g, p, [], threshold) == None
  {
  }

  /** Without deleted groups nothing is found. */
  lemma {:induction false} NoDeletedGroups(s: Sides, g: nat, p: nat, threshold: nat)
    requires ValidSides(s) && s.delGroups == [] && g < |s.insGroups| && p <= |s.insGroups[g]| && threshold > 0
    ensures ScanGroup(s, g, p, threshold) == []
    decreases |s.insGroups[g]| - p
  {
    if p < |s.insGroups[g]| {
      NoDeletedGroups(s, g, p + 1, threshold);
    }
  }

  lemma {:induction false} NoDeletedGroupsAtAll(s: Sides, g: nat, threshold: nat)
    requires ValidSides(s) && s.delGroups == [] && g <= |s.insGroups| && threshold > 0
    ensures ScanGroups(s, g, threshold) == []
    decreases |s.insGroups| - g
  {
    if g < |s.insGroups| {
      NoDeletedGroups(s, g, 0, threshold);
      NoDeletedGroupsAtAll(s, g + 1, threshold);
    }
  }

  /** The matches that `detect_moves` reports; no hash function occurs in it. */
  ghost function DetectedMatches(cc: CharClass, inserted: seq<LineRecord>, deleted: seq<LineRecord>,
                                 threshold: nat): seq<Match>
  {
    if threshold == 0 then [] else
    ScanGroups(SidesOf(Prepared(cc, inserted), Prepared(cc, deleted), threshold), 0, threshold)
  }

  /** `detect_moves`: the same matches for every hash function, collisions included. */
  method DetectMoves(cc: CharClass, hash: string -> nat, insertedLines: array<LineRecord>,
                     deletedLines: array<LineRecord>, threshold: nat)
    returns (mappings: seq<LineMapping>)
    requires insertedLines != deletedLines
    modifies insertedLines, deletedLines
    ensures threshold == 0 ==> insertedLines[..] == old(insertedLines[..]) && deletedLines[..] == old(deletedLines[..])
    ensures threshold > 0 ==> insertedLines[..] == Prepared(cc, old(insertedLines[..]))
    ensures threshold > 0 ==> deletedLines[..] == Prepared(cc, old(deletedLines[..]))
    ensures var ins, del := old(insertedLines[..]), old(deletedLines[..]);
            Rendered(SidesOf(Prepared(cc, ins), Prepared(cc, del), threshold),
                     DetectedMatches(cc, ins, del, threshold), mappings)
  {
    if threshold == 0 {
      return [];
    }
    SortAndNormalize(cc, insertedLines);
    SortAndNormalize(cc, deletedLines);
    var threshold' := Max(threshold, 1);
    var insertedGroups := BuildGroups(insertedLines[..], threshold');
    var deletedGroups := BuildGroups(deletedLines[..], threshold');
    ghost var s := SidesOf(insertedLines[..], deletedLines[..], threshold);
    hide *;
    mappings := SearchGroups(s, insertedLines[..], insertedGroups, deletedLines[..], deletedGroups, hash, threshold');
    DetectedAre(cc, old(insertedLines[..]), old(deletedLines[..]), threshold);
  }

  lemma {:induction false} DetectedAre(cc: CharClass, ins: seq<LineRecord>, del: seq<LineRecord>, threshold: nat)
    requires threshold > 0
    ensures DetectedMatches(cc, ins, del, threshold)
         == ScanGroups(SidesOf(Prepared(cc, ins), Prepared(cc, del), threshold), 0, threshold)
  {
  }

  lemma {:induction false} ScanGroupsUnfold(s: Sides, g: nat, threshold: nat)
    requires ValidSides(s) && g <= |s.insGroups| && threshold > 0
    ensures g == |s.insGroups| ==> ScanGroups(s, g, threshold) == []
    ensures g < |s.insGroups| ==>
              ScanGroups(s, g, threshold) == ScanGroup(s, g, 0, threshold) + ScanGroups(s, g + 1, threshold)
  {
  }

  lemma {:induction false} NothingRendered(s: Sides)
    requires ValidSides(s)
    ensures Rendered(s, [], [])
  {
  }

  /** The loop over the inserted groups. */
  method SearchGroups(ghost s: Sides, inserted: seq<LineRecord>, insertedGroups: seq<seq<nat>>,
                      deleted: seq<LineRecord>, deletedGroups: seq<seq<nat>>, hash: string -> nat, threshold: nat)
    returns (mappings: seq<LineMapping>)
    requires ValidSides(s) && s == Sides(inserted, insertedGroups, deleted, deletedGroups) && threshold > 0
    ensures Rendered(s, ScanGroups(s, 0, threshold), mappings)
  {
    hide *;
    mappings := [];
    NothingRendered(s);
    ScanGroupsUnfold(s, |insertedGroups|, threshold);
    if insertedGroups == [] {
      return;
    }
    if deletedGroups == [] {
      NoDeletedGroupsAtAll(s, 0, threshold);
      return;
    }
    var lookup := BuildDeletionLookup(s, deleted, deletedGroups, hash);
    ghost var ms: seq<Match> := [];
    for g := 0 to |insertedGroups|
      invariant ms + ScanGroups(s, g, threshold) == ScanGroups(s, 0, threshold)
      invariant Rendered(s, ms, mappings)
    {
      ScanGroupsUnfold(s, g, threshold);
      mappings, ms :=
        SearchGroup(s, inserted, insertedGroups[g], deleted, deletedGroups, lookup, hash, g, threshold, mappings, ms);
    }
    assert ms + [] == ms;
  }

  lemma {:induction false} SidesAreGroups(ins: seq<LineRecord>, del: seq<LineRecord>, threshold: nat)
    ensures var s := SidesOf(ins, del, threshold);
            AreGroups(s.ins, s.insGroups, threshold) && AreGroups(s.del, s.delGroups, threshold)
  {
    GroupsCorrect(ins, threshold);
    GroupsCorrect(del, threshold);
  }

  lemma {:induction false} SoundAt(s: Sides, ms: seq<Match>, k: nat, threshold: nat)
    requires ValidSides(s) && GreedyFrom(s, ms, 0, threshold) && k < |ms|
    ensures SoundMatch(s, ms[k], threshold)
  {
  }

  /**
   * Soundness of `detect_moves`: every mapping pairs equally many (at least `threshold`) non-blank
   * lines, numbered consecutively on both sides and equal after trimming.
   */
  lemma {:induction false} DetectedMovesAreMoves(cc: CharClass, inserted: seq<LineRecord>, deleted: seq<LineRecord>,
                                                 threshold: nat, mappings: seq<LineMapping>)
    requires threshold > 0
    requires Rendered(SidesOf(Prepared(cc, inserted), Prepared(cc, deleted), threshold),
                      DetectedMatches(cc, inserted, deleted, threshold), mappings)
    ensures forall k | 0 <= k < |mappings| :: IsMove(mappings[k], threshold)
  {
    var s := SidesOf(Prepared(cc, inserted), Prepared(cc, deleted), threshold);
    SidesAreGroups(Prepared(cc, inserted), Prepared(cc, deleted), threshold);
    hide ValidSides, AreGroups, GroupsOf, SidesOf, Prepared, Render, SoundMatch, IsMove, InRange, GreedyFrom;
    var ms := DetectedMatches(cc, inserted, deleted, threshold);
    ScanGroupsGreedy(s, 0, threshold);
    forall k | 0 <= k < |ms| ensures IsMove(mappings[k], threshold) {
      SoundAt(s, ms, k, threshold);
      RenderedMatchIsMove(s, ms[k], threshold);
    }
  }

  lemma {:induction false} NormalizedFrom(cc: CharClass, ls: seq<LineRecord>, r: LineRecord) returns (x: LineRecord)
    requires r in NormalizeAll(cc, ls)
    ensures x in ls && r == x.(normalized := Trim(cc, x.content))
  {
    var k :| 0 <= k < |ls| && NormalizeAll(cc, ls)[k] == r;
    x := ls[k];
  }

  lemma {:induction false} PreparedFrom(cc: CharClass, ls: seq<LineRecord>, r: LineRecord) returns (x: LineRecord)
    requires r in Prepared(cc, ls)
    ensures x in ls && r == x.(normalized := Trim(cc, x.content))
  {
    hide NormalizeAll;
    x := NormalizedFrom(cc, Sorting.Sort(ls, NumberLe), r);
    Sorting.SortMembers(ls, NumberLe);
  }

  /** The lines of a mapping are prepared lines of the two sides. */
  lemma {:induction false} DetectedMembers(cc: CharClass, inserted: seq<LineRecord>, deleted: seq<LineRecord>,
                                           threshold: nat, mappings: seq<LineMapping>, i: nat)
    requires Rendered(SidesOf(Prepared(cc, inserted), Prepared(cc, deleted), threshold),
                      DetectedMatches(cc, inserted, deleted, threshold), mappings)
    requires i < |mappings|
    ensures forall k | 0 <= k < |mappings[i].deleted| :: mappings[i].deleted[k] in Prepared(cc, deleted)
    ensures forall k | 0 <= k < |mappings[i].inserted| :: mappings[i].inserted[k] in Prepared(cc, inserted)
  {
    hide Prepared, DetectedMatches, GroupsOf;
    var s := SidesOf(Prepared(cc, inserted), Prepared(cc, deleted), threshold);
    var ms := DetectedMatches(cc, inserted, deleted, threshold);
    assert InRange(s, ms[i]) && mappings[i] == Render(s, ms[i]);
  }

  /**
   * Greedy completeness: the matches come in order, no two take the same inserted line, and an
   * inserted-group position that no match takes starts no run of `threshold` lines in any deleted group.
   */
  lemma {:induction false} DetectedMovesAreGreedy(cc: CharClass, inserted: seq<LineRecord>, deleted: seq<LineRecord>,
                                                  threshold: nat)
    requires threshold > 0
    ensures var s := SidesOf(Prepared(cc, inserted), Prepared(cc, deleted), threshold);
            var ms := DetectedMatches(cc, inserted, deleted, threshold);
            && GreedyFrom(s, ms, 0, threshold)
            && forall k, l | 0 <= k < l < |ms| :: NoCommonLine(s, ms[k], ms[l])
  {
    var s := SidesOf(Prepared(cc, inserted), Prepared(cc, deleted), threshold);
    var ms := DetectedMatches(cc, inserted, deleted, threshold);
    ScanGroupsGreedy(s, 0, threshold);
    SidesAreGroups(Prepared(cc, inserted), Prepared(cc, deleted), threshold);
    hide AreGroups, SidesOf, Prepared, ScanGroups, StartsRun, SoundMatch, NoCommonLine;
    forall k, l | 0 <= k < l < |ms| ensures NoCommonLine(s, ms[k], ms[l]) {
      LinesUsedOnce(s, ms[k], ms[l], threshold);
    }
  }

  ghost predicate NoCommonLine(s: Sides, a: Match, b: Match)
    requires ValidSides(s)
  {
    && InRange(s, a) && InRange(s, b)
    && forall i, j | a.p <= i < a.p + a.len && b.p <= j < b.p + b.len :: s.insGroups[a.g][i] != s.insGroups[b.g][j]
  }

  lemma {:induction false} LinesUsedOnce(s: Sides, a: Match, b: Match, threshold: nat)
    requires ValidSides(s) && AreGroups(s.ins, s.insGroups, threshold)
    requires SoundMatch(s, a, threshold) && SoundMatch(s, b, threshold)
    requires a.g < b.g || (a.g == b.g && a.p + a.len <= b.p)
    ensures NoCommonLine(s, a, b)
  {
    assert IsRun(s.ins, s.insGroups[a.g]);
    hide ValidSides, SameText;
  }

  // ----- Which match is taken -----

  /** By group, then by position. */
  predicate PlaceBefore(a: Place, b: Place) {
    a.0 < b.0 || (a.0 == b.0 && a.1 < b.1)
  }

  /** Position `q` of group `h` comes before position `q'` of group `h'`. */
  predicate Earlier(h: nat, q: nat, h': nat, q': nat) {
    h < h' || (h == h' && q < q')
  }

  ghost predicate InPlaceOrder(ps: seq<Place>) {
    forall i, j | 0 <= i < j < |ps| :: PlaceBefore(ps[i], ps[j])
  }

  lemma {:induction false} PlacesInOrdered(h: nat, q: nat)
    ensures InPlaceOrder(PlacesIn(h, q))
  {
    if q > 0 {
      PlacesInOrdered(h, q - 1);
      PlacesInAre(h, q - 1);
      var ps := PlacesIn(h, q - 1);
      forall i | 0 <= i < |ps| ensures PlaceBefore(ps[i], (h, q - 1)) {
        assert ps[i] in ps;
      }
    }
  }

  lemma {:induction false} PlacesOrdered(groups: seq<seq<nat>>, h: nat)
    requires h <= |groups|
    ensures InPlaceOrder(PlacesUpTo(groups, h))
  {
    if h > 0 {
      PlacesOrdered(groups, h - 1);
      PlacesAre(groups, h - 1);
      PlacesInOrdered(h - 1, |groups[h - 1]|);
      PlacesInAre(h - 1, |groups[h - 1]|);
      PlacesJoin(PlacesUpTo(groups, h - 1), PlacesIn(h - 1, |groups[h - 1]|));
    }
  }

  lemma {:induction false} PlacesJoin(x: seq<Place>, y: seq<Place>)
    requires InPlaceOrder(x) && InPlaceOrder(y) && forall a, b | a in x && b in y :: PlaceBefore(a, b)
    ensures InPlaceOrder(x + y)
  {
    hide PlaceBefore;
    forall i, j | 0 <= i < j < |x + y| ensures PlaceBefore((x + y)[i], (x + y)[j]) {
      if i < |x| && |x| <= j {
        assert x[i] in x && y[j - |x|] in y;
      }
    }
  }

  /** No place before the first match gives a long enough run. */
  lemma {:induction false} FirstMatchIsFirst(s: Sides, g: nat, p: nat, places: seq<Place>, threshold: nat, h: nat,
                                             q: nat)
    requires ValidSides(s) && ValidPlaces(s, places) && g < |s.insGroups| && p < |s.insGroups[g]|
    requires InPlaceOrder(places) && (h, q) in places && h < |s.delGroups| && q < |s.delGroups[h]|
    requires FirstMatch(s, g, p, places, threshold).Some?
    requires PlaceBefore((h, q), FirstMatch(s, g, p, places, threshold).value)
    ensures MatchLen(s, g, p, h, q) < threshold
    decreases places
  {
    hide MatchLen, ValidSides;
    assert places == [places[0]] + places[1..];
    if MatchLen(s, g, p, places[0].0, places[0].1) < threshold {
      if (h, q) != places[0] {
        PlacesTail(places);
        assert FirstMatch(s, g, p, places, threshold) == FirstMatch(s, g, p, places[1..], threshold);
        hide FirstMatch;
        FirstMatchIsFirst(s, g, p, places[1..], threshold, h, q);
      }
    } else {
      NothingBeforeFirst(places, (h, q));
    }
  }

  lemma {:induction false} PlacesTail(places: seq<Place>)
    requires InPlaceOrder(places) && places != []
    ensures InPlaceOrder(places[1..])
  {
    hide PlaceBefore;
    forall i, j | 0 <= i < j < |places[1..]| ensures PlaceBefore(places[1..][i], places[1..][j]) {
      assert PlaceBefore(places[i + 1], places[j + 1]);
    }
  }

  lemma {:induction false} NothingBeforeFirst(places: seq<Place>, x: Place)
    requires InPlaceOrder(places) && x in places
    ensures !PlaceBefore(x, places[0])
  {
    var i :| 0 <= i < |places| && places[i] == x;
    if i > 0 {
      assert PlaceBefore(places[0], places[i]);
    }
  }

  /**
   * The match goes as far as the lines agree, and no earlier place of the deleted groups starts a run of `threshold`
   * lines with it.
   */
  ghost predicate FirstAndLongest(s: Sides, m: Match, threshold: nat)
    requires ValidSides(s)
  {
    && m.g < |s.insGroups| && m.p < |s.insGroups[m.g]| && m.p + m.len <= |s.insGroups[m.g]|
    && m.h < |s.delGroups| && m.q + m.len <= |s.delGroups[m.h]|
    && (m.p + m.len < |s.insGroups[m.g]| && m.q + m.len < |s.delGroups[m.h]| ==>
          !SameText(s, m.g, m.p + m.len, m.h, m.q + m.len))
    && forall h: nat, q: nat | h < |s.delGroups| && q < |s.delGroups[h]| && Earlier(h, q, m.h, m.q) ::
         MatchLen(s, m.g, m.p, h, q) < threshold
  }

  lemma {:induction false} TakenIsFirst(s: Sides, g: nat, p: nat, threshold: nat)
    requires ValidSides(s) && g < |s.insGroups| && p < |s.insGroups[g]| && threshold > 0
    requires ValidPlaces(s, PlacesUpTo(s.delGroups, |s.delGroups|))
    requires FirstMatch(s, g, p, PlacesUpTo(s.delGroups, |s.delGroups|), threshold).Some?
    ensures var m := FirstMatch(s, g, p, PlacesUpTo(s.delGroups, |s.delGroups|), threshold).value;
            FirstAndLongest(s, Match(g, p, m.0, m.1, MatchLen(s, g, p, m.0, m.1)), threshold)
  {
    hide *;
    var places := PlacesUpTo(s.delGroups, |s.delGroups|);
    var m := FirstMatch(s, g, p, places, threshold).value;
    PlacesAre(s.delGroups, |s.delGroups|);
    PlacesOrdered(s.delGroups, |s.delGroups|);
    forall h: nat, q: nat | h < |s.delGroups| && q < |s.delGroups[h]| && Earlier(h, q, m.0, m.1)
      ensures MatchLen(s, g, p, h, q) < threshold
    {
      assert (h, q) in places;
      EarlierPlace(h, q, m);
      FirstMatchIsFirst(s, g, p, places, threshold, h, q);
    }
    LongestFirst(s, g, p, m.0, m.1, threshold);
  }

  lemma {:induction false} EarlierPlace(h: nat, q: nat, m: Place)
    ensures Earlier(h, q, m.0, m.1) <==> PlaceBefore((h, q), m)
  {
  }

  lemma {:induction false} LongestFirst(s: Sides, g: nat, p: nat, h: nat, q: nat, threshold: nat)
    requires ValidSides(s) && g < |s.insGroups| && p < |s.insGroups[g]| && h < |s.delGroups| && q < |s.delGroups[h]|
    requires forall h': nat, q': nat | h' < |s.delGroups| && q' < |s.delGroups[h']| && Earlier(h', q', h, q) ::
               MatchLen(s, g, p, h', q') < threshold
    ensures FirstAndLongest(s, Match(g, p, h, q, MatchLen(s, g, p, h, q)), threshold)
  {
    MatchLenMeaning(s, g, p, h, q);
    hide MatchLen, ValidSides, SameText, Earlier;
  }

  ghost predicate AllFirst(s: Sides, ms: seq<Match>, threshold: nat)
    requires ValidSides(s)
  {
    forall k | 0 <= k < |ms| :: FirstAndLongest(s, ms[k], threshold)
  }

  lemma {:induction false} AllFirstConcat(s: Sides, x: seq<Match>, y: seq<Match>, threshold: nat)
    requires ValidSides(s) && AllFirst(s, x, threshold) && AllFirst(s, y, threshold)
    ensures AllFirst(s, x + y, threshold)
  {
    hide FirstAndLongest, ValidSides;
  }

  lemma {:induction false} NoMatches(s: Sides, threshold: nat)
    requires ValidSides(s)
    ensures AllFirst(s, [], threshold)
  {
  }

  lemma {:induction false} OneFirst(s: Sides, m: Match, threshold: nat)
    requires ValidSides(s) && FirstAndLongest(s, m, threshold)
    ensures AllFirst(s, [m], threshold)
  {
    hide FirstAndLongest, ValidSides;
  }

  lemma {:induction false} ScanGroupFirst(s: Sides, g: nat, p: nat, threshold: nat)
    requires ValidSides(s) && g < |s.insGroups| && p <= |s.insGroups[g]| && threshold > 0
    ensures AllFirst(s, ScanGroup(s, g, p, threshold), threshold)
    decreases |s.insGroups[g]| - p
  {
    hide *;
    if p == |s.insGroups[g]| {
      ScanEnd(s, g, threshold);
      NoMatches(s, threshold);
      return;
    }
    ScanUnfold(s, g, p, threshold);
    var m := FirstMatch(s, g, p, PlacesUpTo(s.delGroups, |s.delGroups|), threshold);
    if m.None? {
      ScanGroupFirst(s, g, p + 1, threshold);
    } else {
      var len := MatchLen(s, g, p, m.value.0, m.value.1);
      var first := Match(g, p, m.value.0, m.value.1, len);
      TakenIsFirst(s, g, p, threshold);
      OneFirst(s, first, threshold);
      ScanGroupFirst(s, g, p + len, threshold);
      AllFirstConcat(s, [first], ScanGroup(s, g, p + len, threshold), threshold);
    }
  }

  lemma {:induction false} ScanGroupsFirst(s: Sides, g: nat, threshold: nat)
    requires ValidSides(s) && g <= |s.insGroups| && threshold > 0
    ensures AllFirst(s, ScanGroups(s, g, threshold), threshold)
    decreases |s.insGroups| - g
  {
    hide *;
    ScanGroupsUnfold(s, g, threshold);
    if g == |s.insGroups| {
      NoMatches(s, threshold);
    } else {
      ScanGroupFirst(s, g, 0, threshold);
      ScanGroupsFirst(s, g + 1, threshold);
      AllFirstConcat(s, ScanGroup(s, g, 0, threshold), ScanGroups(s, g + 1, threshold), threshold);
    }
  }

  /** With `DetectedMovesAreGreedy` this determines the matches. */
  lemma {:induction false} DetectedMovesAreFirst(cc: CharClass, inserted: seq<LineRecord>, deleted: seq<LineRecord>,
                                                 threshold: nat)
    requires threshold > 0
    ensures AllFirst(SidesOf(Prepared(cc, inserted), Prepared(cc, deleted), threshold),
                     DetectedMatches(cc, inserted, deleted, threshold), threshold)
  {
    hide *;
    DetectedAre(cc, inserted, deleted, threshold);
    ScanGroupsFirst(SidesOf(Prepared(cc, inserted), Prepared(cc, deleted), threshold), 0, threshold);
  }

  // ----- No line of an edit is moved to twice -----

  predicate SameLineOfEdit(a: LineRecord, b: LineRecord) {
    a.number == b.number && a.editIdx == b.editIdx
  }

  /** Each line stands at most once for each edit. */
  ghost predicate OncePerEdit(ls: seq<LineRecord>) {
    forall i, j | 0 <= i < j < |ls| :: !SameLineOfEdit(ls[i], ls[j])
  }

  lemma {:induction false} InsertMembers(x: LineRecord, s: seq<LineRecord>)
    ensures forall r :: r in Sorting.Insert(x, s, NumberLe) <==> r == x || r in s
  {
    var t := Sorting.Insert(x, s, NumberLe);
    forall r ensures r in t <==> r == x || r in s {
      assert r in t <==> r in multiset(t);
      assert r in s <==> r in multiset(s);
    }
  }

  lemma {:induction false} OncePerEditCons(x: LineRecord, s: seq<LineRecord>)
    requires OncePerEdit(s) && forall r | r in s :: !SameLineOfEdit(x, r)
    ensures OncePerEdit([x] + s)
  {
    hide SameLineOfEdit;
    forall i, j | 0 <= i < j < |[x] + s| ensures !SameLineOfEdit(([x] + s)[i], ([x] + s)[j]) {
      assert ([x] + s)[j] == s[j - 1] && s[j - 1] in s;
      assert i > 0 ==> ([x] + s)[i] == s[i - 1];
    }
  }

  lemma {:induction false} OncePerEditTail(s: seq<LineRecord>)
    requires OncePerEdit(s) && s != []
    ensures OncePerEdit(s[1..]) && forall r | r in s[1..] :: !SameLineOfEdit(s[0], r)
  {
    hide SameLineOfEdit;
    forall i, j | 0 <= i < j < |s[1..]| ensures !SameLineOfEdit(s[1..][i], s[1..][j]) {
      assert s[1..][i] == s[i + 1] && s[1..][j] == s[j + 1];
    }
    forall r | r in s[1..] ensures !SameLineOfEdit(s[0], r) {
      var i :| 0 <= i < |s[1..]| && s[1..][i] == r;
      assert r == s[i + 1];
    }
  }

  lemma {:induction false} InsertOnce(x: LineRecord, s: seq<LineRecord>)
    requires OncePerEdit(s) && forall r | r in s :: !SameLineOfEdit(x, r) && !SameLineOfEdit(r, x)
    ensures OncePerEdit(Sorting.Insert(x, s, NumberLe))
  {
    if s == [] || NumberLe(x, s[0]) {
      OncePerEditCons(x, s);
    } else {
      OncePerEditTail(s);
      InsertOnce(x, s[1..]);
      InsertMembers(x, s[1..]);
      assert s[0] in s;
      hide OncePerEdit, SameLineOfEdit;
      OncePerEditCons(s[0], Sorting.Insert(x, s[1..], NumberLe));
    }
  }

  lemma {:induction false} SortOnce(s: seq<LineRecord>)
    requires OncePerEdit(s)
    ensures OncePerEdit(Sorting.Sort(s, NumberLe))
  {
    if s != [] {
      OncePerEditTail(s);
      hide OncePerEdit;
      SortOnce(s[1..]);
      Sorting.SortMembers(s[1..], NumberLe);
      InsertOnce(s[0], Sorting.Sort(s[1..], NumberLe));
    }
  }

  lemma {:induction false} PreparedOnce(cc: CharClass, ls: seq<LineRecord>)
    requires OncePerEdit(ls)
    ensures OncePerEdit(Prepared(cc, ls))
  {
    SortOnce(ls);
    var sorted := Sorting.Sort(ls, NumberLe);
    hide NormalizeAll, Trim;
    forall i, j | 0 <= i < j < |sorted| ensures !SameLineOfEdit(Prepared(cc, ls)[i], Prepared(cc, ls)[j]) {
      assert !SameLineOfEdit(sorted[i], sorted[j]);
    }
  }

  /** Two matches without a common line name no line of an edit twice. */
  lemma {:induction false} RenderedApart(s: Sides, a: Match, b: Match, i: nat, j: nat)
    requires ValidSides(s) && NoCommonLine(s, a, b) && OncePerEdit(s.ins) && i < a.len && j < b.len
    ensures |Render(s, a).inserted| == a.len && |Render(s, b).inserted| == b.len
    ensures !SameLineOfEdit(Render(s, a).inserted[i], Render(s, b).inserted[j])
  {
    RenderedLine(s, a, i);
    RenderedLine(s, b, j);
    var x, y := s.insGroups[a.g][a.p + i], s.insGroups[b.g][b.p + j];
    assert x != y;
    assert x < y ==> !SameLineOfEdit(s.ins[x], s.ins[y]);
    assert y < x ==> !SameLineOfEdit(s.ins[y], s.ins[x]);
    hide Render, OncePerEdit, NoCommonLine, ValidSides;
  }

  ghost predicate NoCommonTarget(a: LineMapping, b: LineMapping) {
    forall i, j | 0 <= i < |a.inserted| && 0 <= j < |b.inserted| :: !SameLineOfEdit(a.inserted[i], b.inserted[j])
  }

  /** Two mappings that `detect_moves` reports have no inserted line of one edit in common. */
  lemma {:induction false} DetectedApart(cc: CharClass, inserted: seq<LineRecord>, deleted: seq<LineRecord>,
                                         threshold: nat, mappings: seq<LineMapping>, k: nat, l: nat)
    requires threshold > 0 && OncePerEdit(inserted) && k < l < |mappings|
    requires Rendered(SidesOf(Prepared(cc, inserted), Prepared(cc, deleted), threshold),
                      DetectedMatches(cc, inserted, deleted, threshold), mappings)
    ensures NoCommonTarget(mappings[k], mappings[l])
  {
    var s := SidesOf(Prepared(cc, inserted), Prepared(cc, deleted), threshold);
    var ms := DetectedMatches(cc, inserted, deleted, threshold);
    PreparedOnce(cc, inserted);
    DetectedMovesAreGreedy(cc, inserted, deleted, threshold);
    assert NoCommonLine(s, ms[k], ms[l]);
    hide NoCommonLine, OncePerEdit, ValidSides, GreedyFrom, Prepared, DetectedMatches, GroupsOf, Render;
    assert mappings[k] == Render(s, ms[k]) && mappings[l] == Render(s, ms[l]);
    RenderedLength(s, ms[k]);
    RenderedLength(s, ms[l]);
    forall i: nat, j: nat | i < ms[k].len && j < ms[l].len
      ensures !SameLineOfEdit(mappings[k].inserted[i], mappings[l].inserted[j])
    {
      RenderedApart(s, ms[k], ms[l], i, j);
    }
  }

  lemma {:induction false} RenderedLength(s: Sides, m: Match)
    requires ValidSides(s) && InRange(s, m)
    ensures |Render(s, m).inserted| == m.len
  {
  }
}
