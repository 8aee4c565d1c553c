/** Attribution ranges, who owns a position, and merging (`merge_attributions`). */
module Attributions {
  import opened Prelude
  import opened Sorting

  /** Characters `[start, end)` belong to `author` since `ts`; an empty range marks a deletion. */
  datatype Attribution = Attribution(start: nat, end: nat, author: string, ts: nat)

  type Owner = (string, nat)

  function OwnerOf(a: Attribution): Owner {
    (a.author, a.ts)
  }

  predicate Covers(a: Attribution, p: nat) {
    a.start <= p < a.end
  }

  predicate Overlaps(a: Attribution, start: nat, end: nat) {
    a.start < end && a.end > start
  }

  function Intersection(a: Attribution, start: nat, end: nat): Option<(nat, nat)> {
    var s, e := Max(a.start, start), Min(a.end, end);
    if s < e then Some((s, e)) else None
  }

  /** The meaning of an attribution list: the owners of each position. */
  ghost function Owners(attrs: seq<Attribution>, p: nat): set<Owner> {
    set a | a in attrs && Covers(a, p) :: OwnerOf(a)
  }

  lemma {:induction false} OwnersAppend(x: seq<Attribution>, y: seq<Attribution>, p: nat)
    ensures Owners(x + y, p) == Owners(x, p) + Owners(y, p)
  {
  }

  lemma {:induction false} OwnersOne(a: Attribution, p: nat)
    ensures Owners([a], p) == if Covers(a, p) then {OwnerOf(a)} else {}
  {
    assert forall b :: b in [a] <==> b == a;
  }

  // ----- The order -----

  /** `compare_attribution_order(a, b) != Greater`. */
  predicate AttrLe(a: Attribution, b: Attribution) {
    a.start < b.start || (a.start == b.start &&
      (a.end < b.end || (a.end == b.end &&
        (if a.author != b.author then StrLe(a.author, b.author) else a.ts <= b.ts))))
  }

  lemma {:induction false} AttrLeAntisymmetric(a: Attribution, b: Attribution)
    requires AttrLe(a, b) && AttrLe(b, a)
    ensures a == b
  {
    if a.author != b.author {
      StrLeAntisymmetric(a.author, b.author);
    }
  }

  lemma {:induction false} AttrLeTotal(a: Attribution, b: Attribution)
    ensures AttrLe(a, b) || AttrLe(b, a)
  {
    StrLeTotal(a.author, b.author);
  }

  lemma {:induction false} AttrLeTransitive(a: Attribution, b: Attribution, c: Attribution)
    requires AttrLe(a, b) && AttrLe(b, c)
    ensures AttrLe(a, c)
  {
    if a.start == b.start == c.start && a.end == b.end == c.end {
      if a.author != b.author && b.author != c.author {
        StrLeTransitive(a.author, b.author, c.author);
        if a.author == c.author {
          StrLeAntisymmetric(a.author, b.author);
        }
      }
    }
  }

  lemma {:induction false} AttrOrder()
    ensures TotalPreorder(AttrLe) && Antisymmetric(AttrLe)
  {
    hide AttrLe;
    forall x, y ensures AttrLe(x, y) || AttrLe(y, x) {
      AttrLeTotal(x, y);
    }
    forall x, y, z | AttrLe(x, y) && AttrLe(y, z) ensures AttrLe(x, z) {
      AttrLeTransitive(x, y, z);
    }
    forall x, y | AttrLe(x, y) && AttrLe(y, x) ensures x == y {
      AttrLeAntisymmetric(x, y);
    }
  }

  function SortAttributions(attrs: seq<Attribution>): (r: seq<Attribution>)
    ensures SortedBy(r, AttrLe)
    ensures forall a :: a in r <==> a in attrs
  {
    AttrOrder();
    SortIsSorted(attrs, AttrLe);
    SortMembers(attrs, AttrLe);
    Sort(attrs, AttrLe)
  }

  /** `Vec::dedup`. */
  function Dedup(s: seq<Attribution>): seq<Attribution> {
    if |s| < 2 then s
    else if s[0] == s[1] then Dedup(s[1..])
    else [s[0]] + Dedup(s[1..])
  }

  predicate AttrLt(a: Attribution, b: Attribution) {
    AttrLe(a, b) && a != b
  }

  ghost predicate RisesAt(s: seq<Attribution>, i: nat)
    requires 0 < i < |s|
  {
    AttrLt(s[i - 1], s[i])
  }

  ghost predicate Strict(s: seq<Attribution>) {
    forall i | 0 < i < |s| :: RisesAt(s, i)
  }

  lemma {:induction false} DedupSorted(s: seq<Attribution>)
    requires SortedBy(s, AttrLe)
    ensures forall a :: a in Dedup(s) <==> a in s
    ensures Strict(Dedup(s)) && (s != [] ==> Dedup(s) != [] && Dedup(s)[0] == s[0])
  {
    if |s| >= 2 {
      DedupSorted(s[1..]);
      assert s == [s[0]] + s[1..];
      var d := Dedup(s[1..]);
      if s[0] != s[1] {
        var r := [s[0]] + d;
        assert AttrLt(s[0], s[1]);
        forall i | 0 < i < |r| ensures RisesAt(r, i) {
          if i > 1 {
            assert RisesAt(d, i - 1);
          }
        }
      }
    }
  }

  // ----- Coalescing -----

  /** The second range continues the first: same owner, both non-empty, and no gap. */
  predicate Joins(last: Attribution, a: Attribution) {
    && last.author == a.author && last.ts == a.ts
    && last.start < last.end && a.start < a.end
    && a.start <= last.end
  }

  function CoalesceStep(merged: seq<Attribution>, a: Attribution): seq<Attribution> {
    if merged != [] && Joins(merged[|merged| - 1], a) then
      var last := merged[|merged| - 1];
      merged[..|merged| - 1] + [last.(end := Max(last.end, a.end))]
    else merged + [a]
  }

  function Coalesce(merged: seq<Attribution>, rest: seq<Attribution>): seq<Attribution>
    decreases rest
  {
    if rest == [] then merged else Coalesce(CoalesceStep(merged, rest[0]), rest[1..])
  }

  /** `merge_attributions`. */
  function MergeSpec(attrs: seq<Attribution>): seq<Attribution> {
    Coalesce([], Dedup(SortAttributions(attrs)))
  }

  ghost predicate MergedAt(s: seq<Attribution>, i: nat)
    requires 0 < i < |s|
  {
    AttrLt(s[i - 1], s[i]) && !Joins(s[i - 1], s[i])
  }

  /** Strictly in order, and no neighbours join. */
  ghost predicate Merged(s: seq<Attribution>) {
    forall i | 0 < i < |s| :: MergedAt(s, i)
  }

  /** `raw` is the last range taken in: it is the last entry itself, or it starts after it. */
  ghost predicate CaughtUp(merged: seq<Attribution>, raw: Attribution) {
    merged == [] || var last := merged[|merged| - 1]; last == raw || last.start < raw.start
  }

  lemma {:induction false} CoalesceStepMerged(merged: seq<Attribution>, raw: Attribution, a: Attribution)
    requires Merged(merged) && CaughtUp(merged, raw)
    requires merged != [] ==> AttrLt(raw, a)
    ensures Merged(CoalesceStep(merged, a)) && CaughtUp(CoalesceStep(merged, a), a)
  {
    var r := CoalesceStep(merged, a);
    var n := |merged|;
    if n > 0 {
      var last := merged[n - 1];
      var last' := r[n - 1];
      assert last'.start == last.start && last'.end >= last.end;
      forall i | 0 < i < |r| ensures MergedAt(r, i) {
        if i < n {
          assert MergedAt(merged, i);
        }
      }
    }
  }

  /** Growing a range by one that joins it adds exactly the positions of the other. */
  lemma {:induction false} CoalesceStepOwners(merged: seq<Attribution>, raw: Attribution, a: Attribution, p: nat)
    requires CaughtUp(merged, raw) && (merged != [] ==> AttrLe(raw, a))
    ensures Owners(CoalesceStep(merged, a), p) == Owners(merged, p) + Owners([a], p)
  {
    OwnersOne(a, p);
    if merged != [] && Joins(merged[|merged| - 1], a) {
      var front, last := merged[..|merged| - 1], merged[|merged| - 1];
      var last' := last.(end := Max(last.end, a.end));
      assert merged == front + [last];
      OwnersAppend(front, [last], p);
      OwnersAppend(front, [last'], p);
      OwnersOne(last, p);
      OwnersOne(last', p);
    } else {
      OwnersAppend(merged, [a], p);
    }
  }

  ghost predicate IsEmpty(a: Attribution) {
    a.start >= a.end
  }

  lemma {:induction false} CoalesceStepMarkers(merged: seq<Attribution>, a: Attribution, e: Attribution)
    requires IsEmpty(e)
    ensures e in CoalesceStep(merged, a) <==> e in merged || e == a
  {
    var n := |merged|;
    if n > 0 && Joins(merged[n - 1], a) {
      var r := CoalesceStep(merged, a);
      assert merged == merged[..n - 1] + [merged[n - 1]];
      assert e in r <==> e in merged[..n - 1];
      assert e in merged <==> e in merged[..n - 1];
    }
  }

  lemma {:induction false} CoalesceCorrect(merged: seq<Attribution>, raw: Attribution, rest: seq<Attribution>)
    requires Merged(merged) && CaughtUp(merged, raw) && Strict(rest)
    requires merged != [] && rest != [] ==> AttrLt(raw, rest[0])
    ensures Merged(Coalesce(merged, rest))
    ensures forall p :: Owners(Coalesce(merged, rest), p) == Owners(merged, p) + Owners(rest, p)
    ensures forall e | IsEmpty(e) :: e in Coalesce(merged, rest) <==> e in merged || e in rest
    decreases |rest|
  {
    if rest == [] {
      forall p ensures Owners(merged, p) == Owners(merged, p) + Owners(rest, p) {
        assert Owners(rest, p) == {};
      }
    } else {
      var a, tail := rest[0], rest[1..];
      assert rest == [a] + tail;
      assert Strict(tail) by {
        forall i | 0 < i < |tail| ensures RisesAt(tail, i) {
          assert RisesAt(rest, i + 1);
        }
      }
      if tail != [] {
        assert RisesAt(rest, 1);
      }
      CoalesceStepMerged(merged, raw, a);
      CoalesceCorrect(CoalesceStep(merged, a), a, tail);
      forall p ensures Owners(Coalesce(merged, rest), p) == Owners(merged, p) + Owners(rest, p) {
        CoalesceStepOwners(merged, raw, a, p);
        OwnersAppend([a], tail, p);
      }
      forall e | IsEmpty(e) ensures e in Coalesce(merged, rest) <==> e in merged || e in rest {
        CoalesceStepMarkers(merged, a, e);
      }
    }
  }

  lemma {:induction false} SameMembersSameOwners(x: seq<Attribution>, y: seq<Attribution>, p: nat)
    requires forall a :: a in x <==> a in y
    ensures Owners(x, p) == Owners(y, p)
  {
  }

  /**
   * Merging keeps every position's owners and every empty range, and yields a list that is
   * strictly in order, although coalescing moves range ends after the sort.
   */
  lemma {:induction false} MergeCorrect(attrs: seq<Attribution>)
    ensures Merged(MergeSpec(attrs)) && SortedBy(MergeSpec(attrs), AttrLe)
    ensures forall p :: Owners(MergeSpec(attrs), p) == Owners(attrs, p)
    ensures forall e | IsEmpty(e) :: e in MergeSpec(attrs) <==> e in attrs
  {
    var sorted := SortAttributions(attrs);
    DedupSorted(sorted);
    CoalesceCorrect([], Attribution(0, 0, "", 0), Dedup(sorted));
    MergedIsSorted(MergeSpec(attrs));
    forall p ensures Owners(MergeSpec(attrs), p) == Owners(attrs, p) {
      SameMembersSameOwners(Dedup(sorted), attrs, p);
      assert Owners([], p) == {};
    }
  }

  /** Neighbours of a merged list: in order of start and end, and neither overlapping nor touching if of one owner. */
  lemma {:induction false} MergedNeighbours(s: seq<Attribution>, i: nat)
    requires Merged(s) && 0 < i < |s|
    ensures s[i - 1].start < s[i].start || (s[i - 1].start == s[i].start && s[i - 1].end <= s[i].end)
    ensures s[i - 1] != s[i]
    ensures s[i - 1].start < s[i - 1].end && s[i].start < s[i].end && s[i].start <= s[i - 1].end ==>
              s[i - 1].author != s[i].author || s[i - 1].ts != s[i].ts
    ensures s[i - 1].start == s[i].start && s[i - 1].end == s[i].end ==>
              if s[i - 1].author == s[i].author then s[i - 1].ts < s[i].ts else StrLe(s[i - 1].author, s[i].author)
  {
    assert MergedAt(s, i);
  }

  lemma {:induction false} MergedIsSorted(s: seq<Attribution>)
    requires Merged(s)
    ensures SortedBy(s, AttrLe)
  {
    forall i, j | 0 <= i < j < |s| ensures AttrLe(s[i], s[j]) {
      MergedOrdered(s, i, j);
    }
  }

  lemma {:induction false} MergedOrdered(s: seq<Attribution>, i: nat, j: nat)
    requires Merged(s) && i < j < |s|
    ensures AttrLe(s[i], s[j])
    decreases j - i
  {
    assert MergedAt(s, j);
    if i < j - 1 {
      MergedOrdered(s, i, j - 1);
      AttrLeTransitive(s[i], s[j - 1], s[j]);
    }
  }

  /** A merged list merges to itself. */
  lemma {:induction false} MergeOfMerged(s: seq<Attribution>)
    requires Merged(s)
    ensures MergeSpec(s) == s
  {
    hide Merged, Coalesce, Dedup, AttrLe;
    assert [] + s == s;
    MergedIsSorted(s);
    SortOfSorted(s, AttrLe);
    DedupOfMerged(s);
    CoalesceOfMerged([], s);
  }

  lemma {:induction false} DedupOfMerged(s: seq<Attribution>)
    requires Merged(s)
    ensures Dedup(s) == s
  {
    if |s| >= 2 {
      assert MergedAt(s, 1);
      MergedTail(s);
      DedupOfMerged(s[1..]);
      assert s == [s[0]] + s[1..];
    }
  }

  lemma {:induction false} MergedTail(s: seq<Attribution>)
    requires Merged(s) && s != []
    ensures Merged(s[1..])
  {
    forall i | 0 < i < |s[1..]| ensures MergedAt(s[1..], i) {
      assert MergedAt(s, i + 1);
    }
  }

  lemma {:induction false} CoalesceOfMerged(done: seq<Attribution>, rest: seq<Attribution>)
    requires Merged(done + rest)
    ensures Coalesce(done, rest) == done + rest
    decreases |rest|
  {
    if rest == [] {
      assert done + rest == done;
    } else {
      if done != [] {
        assert MergedAt(done + rest, |done|);
      }
      assert (done + [rest[0]]) + rest[1..] == done + rest;
      CoalesceOfMerged(done + [rest[0]], rest[1..]);
    }
  }

  lemma {:induction false} MergeIsIdempotent(attrs: seq<Attribution>)
    ensures MergeSpec(MergeSpec(attrs)) == MergeSpec(attrs)
  {
    MergeCorrect(attrs);
    MergeOfMerged(MergeSpec(attrs));
  }

  /** `merge_attributions`. */
  method MergeAttributions(attributions: seq<Attribution>) returns (merged: seq<Attribution>)
    ensures merged == MergeSpec(attributions)
  {
    merged := [];
    if attributions == [] {
      assert Dedup([]) == [] && Sort(attributions, AttrLe) == [];
      return;
    }
    var list := Dedup(SortAttributions(attributions));
    for k := 0 to |list|
      invariant Coalesce(merged, list[k..]) == Coalesce([], list)
    {
      var a := list[k];
      assert list[k..][0] == a && list[k..][1..] == list[k + 1..];
      if merged != [] {
        var last := merged[|merged| - 1];
        if last.author == a.author && last.ts == a.ts && last.start < last.end && a.start < a.end
           && a.start <= last.end {
          var grown := merged[|merged| - 1 := last.(end := Max(last.end, a.end))];
          assert grown == CoalesceStep(merged, a);
          merged := grown;
          continue;
        }
      }
      merged := merged + [a];
    }
  }
}
