/** Line attributions: the conversions between lines and characters, and the sweep that picks line authors. */
module LineOwnership {
  import opened Prelude
  import opened Text
  import opened Attributions
  import Sorting

  /** Lines `startLine..endLine` (1-based, inclusive). */
  datatype LineAttribution = LineAttribution(startLine: nat, endLine: nat, author: string, overrode: Option<string>)

  /** The author of a line, and whose work it overrode. */
  type Label = (string, Option<string>)

  const HUMAN := "human"

  function LabelOf(la: LineAttribution): Label {
    (la.author, la.overrode)
  }

  /** `get_line_range`. */
  function GetLineRange(ranges: seq<(nat, nat)>, line: nat): Option<(nat, nat)> {
    if line < 1 || line > |ranges| then None else Some(ranges[line - 1])
  }

  // ----- Line attributions as a function of the line -----

  /** Increasing, non-empty, disjoint, and touching neighbours differ. */
  ghost predicate NormalForm(las: seq<LineAttribution>) {
    las == [] ||
    (&& 1 <= las[0].startLine <= las[0].endLine
     && (|las| > 1 ==>
           && las[0].endLine < las[1].startLine
           && (las[0].endLine + 1 == las[1].startLine ==> LabelOf(las[0]) != LabelOf(las[1])))
     && NormalForm(las[1..]))
  }

  ghost function Decode(las: seq<LineAttribution>, line: nat): Option<Label> {
    if las == [] then None
    else if las[0].startLine <= line <= las[0].endLine then Some(LabelOf(las[0]))
    else Decode(las[1..], line)
  }

  lemma {:induction false} DecodeBefore(las: seq<LineAttribution>, line: nat)
    requires NormalForm(las) && (las == [] || line < las[0].startLine)
    ensures Decode(las, line) == None
    decreases |las|
  {
    if las != [] {
      DecodeBefore(las[1..], line);
    }
  }

  /** A normal form is determined by the labels it gives to the lines. */
  lemma {:induction false} NormalFormUnique(a: seq<LineAttribution>, b: seq<LineAttribution>)
    requires NormalForm(a) && NormalForm(b)
    requires forall n: nat :: Decode(a, n) == Decode(b, n)
    ensures a == b
    decreases |a|
  {
    assert b != [] ==> Decode(b, b[0].startLine).Some?;
    assert a != [] ==> Decode(a, a[0].startLine).Some?;
    if a != [] && b != [] {
      HeadNotLater(a, b);
      HeadNotLater(b, a);
      HeadNotShorter(a, b);
      HeadNotShorter(b, a);
      assert a[0] == b[0];
      forall n: nat ensures Decode(a[1..], n) == Decode(b[1..], n) {
        assert Decode(a, n) == Decode(b, n);
        if n <= a[0].endLine {
          DecodeBefore(a[1..], n);
          DecodeBefore(b[1..], n);
        }
      }
      NormalFormUnique(a[1..], b[1..]);
      assert a == [a[0]] + a[1..] && b == [b[0]] + b[1..];
    }
  }

  lemma {:induction false} HeadNotLater(a: seq<LineAttribution>, b: seq<LineAttribution>)
    requires NormalForm(a) && NormalForm(b) && a != [] && b != []
    requires forall n: nat :: Decode(a, n) == Decode(b, n)
    ensures b[0].startLine <= a[0].startLine
    ensures a[0].startLine == b[0].startLine ==> LabelOf(a[0]) == LabelOf(b[0])
  {
    var n := a[0].startLine;
    assert Decode(a, n) == Some(LabelOf(a[0])) == Decode(b, n);
    if n < b[0].startLine {
      DecodeBefore(b, n);
    }
  }

  lemma {:induction false} HeadNotShorter(a: seq<LineAttribution>, b: seq<LineAttribution>)
    requires NormalForm(a) && NormalForm(b) && a != [] && b != []
    requires forall n: nat :: Decode(a, n) == Decode(b, n)
    requires a[0].startLine == b[0].startLine && LabelOf(a[0]) == LabelOf(b[0])
    ensures b[0].endLine <= a[0].endLine
  {
    var n := a[0].endLine + 1;
    if n <= b[0].endLine {
      assert Decode(b, n) == Some(LabelOf(b[0])) == Decode(a, n) == Decode(a[1..], n);
      if |a| > 1 && n < a[1].startLine {
        DecodeBefore(a[1..], n);
      }
    }
  }

  lemma {:induction false} DecodeAppend(a: seq<LineAttribution>, b: seq<LineAttribution>, n: nat)
    ensures Decode(a + b, n) == if Decode(a, n).Some? then Decode(a, n) else Decode(b, n)
  {
    if a == [] {
      assert a + b == b;
    } else {
      assert (a + b)[0] == a[0] && (a + b)[1..] == a[1..] + b;
      DecodeAppend(a[1..], b, n);
    }
  }

  predicate MayFollow(prev: LineAttribution, next: LineAttribution) {
    && prev.endLine < next.startLine
    && (prev.endLine + 1 == next.startLine ==> LabelOf(prev) != LabelOf(next))
  }

  lemma {:induction false} NormalFormPush(a: seq<LineAttribution>, x: LineAttribution)
    requires NormalForm(a) && 1 <= x.startLine <= x.endLine
    requires a != [] ==> MayFollow(a[|a| - 1], x)
    ensures NormalForm(a + [x])
  {
    if a == [] {
      assert a + [x] == [x] && [x][1..] == [];
    } else {
      assert (a + [x])[0] == a[0] && (a + [x])[1..] == a[1..] + [x];
      assert |a| > 1 ==> a[1..][|a| - 2] == a[|a| - 1];
      NormalFormPush(a[1..], x);
    }
  }

  // ----- Merging consecutive lines -----

  /** The ranges of the first `n` lines, the open one included. */
  ghost function WithOpen(result: seq<LineAttribution>, open: Option<Label>, start: nat, n: nat): seq<LineAttribution> {
    if open.None? then result else result + [LineAttribution(start, n, open.value.0, open.value.1)]
  }

  /** `las` gives the first `n` lines their labels, and the others none. */
  ghost predicate Labels(las: seq<LineAttribution>, labels: seq<Option<Label>>, n: nat)
    requires n <= |labels|
  {
    && NormalForm(las)
    && forall line: nat :: Decode(las, line) == if 1 <= line <= n then labels[line - 1] else None
  }

  /** The ranges before the open one end before it starts. */
  ghost predicate OpenFits(result: seq<LineAttribution>, open: Option<Label>, start: nat, n: nat) {
    && (result != [] ==> result[|result| - 1].endLine <= n)
    && (open.None? && result != [] ==> result[|result| - 1].endLine < n)
    && (open.Some? ==>
          && 1 <= start <= n && NormalForm(result)
          && (result != [] ==> MayFollow(result[|result| - 1], LineAttribution(start, n, open.value.0, open.value.1))))
  }

  lemma {:induction false} DecodeOne(la: LineAttribution, n: nat)
    ensures Decode([la], n) == if la.startLine <= n <= la.endLine then Some(LabelOf(la)) else None
  {
    assert [la][1..] == [];
  }

  /** Line `n + 1` continues the open range. */
  lemma {:induction false} ContinueOpen(result: seq<LineAttribution>, open: Option<Label>, start: nat,
                                        labels: seq<Option<Label>>, n: nat)
    requires n < |labels| && open.Some? && labels[n] == open
    requires Labels(WithOpen(result, open, start, n), labels, n) && OpenFits(result, open, start, n)
    ensures Labels(WithOpen(result, open, start, n + 1), labels, n + 1) && OpenFits(result, open, start, n + 1)
  {
    var x := LineAttribution(start, n, open.value.0, open.value.1);
    var y := LineAttribution(start, n + 1, open.value.0, open.value.1);
    NormalFormPush(result, y);
    forall line: nat
      ensures Decode(result + [y], line) == if 1 <= line <= n + 1 then labels[line - 1] else None
    {
      DecodeAppend(result, [x], line);
      DecodeAppend(result, [y], line);
      DecodeOne(x, line);
      DecodeOne(y, line);
      assert Decode(result + [x], line) == if 1 <= line <= n then labels[line - 1] else None;
    }
  }

  /** Line `n + 1` opens a new range after `closed`. */
  lemma {:induction false} OpenNext(closed: seq<LineAttribution>, who: Label, labels: seq<Option<Label>>, n: nat)
    requires n < |labels| && labels[n] == Some(who)
    requires Labels(closed, labels, n)
    requires closed != [] ==> closed[|closed| - 1].endLine <= n
    requires closed != [] && closed[|closed| - 1].endLine == n ==> LabelOf(closed[|closed| - 1]) != who
    ensures Labels(WithOpen(closed, Some(who), n + 1, n + 1), labels, n + 1)
    ensures OpenFits(closed, Some(who), n + 1, n + 1)
  {
    var x := LineAttribution(n + 1, n + 1, who.0, who.1);
    NormalFormPush(closed, x);
    forall line: nat
      ensures Decode(closed + [x], line) == if 1 <= line <= n + 1 then labels[line - 1] else None
    {
      DecodeAppend(closed, [x], line);
      DecodeOne(x, line);
    }
  }

  lemma {:induction false} SkipLine(closed: seq<LineAttribution>, labels: seq<Option<Label>>, n: nat)
    requires n < |labels| && labels[n] == None && Labels(closed, labels, n)
    ensures Labels(closed, labels, n + 1)
  {
  }

  /** `merge_consecutive_line_attributions`. */
  method MergeConsecutive(labels: seq<Option<Label>>) returns (result: seq<LineAttribution>)
    ensures Labels(result, labels, |labels|)
  {
    result := [];
    var current: Option<Label> := None;
    var start: nat := 0;
    for idx := 0 to |labels|
      invariant Labels(WithOpen(result, current, start, idx), labels, idx) && OpenFits(result, current, start, idx)
    {
      var lineNum := idx + 1;
      match (current, labels[idx]) {
        case (None, None) =>
          SkipLine(result, labels, idx);
        case (None, Some(who)) =>
          OpenNext(result, who, labels, idx);
          current, start := Some(who), lineNum;
        case (Some(open), None) =>
          SkipLine(WithOpen(result, current, start, idx), labels, idx);
          result := result + [LineAttribution(start, lineNum - 1, open.0, open.1)];
          current := None;
        case (Some(open), Some(who)) =>
          if open == who {
            ContinueOpen(result, current, start, labels, idx);
          } else {
            OpenNext(WithOpen(result, current, start, idx), who, labels, idx);
            result := result + [LineAttribution(start, lineNum - 1, open.0, open.1)];
            current, start := Some(who), lineNum;
          }
      }
    }
    if current.Some? {
      result := result + [LineAttribution(start, |labels|, current.value.0, current.value.1)];
    }
  }

  // ----- The author of one line, by search -----

  /** An attribution with its sort key. */
  datatype Entry = Entry(start: nat, end: nat, idx: nat)

  /** The order of the sweep: by start, then end, then position in the list. */
  predicate EntryLe(a: Entry, b: Entry) {
    a.start < b.start || (a.start == b.start && (a.end < b.end || (a.end == b.end && a.idx <= b.idx)))
  }

  function EntriesOf(attrs: seq<Attribution>): (es: seq<Entry>)
    ensures |es| == |attrs|
    ensures forall k | 0 <= k < |es| :: es[k] == Entry(attrs[k].start, attrs[k].end, k)
  {
    if attrs == [] then [] else
    var a := attrs[|attrs| - 1];
    EntriesOf(attrs[..|attrs| - 1]) + [Entry(a.start, a.end, |attrs| - 1)]
  }

  function SweepOrder(attrs: seq<Attribution>): (es: seq<Entry>)
    ensures |es| == |attrs|
  {
    Sorting.Sort(EntriesOf(attrs), EntryLe)
  }

  predicate ValidEntries(es: seq<Entry>, attrs: seq<Attribution>) {
    forall k | 0 <= k < |es| ::
      es[k].idx < |attrs| && es[k].start == attrs[es[k].idx].start && es[k].end == attrs[es[k].idx].end
  }

  lemma {:induction false} EntryOrder()
    ensures Sorting.TotalPreorder(EntryLe)
  {
  }

  lemma {:induction false} SweepOrderCorrect(attrs: seq<Attribution>)
    ensures ValidEntries(SweepOrder(attrs), attrs) && Sorting.SortedBy(SweepOrder(attrs), EntryLe)
    ensures forall e :: e in SweepOrder(attrs) <==> e in EntriesOf(attrs)
  {
    EntryOrder();
    Sorting.SortIsSorted(EntriesOf(attrs), EntryLe);
    Sorting.SortMembers(EntriesOf(attrs), EntryLe);
    var es := SweepOrder(attrs);
    forall k | 0 <= k < |es|
      ensures es[k].idx < |attrs| && es[k].start == attrs[es[k].idx].start && es[k].end == attrs[es[k].idx].end
    {
      assert es[k] in EntriesOf(attrs);
    }
  }

  predicate OverlapsLine(e: Entry, lo: nat, hi: nat) {
    e.start < hi && e.end > lo
  }

  /** The entries among the first `n` that overlap the line, in order. */
  function Overlapping(es: seq<Entry>, n: nat, lo: nat, hi: nat): seq<Entry>
    requires n <= |es|
  {
    if n == 0 then [] else
    Overlapping(es, n - 1, lo, hi) + (if OverlapsLine(es[n - 1], lo, hi) then [es[n - 1]] else [])
  }

  predicate IsHumanId(author: string) {
    author == HUMAN || (|author| >= 2 && author[..2] == "h_")
  }

  /** Does an attribution that overlaps the line count for it? */
  predicate CountsForLine(cc: CharClass, a: Attribution, content: string, lo: nat, hi: nat, isAi: bool)
    requires lo <= hi <= |content|
  {
    var s, e := Max(lo, a.start), Min(hi, a.end);
    || (s < e && !AllWhitespace(cc, content[s..e]))
    || AllWhitespace(cc, content[lo..hi])
    || a.start == a.end
    || (isAi && !IsHumanId(a.author))
  }

  function Counting(cc: CharClass, es: seq<Entry>, n: nat, attrs: seq<Attribution>, content: string, lo: nat, hi: nat,
                    isAi: bool): seq<Attribution>
    requires n <= |es| && ValidEntries(es, attrs) && lo <= hi <= |content|
  {
    if n == 0 then [] else
    var a := attrs[es[n - 1].idx];
    Counting(cc, es, n - 1, attrs, content, lo, hi, isAi)
    + (if Attributions.Overlaps(a, lo, hi) && CountsForLine(cc, a, content, lo, hi, isAi) then [a] else [])
  }

  /** The latest candidate, the first one on ties. */
  function Latest(candidates: seq<Attribution>, n: nat): Attribution
    requires 0 < n <= |candidates|
  {
    if n == 1 then candidates[0] else
    var best := Latest(candidates, n - 1);
    if candidates[n - 1].ts > best.ts then candidates[n - 1] else best
  }

  /** The last candidate whose author is (or is not) human. */
  function LastEdit(candidates: seq<Attribution>, n: nat, human: bool): Option<Attribution>
    requires n <= |candidates|
  {
    if n == 0 then None
    else if IsHumanId(candidates[n - 1].author) == human then Some(candidates[n - 1])
    else LastEdit(candidates, n - 1, human)
  }

  function LabelFrom(candidates: seq<Attribution>): Label {
    if candidates == [] then (HUMAN, None) else
    var ai, human := LastEdit(candidates, |candidates|, false), LastEdit(candidates, |candidates|, true);
    (Latest(candidates, |candidates|).author,
     if ai.Some? && human.Some? && human.value.ts > ai.value.ts then Some(ai.value.author) else None)
  }

  /** The label of the line `[lo, hi)`: search the whole sorted list. */
  function LineLabel(cc: CharClass, attrs: seq<Attribution>, content: string, lo: nat, hi: nat, isAi: bool): Label
    requires lo <= hi <= |content|
  {
    SweepOrderCorrect(attrs);
    LabelFrom(Counting(cc, SweepOrder(attrs), |SweepOrder(attrs)|, attrs, content, lo, hi, isAi))
  }

  /** Attribution `k` overlaps the line and counts for it. */
  predicate Candidate(cc: CharClass, attrs: seq<Attribution>, content: string, lo: nat, hi: nat, isAi: bool, k: nat)
    requires lo <= hi <= |content|
  {
    k < |attrs| && Attributions.Overlaps(attrs[k], lo, hi) && CountsForLine(cc, attrs[k], content, lo, hi, isAi)
  }

  /** Among the first `n` entries, `j` is the first one with the largest timestamp that counts. */
  ghost predicate BestOf(cc: CharClass, es: seq<Entry>, n: nat, attrs: seq<Attribution>, content: string,
                         lo: nat, hi: nat, isAi: bool, j: nat)
    requires n <= |es| && ValidEntries(es, attrs) && lo <= hi <= |content|
  {
    && j < n && Candidate(cc, attrs, content, lo, hi, isAi, es[j].idx)
    && forall m | 0 <= m < n && Candidate(cc, attrs, content, lo, hi, isAi, es[m].idx) ::
         && attrs[es[m].idx].ts <= attrs[es[j].idx].ts
         && (m < j ==> attrs[es[m].idx].ts < attrs[es[j].idx].ts)
  }

  lemma {:induction false} LatestPrefix(cs: seq<Attribution>, a: Attribution, n: nat)
    requires 0 < n <= |cs|
    ensures Latest(cs + [a], n) == Latest(cs, n)
  {
    if n > 1 {
      LatestPrefix(cs, a, n - 1);
    }
  }

  lemma {:induction false} LatestSnoc(cs: seq<Attribution>, a: Attribution)
    ensures Latest(cs + [a], |cs| + 1) == if cs == [] || a.ts > Latest(cs, |cs|).ts then a else Latest(cs, |cs|)
  {
    if cs != [] {
      LatestPrefix(cs, a, |cs|);
    }
  }

  lemma {:induction false} CountingSnoc(cc: CharClass, es: seq<Entry>, n: nat, attrs: seq<Attribution>,
                                        content: string, lo: nat, hi: nat, isAi: bool)
    requires n <= |es| && ValidEntries(es, attrs) && lo <= hi <= |content|
    ensures n == 0 ==> Counting(cc, es, n, attrs, content, lo, hi, isAi) == []
    ensures n > 0 ==>
              && es[n - 1].idx < |attrs|
              && Counting(cc, es, n, attrs, content, lo, hi, isAi)
                 == Counting(cc, es, n - 1, attrs, content, lo, hi, isAi)
                    + if Candidate(cc, attrs, content, lo, hi, isAi, es[n - 1].idx) then [attrs[es[n - 1].idx]] else []
  {
  }

  lemma {:induction false} CountingBest(cc: CharClass, es: seq<Entry>, n: nat, attrs: seq<Attribution>,
                                        content: string, lo: nat, hi: nat, isAi: bool)
    returns (j: nat)
    requires n <= |es| && ValidEntries(es, attrs) && lo <= hi <= |content|
    ensures var cs := Counting(cc, es, n, attrs, content, lo, hi, isAi);
            if cs == [] then forall m | 0 <= m < n :: !Candidate(cc, attrs, content, lo, hi, isAi, es[m].idx)
            else BestOf(cc, es, n, attrs, content, lo, hi, isAi, j) && Latest(cs, |cs|) == attrs[es[j].idx]
  {
    hide CountsForLine, Latest, Counting;
    j := 0;
    CountingSnoc(cc, es, n, attrs, content, lo, hi, isAi);
    hide Candidate, ValidEntries;
    if n > 0 {
      j := CountingBest(cc, es, n - 1, attrs, content, lo, hi, isAi);
      var before, a := Counting(cc, es, n - 1, attrs, content, lo, hi, isAi), attrs[es[n - 1].idx];
      if Candidate(cc, attrs, content, lo, hi, isAi, es[n - 1].idx) {
        LatestSnoc(before, a);
        if before == [] || a.ts > attrs[es[j].idx].ts {
          j := n - 1;
        }
      } else {
        assert before + [] == before;
      }
    }
  }

  /** Attribution `i` decides the line: latest among the candidates, and first by start, end and index on ties. */
  ghost predicate Decides(cc: CharClass, attrs: seq<Attribution>, content: string, lo: nat, hi: nat, isAi: bool, i: nat)
    requires lo <= hi <= |content|
  {
    && Candidate(cc, attrs, content, lo, hi, isAi, i)
    && forall k: nat | Candidate(cc, attrs, content, lo, hi, isAi, k) ::
         && attrs[k].ts <= attrs[i].ts
         && (attrs[k].ts == attrs[i].ts ==>
               EntryLe(Entry(attrs[i].start, attrs[i].end, i), Entry(attrs[k].start, attrs[k].end, k)))
  }

  lemma {:induction false} EntryAt(attrs: seq<Attribution>, k: nat) returns (m: nat)
    requires k < |attrs|
    ensures m < |SweepOrder(attrs)| && SweepOrder(attrs)[m] == Entry(attrs[k].start, attrs[k].end, k)
  {
    SweepOrderCorrect(attrs);
    assert EntriesOf(attrs)[k] in EntriesOf(attrs);
    m :| m < |SweepOrder(attrs)| && SweepOrder(attrs)[m] == EntriesOf(attrs)[k];
  }

  lemma {:induction false} CandidateInRange(cc: CharClass, attrs: seq<Attribution>, content: string, lo: nat, hi: nat,
                                            isAi: bool, k: nat)
    requires lo <= hi <= |content| && Candidate(cc, attrs, content, lo, hi, isAi, k)
    ensures k < |attrs|
  {
  }

  /** Without an entry that counts there is no candidate. */
  lemma {:induction false} NoEntryCounts(cc: CharClass, attrs: seq<Attribution>, content: string, lo: nat, hi: nat,
                                         isAi: bool, k: nat)
    requires lo <= hi <= |content|
    requires forall m | 0 <= m < |SweepOrder(attrs)| ::
               !Candidate(cc, attrs, content, lo, hi, isAi, SweepOrder(attrs)[m].idx)
    ensures !Candidate(cc, attrs, content, lo, hi, isAi, k)
  {
    hide SweepOrder, CountsForLine;
    if k < |attrs| {
      var m := EntryAt(attrs, k);
      assert SweepOrder(attrs)[m].idx == k;
    }
  }

  /** The best entry in sweep order decides the line. */
  lemma {:induction false} BestDecides(cc: CharClass, attrs: seq<Attribution>, content: string, lo: nat, hi: nat,
                                       isAi: bool, j: nat)
    requires lo <= hi <= |content| && ValidEntries(SweepOrder(attrs), attrs)
    requires Sorting.SortedBy(SweepOrder(attrs), EntryLe)
    requires BestOf(cc, SweepOrder(attrs), |SweepOrder(attrs)|, attrs, content, lo, hi, isAi, j)
    ensures Decides(cc, attrs, content, lo, hi, isAi, SweepOrder(attrs)[j].idx)
  {
    var es := SweepOrder(attrs);
    var i := es[j].idx;
    CandidateInRange(cc, attrs, content, lo, hi, isAi, i);
    hide SweepOrder, Candidate;
    forall k: nat | Candidate(cc, attrs, content, lo, hi, isAi, k)
      ensures attrs[k].ts <= attrs[i].ts
      ensures attrs[k].ts == attrs[i].ts ==>
                EntryLe(Entry(attrs[i].start, attrs[i].end, i), Entry(attrs[k].start, attrs[k].end, k))
    {
      CandidateInRange(cc, attrs, content, lo, hi, isAi, k);
      var m := EntryAt(attrs, k);
      assert Candidate(cc, attrs, content, lo, hi, isAi, es[m].idx);
      if m > j {
        assert EntryLe(es[j], es[m]);
      }
    }
  }

  /**
   * The author of a line is the author of the candidate with the largest timestamp, the first by
   * (start, end, index) on ties; a line without candidates is a plain human one.
   */
  lemma {:induction false} LineAuthorIsLatest(cc: CharClass, attrs: seq<Attribution>, content: string, lo: nat, hi: nat,
                                              isAi: bool)
    returns (i: nat)
    requires lo <= hi <= |content|
    ensures if forall k: nat :: !Candidate(cc, attrs, content, lo, hi, isAi, k)
            then LineLabel(cc, attrs, content, lo, hi, isAi) == (HUMAN, None)
            else Decides(cc, attrs, content, lo, hi, isAi, i)
                 && LineLabel(cc, attrs, content, lo, hi, isAi).0 == attrs[i].author
  {
    SweepOrderCorrect(attrs);
    var es := SweepOrder(attrs);
    var j := CountingBest(cc, es, |es|, attrs, content, lo, hi, isAi);
    hide SweepOrder, Counting, Candidate, Latest, LastEdit, Decides;
    i := 0;
    if Counting(cc, es, |es|, attrs, content, lo, hi, isAi) != [] {
      BestDecides(cc, attrs, content, lo, hi, isAi, j);
      i := es[j].idx;
      assert Candidate(cc, attrs, content, lo, hi, isAi, i);
    } else {
      forall k: nat ensures !Candidate(cc, attrs, content, lo, hi, isAi, k) {
        NoEntryCounts(cc, attrs, content, lo, hi, isAi, k);
      }
    }
  }

  // ----- Whose work a line overrode -----

  /** Attribution `i` is the last candidate by a human (or not), by start, end and index: timestamps do not count. */
  ghost predicate LastOf(cc: CharClass, attrs: seq<Attribution>, content: string, lo: nat, hi: nat, isAi: bool,
                         human: bool, i: nat)
    requires lo <= hi <= |content|
  {
    && Edits(cc, attrs, content, lo, hi, isAi, human, i)
    && forall k: nat | Edits(cc, attrs, content, lo, hi, isAi, human, k) ::
         EntryLe(Entry(attrs[k].start, attrs[k].end, k), Entry(attrs[i].start, attrs[i].end, i))
  }

  /** A candidate by a human (or not). */
  predicate Edits(cc: CharClass, attrs: seq<Attribution>, content: string, lo: nat, hi: nat, isAi: bool,
                  human: bool, i: nat)
    requires lo <= hi <= |content|
  {
    Candidate(cc, attrs, content, lo, hi, isAi, i) && IsHumanId(attrs[i].author) == human
  }

  lemma {:induction false} LastEditPrefix(cs: seq<Attribution>, a: Attribution, n: nat, human: bool)
    requires n <= |cs|
    ensures LastEdit(cs + [a], n, human) == LastEdit(cs, n, human)
  {
    if n > 0 {
      LastEditPrefix(cs, a, n - 1, human);
    }
  }

  lemma {:induction false} LastEditSnoc(cs: seq<Attribution>, a: Attribution, human: bool)
    ensures LastEdit(cs + [a], |cs| + 1, human)
         == if IsHumanId(a.author) == human then Some(a) else LastEdit(cs, |cs|, human)
  {
    LastEditPrefix(cs, a, |cs|, human);
  }

  /** Among the first `n` entries, the last one that edits is `j`, if there is one. */
  ghost predicate LastAmong(cc: CharClass, es: seq<Entry>, n: nat, attrs: seq<Attribution>, content: string,
                            lo: nat, hi: nat, isAi: bool, human: bool, j: Option<nat>)
    requires n <= |es| && lo <= hi <= |content|
  {
    && (j.Some? ==> j.value < n && Edits(cc, attrs, content, lo, hi, isAi, human, es[j.value].idx))
    && forall m | 0 <= m < n && Edits(cc, attrs, content, lo, hi, isAi, human, es[m].idx) :: j.Some? && m <= j.value
  }

  lemma {:induction false} CountingLast(cc: CharClass, es: seq<Entry>, n: nat, attrs: seq<Attribution>,
                                        content: string, lo: nat, hi: nat, isAi: bool, human: bool)
    returns (j: Option<nat>)
    requires n <= |es| && ValidEntries(es, attrs) && lo <= hi <= |content|
    ensures LastAmong(cc, es, n, attrs, content, lo, hi, isAi, human, j)
    ensures var cs := Counting(cc, es, n, attrs, content, lo, hi, isAi);
            LastEdit(cs, |cs|, human) == if j.None? then None else Some(attrs[es[j.value].idx])
  {
    hide CountsForLine, Counting, IsHumanId;
    j := None;
    CountingSnoc(cc, es, n, attrs, content, lo, hi, isAi);
    if n > 0 {
      j := CountingLast(cc, es, n - 1, attrs, content, lo, hi, isAi, human);
      var before, i := Counting(cc, es, n - 1, attrs, content, lo, hi, isAi), es[n - 1].idx;
      hide ValidEntries, Candidate, LastEdit;
      LastEditSnoc(before, attrs[i], human);
      if Edits(cc, attrs, content, lo, hi, isAi, human, i) {
        j := Some(n - 1);
      } else {
        assert before + [] == before;
      }
    }
  }

  /** The last candidate of a kind, if there is one; there is only one. */
  lemma {:induction false} LastCandidate(cc: CharClass, attrs: seq<Attribution>, content: string, lo: nat, hi: nat,
                                         isAi: bool, human: bool)
    returns (i: Option<nat>)
    requires lo <= hi <= |content|
    ensures forall k: nat :: LastOf(cc, attrs, content, lo, hi, isAi, human, k) <==> i == Some(k)
    ensures i.Some? ==> i.value < |attrs|
    ensures ValidEntries(SweepOrder(attrs), attrs)
    ensures var es := SweepOrder(attrs);
            var cs := Counting(cc, es, |es|, attrs, content, lo, hi, isAi);
            LastEdit(cs, |cs|, human) == if i.None? then None else Some(attrs[i.value])
  {
    SweepOrderCorrect(attrs);
    var es := SweepOrder(attrs);
    var j := CountingLast(cc, es, |es|, attrs, content, lo, hi, isAi, human);
    hide SweepOrder, Counting, LastEdit;
    i := if j.None? then None else Some(es[j.value].idx);
    forall k: nat ensures LastOf(cc, attrs, content, lo, hi, isAi, human, k) <==> i == Some(k) {
      LastIsLast(cc, attrs, content, lo, hi, isAi, human, j, k);
    }
  }

  lemma {:induction false} LastIsLast(cc: CharClass, attrs: seq<Attribution>, content: string, lo: nat, hi: nat,
                                      isAi: bool, human: bool, j: Option<nat>, k: nat)
    requires lo <= hi <= |content| && ValidEntries(SweepOrder(attrs), attrs)
    requires Sorting.SortedBy(SweepOrder(attrs), EntryLe)
    requires LastAmong(cc, SweepOrder(attrs), |SweepOrder(attrs)|, attrs, content, lo, hi, isAi, human, j)
    ensures LastOf(cc, attrs, content, lo, hi, isAi, human, k) <==> j.Some? && SweepOrder(attrs)[j.value].idx == k
  {
    var es := SweepOrder(attrs);
    hide SweepOrder, CountsForLine, IsHumanId;
    forall l: nat | Edits(cc, attrs, content, lo, hi, isAi, human, l)
      ensures j.Some? && EntryLe(Entry(attrs[l].start, attrs[l].end, l), es[j.value])
    {
      var m := EntryAt(attrs, l);
      assert Edits(cc, attrs, content, lo, hi, isAi, human, es[m].idx);
      if m < j.value {
        assert EntryLe(es[m], es[j.value]);
      }
    }
    if j.Some? {
      assert es[j.value] == Entry(attrs[es[j.value].idx].start, attrs[es[j.value].idx].end, es[j.value].idx);
    }
  }

  /** The last AI candidate `i` and the last human one `j`, with `j` later than `i`. */
  ghost predicate Overrides(cc: CharClass, attrs: seq<Attribution>, content: string, lo: nat, hi: nat, isAi: bool,
                            i: nat, j: nat)
    requires lo <= hi <= |content|
  {
    && LastOf(cc, attrs, content, lo, hi, isAi, false, i) && LastOf(cc, attrs, content, lo, hi, isAi, true, j)
    && attrs[j].ts > attrs[i].ts
  }

  /**
   * A line overrode `x` exactly if `x` wrote the last AI candidate and the last human one is later than that, where
   * last is by (start, end, index).
   */
  lemma {:induction false} LineOverrodeIff(cc: CharClass, attrs: seq<Attribution>, content: string, lo: nat, hi: nat,
                                           isAi: bool, x: string)
    requires lo <= hi <= |content|
    ensures LineLabel(cc, attrs, content, lo, hi, isAi).1 == Some(x)
       <==> exists i: nat, j: nat :: Overrides(cc, attrs, content, lo, hi, isAi, i, j) && attrs[i].author == x
  {
    var ai := LastCandidate(cc, attrs, content, lo, hi, isAi, false);
    var human := LastCandidate(cc, attrs, content, lo, hi, isAi, true);
    LabelParts(cc, attrs, content, lo, hi, isAi);
    hide LastOf, LineLabel, Counting, LastEdit, SweepOrder, ValidEntries;
    if ai.Some? && human.Some? && attrs[human.value].ts > attrs[ai.value].ts {
      assert Overrides(cc, attrs, content, lo, hi, isAi, ai.value, human.value);
    }
  }

  lemma {:induction false} LabelParts(cc: CharClass, attrs: seq<Attribution>, content: string, lo: nat, hi: nat,
                                      isAi: bool)
    requires lo <= hi <= |content|
    ensures ValidEntries(SweepOrder(attrs), attrs)
    ensures var es := SweepOrder(attrs);
            var cs := Counting(cc, es, |es|, attrs, content, lo, hi, isAi);
            var ai, human := LastEdit(cs, |cs|, false), LastEdit(cs, |cs|, true);
            LineLabel(cc, attrs, content, lo, hi, isAi).1
            == if ai.Some? && human.Some? && human.value.ts > ai.value.ts then Some(ai.value.author) else None
  {
    SweepOrderCorrect(attrs);
    hide SweepOrder, Counting, ValidEntries;
  }

  /** A human edit later than the AI's is not seen when an older human edit starts further right. */
  lemma {:induction false} LaterEditNotSeen(cc: CharClass)
    ensures var attrs := [Attribution(0, 3, HUMAN, 100), Attribution(1, 3, "ai", 50), Attribution(2, 3, HUMAN, 10)];
            LineLabel(cc, attrs, "abc", 0, 3, false).1 == None
  {
    var attrs := [Attribution(0, 3, HUMAN, 100), Attribution(1, 3, "ai", 50), Attribution(2, 3, HUMAN, 10)];
    assert !cc.isWhitespace('c');
    forall k: nat | k < 3 ensures Candidate(cc, attrs, "abc", 0, 3, false, k) {
      assert "abc"[attrs[k].start..3][|"abc"[attrs[k].start..3]| - 1] == 'c';
    }
    hide Candidate, LineLabel;
    var ai := LastCandidate(cc, attrs, "abc", 0, 3, false, false);
    var human := LastCandidate(cc, attrs, "abc", 0, 3, false, true);
    OnlyOneAi(cc, attrs);
    assert LastOf(cc, attrs, "abc", 0, 3, false, true, 2);
    hide LastOf;
    forall x ensures LineLabel(cc, attrs, "abc", 0, 3, false).1 != Some(x) {
      LineOverrodeIff(cc, attrs, "abc", 0, 3, false, x);
    }
  }

  lemma {:induction false} OnlyOneAi(cc: CharClass, attrs: seq<Attribution>)
    requires attrs == [Attribution(0, 3, HUMAN, 100), Attribution(1, 3, "ai", 50), Attribution(2, 3, HUMAN, 10)]
    ensures forall i: nat | LastOf(cc, attrs, "abc", 0, 3, false, false, i) :: i == 1
  {
    hide CountsForLine;
  }

  /** The entries among the first `n` that end after `lo`: what the sweep keeps active. */
  ghost function Alive(es: seq<Entry>, n: nat, lo: nat): seq<Entry>
    requires n <= |es|
  {
    if n == 0 then [] else Alive(es, n - 1, lo) + (if es[n - 1].end > lo then [es[n - 1]] else [])
  }

  /** `Vec::retain` with the line's overlap test. */
  function Retain(active: seq<Entry>, lo: nat, hi: nat): seq<Entry> {
    if active == [] then [] else
    var e := active[|active| - 1];
    Retain(active[..|active| - 1], lo, hi) + (if OverlapsLine(e, lo, hi) then [e] else [])
  }

  lemma {:induction false} RetainAlive(es: seq<Entry>, n: nat, floor: nat, lo: nat, hi: nat)
    requires n <= |es| && floor <= lo
    requires forall k | 0 <= k < n :: es[k].start < hi
    ensures Retain(Alive(es, n, floor), lo, hi) == Alive(es, n, lo)
  {
    if n > 0 {
      RetainAlive(es, n - 1, floor, lo, hi);
      var a := Alive(es, n - 1, floor);
      assert (a + [es[n - 1]])[..|a|] == a;
      assert a + [] == a;
    }
  }

  lemma {:induction false} AliveIsOverlapping(es: seq<Entry>, m: nat, n: nat, lo: nat, hi: nat)
    requires m <= n <= |es|
    requires forall k | 0 <= k < m :: es[k].start < hi
    requires forall k | m <= k < n :: es[k].start >= hi
    ensures Alive(es, m, lo) == Overlapping(es, n, lo, hi)
    decreases n
  {
    if m < n {
      AliveIsOverlapping(es, m, n - 1, lo, hi);
    } else if n > 0 {
      AliveIsOverlapping(es, m - 1, n - 1, lo, hi);
    }
  }

  /** Entries that do not overlap the line contribute nothing to its candidates. */
  lemma {:induction false} CountingOverlapping(cc: CharClass, es: seq<Entry>, n: nat, attrs: seq<Attribution>,
                                               content: string, lo: nat, hi: nat, isAi: bool)
    requires n <= |es| && ValidEntries(es, attrs) && lo <= hi <= |content|
    ensures var os := Overlapping(es, n, lo, hi);
            ValidEntries(os, attrs)
            && Counting(cc, os, |os|, attrs, content, lo, hi, isAi) == Counting(cc, es, n, attrs, content, lo, hi, isAi)
  {
    if n > 0 {
      CountingOverlapping(cc, es, n - 1, attrs, content, lo, hi, isAi);
      var os, e := Overlapping(es, n - 1, lo, hi), es[n - 1];
      if OverlapsLine(e, lo, hi) {
        assert (os + [e])[|os|] == e;
        CountingPrefix(cc, os + [e], os, |os|, attrs, content, lo, hi, isAi);
      } else {
        assert os + [] == os;
      }
    }
  }

  lemma {:induction false} CountingPrefix(cc: CharClass, es: seq<Entry>, fs: seq<Entry>, n: nat,
                                          attrs: seq<Attribution>, content: string, lo: nat, hi: nat, isAi: bool)
    requires n <= |es| && n <= |fs| && es[..n] == fs[..n]
    requires ValidEntries(es, attrs) && ValidEntries(fs, attrs) && lo <= hi <= |content|
    ensures Counting(cc, es, n, attrs, content, lo, hi, isAi) == Counting(cc, fs, n, attrs, content, lo, hi, isAi)
  {
    if n > 0 {
      assert es[n - 1] == es[..n][n - 1] == fs[..n][n - 1] == fs[n - 1];
      assert es[..n - 1] == es[..n][..n - 1] && fs[..n - 1] == fs[..n][..n - 1];
      CountingPrefix(cc, es, fs, n - 1, attrs, content, lo, hi, isAi);
    }
  }

  /** `find_dominant_author_for_line_candidates`. */
  method FindDominantAuthor(cc: CharClass, lo: nat, hi: nat, isLineEmpty: bool, candidates: seq<Entry>,
                            attrs: seq<Attribution>, content: string, isAi: bool)
    returns (who: Label)
    requires lo <= hi <= |content| && ValidEntries(candidates, attrs)
             && isLineEmpty == AllWhitespace(cc, content[lo..hi])
    ensures who == LabelFrom(Counting(cc, candidates, |candidates|, attrs, content, lo, hi, isAi))
  {
    var candidateAttrs: seq<Attribution> := [];
    for k := 0 to |candidates|
      invariant candidateAttrs == Counting(cc, candidates, k, attrs, content, lo, hi, isAi)
    {
      var a := attrs[candidates[k].idx];
      if !Attributions.Overlaps(a, lo, hi) {
        continue;
      }
      var sliceStart, sliceEnd := Max(lo, a.start), Min(hi, a.end);
      var hasNonWhitespace := false;
      if sliceStart < sliceEnd {
        hasNonWhitespace := !AllWhitespace(cc, content[sliceStart..sliceEnd]);
      }
      var isDeletionMarker := a.start == a.end;
      var includeAiWhitespace := isAi && !IsHumanId(a.author);
      if hasNonWhitespace || isLineEmpty || isDeletionMarker || includeAiWhitespace {
        candidateAttrs := candidateAttrs + [a];
      }
    }
    if candidateAttrs == [] {
      return (HUMAN, None);
    }
    var latest := candidateAttrs[0];
    for k := 1 to |candidateAttrs|
      invariant latest == Latest(candidateAttrs, k)
    {
      if candidateAttrs[k].ts > latest.ts {
        latest := candidateAttrs[k];
      }
    }
    var lastAiEdit: Option<Attribution>, lastHumanEdit: Option<Attribution> := None, None;
    for k := 0 to |candidateAttrs|
      invariant lastAiEdit == LastEdit(candidateAttrs, k, false)
      invariant lastHumanEdit == LastEdit(candidateAttrs, k, true)
    {
      if IsHumanId(candidateAttrs[k].author) {
        lastHumanEdit := Some(candidateAttrs[k]);
      } else {
        lastAiEdit := Some(candidateAttrs[k]);
      }
    }
    var overrode: Option<string> := None;
    if lastAiEdit.Some? && lastHumanEdit.Some? && lastHumanEdit.value.ts > lastAiEdit.value.ts {
      overrode := Some(lastAiEdit.value.author);
    }
    who := (latest.author, overrode);
  }

  lemma {:induction false} SweepStart(attrs: seq<Attribution>)
    ensures Alive(SweepOrder(attrs), 0, 0) == []
  {
  }

  /** The active entries of a line give the same candidates as the whole list. */
  lemma {:induction false} ActiveIsEnough(cc: CharClass, attrs: seq<Attribution>, content: string, next: nat,
                                          floor: nat, lo: nat, hi: nat, isAi: bool)
    requires floor <= lo <= hi <= |content| && next <= |attrs|
    requires forall k | 0 <= k < next :: SweepOrder(attrs)[k].start < hi
    requires next < |attrs| ==> SweepOrder(attrs)[next].start >= hi
    ensures var es := SweepOrder(attrs);
            var active := Retain(Alive(es, next, floor), lo, hi);
            && active == Alive(es, next, lo)
            && active == Overlapping(es, |es|, lo, hi)
            && ValidEntries(active, attrs)
            && LabelFrom(Counting(cc, active, |active|, attrs, content, lo, hi, isAi))
               == LineLabel(cc, attrs, content, lo, hi, isAi)
  {
    var es := SweepOrder(attrs);
    SweepOrderCorrect(attrs);
    forall k | next <= k < |es| ensures es[k].start >= hi {
      if next < k {
        assert EntryLe(es[next], es[k]);
      }
    }
    hide SweepOrder, ValidEntries;
    RetainAlive(es, next, floor, lo, hi);
    AliveIsOverlapping(es, next, |es|, lo, hi);
    CountingOverlapping(cc, es, |es|, attrs, content, lo, hi, isAi);
  }

  /** The label of line `n` (1-based), or None for a line that does not exist. */
  ghost function LabelAt(cc: CharClass, attrs: seq<Attribution>, content: string, isAi: bool, n: nat): Option<Label> {
    var ranges := LineRanges(content);
    if 1 <= n <= |ranges| then
      Some(LineLabel(cc, attrs, content, ranges[n - 1].0, ranges[n - 1].1, isAi))
    else None
  }

  ghost predicate LabelsAre(cc: CharClass, attrs: seq<Attribution>, content: string, isAi: bool,
                            labels: seq<Option<Label>>, n: nat)
  {
    |labels| == n && forall k | 0 <= k < n :: labels[k] == LabelAt(cc, attrs, content, isAi, k + 1)
  }

  /** The lines come one after the other. */
  lemma {:induction false} NextLine(content: string, k: nat)
    requires k < |LineRanges(content)|
    ensures LineRanges(content)[k].0 < LineRanges(content)[k].1 <= |content|
    ensures k > 0 ==> LineRanges(content)[k - 1].1 == LineRanges(content)[k].0
  {
    LineRangesPartition(content, 0);
    assert StartOf(LineRanges(content), |content|, k) == LineRanges(content)[k].0;
  }

  /** Pushing entries unfiltered and retaining afterwards is the same as filtering all along. */
  lemma {:induction false} RetainPushed(es: seq<Entry>, active: seq<Entry>, m: nat, n: nat, floor: nat, lo: nat,
                                        hi: nat)
    requires m <= n <= |es| && floor <= lo && forall k | 0 <= k < n :: es[k].start < hi
    requires active == Alive(es, m, floor) + es[m..n]
    ensures Retain(active, lo, hi) == Alive(es, n, lo)
    decreases n
  {
    if m == n {
      assert es[m..n] == [] && active == Alive(es, m, floor);
      RetainAlive(es, n, floor, lo, hi);
    } else {
      var front := Alive(es, m, floor) + es[m..n - 1];
      assert active == front + [es[n - 1]];
      assert active[..|active| - 1] == front;
      RetainPushed(es, front, m, n - 1, floor, lo, hi);
    }
  }

  /** The sweep over the lines. */
  method SweepLines(cc: CharClass, attrs: seq<Attribution>, content: string, ranges: seq<(nat, nat)>, isAi: bool)
    returns (labels: seq<Option<Label>>)
    requires ranges == LineRanges(content)
    ensures LabelsAre(cc, attrs, content, isAi, labels, |ranges|)
  {
    hide SweepOrder, Alive, Retain, LineLabel, LabelFrom, Counting, LineRanges, AllWhitespace, Overlapping;
    var order := SweepOrder(attrs);
    SweepOrderCorrect(attrs);
    SweepStart(attrs);
    var nextIdx := 0;
    var active: seq<Entry> := [];
    labels := [];
    ghost var floor := 0;
    for k := 0 to |ranges|
      invariant 0 <= nextIdx <= |order| && active == Alive(order, nextIdx, floor)
      invariant k > 0 ==> floor == ranges[k - 1].0
      invariant k == 0 ==> floor == 0
      invariant forall i | 0 <= i < nextIdx :: k > 0 && order[i].start < ranges[k - 1].1
      invariant LabelsAre(cc, attrs, content, isAi, labels, k)
    {
      var (lineStart, lineEnd) := ranges[k];
      NextLine(content, k);
      if k > 0 {
        NextLine(content, k - 1);
      }
      ghost var m := nextIdx;
      while nextIdx < |order| && order[nextIdx].start < lineEnd
        invariant m <= nextIdx <= |order|
        invariant active == Alive(order, m, floor) + order[m..nextIdx]
        invariant forall i | 0 <= i < nextIdx :: order[i].start < lineEnd
      {
        active := active + [order[nextIdx]];
        nextIdx := nextIdx + 1;
      }
      RetainPushed(order, active, m, nextIdx, floor, lineStart, lineEnd);
      RetainAlive(order, nextIdx, floor, lineStart, lineEnd);
      active := Retain(active, lineStart, lineEnd);
      ActiveIsEnough(cc, attrs, content, nextIdx, floor, lineStart, lineEnd, isAi);
      var isLineEmpty := AllWhitespace(cc, content[lineStart..lineEnd]);
      var who := FindDominantAuthor(cc, lineStart, lineEnd, isLineEmpty, active, attrs, content, isAi);
      labels := labels + [Some(who)];
      floor := lineStart;
    }
  }

  // ----- Stripping plain human lines -----

  predicate Kept(who: Label) {
    who.0 != HUMAN || who.1.Some?
  }

  function StripHuman(las: seq<LineAttribution>): seq<LineAttribution> {
    if las == [] then [] else (if Kept(LabelOf(las[0])) then [las[0]] else []) + StripHuman(las[1..])
  }

  lemma {:induction false} StripKeeps(las: seq<LineAttribution>, n: nat)
    requires NormalForm(las)
    ensures var d := Decode(las, n);
            Decode(StripHuman(las), n) == if d.Some? && Kept(d.value) then d else None
    decreases |las|
  {
    if las != [] {
      StripKeeps(las[1..], n);
      if las[0].startLine <= n <= las[0].endLine {
        DecodeBefore(las[1..], n);
      }
      if Kept(LabelOf(las[0])) {
        assert StripHuman(las)[1..] == StripHuman(las[1..]);
      } else {
        assert StripHuman(las) == StripHuman(las[1..]);
      }
    }
  }

  lemma {:induction false} StripNormal(las: seq<LineAttribution>)
    requires NormalForm(las)
    ensures NormalForm(StripHuman(las))
    ensures las != [] && StripHuman(las) != [] ==> StripHuman(las)[0].startLine >= las[0].startLine
    ensures las != [] && StripHuman(las) != [] && StripHuman(las)[0] != las[0] ==>
              StripHuman(las)[0].startLine > las[0].endLine
    ensures |las| > 1 && StripHuman(las[1..]) != [] && StripHuman(las[1..])[0] != las[1] ==>
              StripHuman(las[1..])[0].startLine > las[0].endLine + 1
    decreases |las|
  {
    if las != [] {
      StripNormal(las[1..]);
      var rest := StripHuman(las[1..]);
      if Kept(LabelOf(las[0])) {
        assert StripHuman(las)[1..] == rest;
      } else {
        assert StripHuman(las) == rest;
      }
    }
  }

  // ----- The two conversions -----

  /** The outcome of the conversion to lines: exactly the labels that are kept, in normal form. */
  ghost predicate IsLineAuthorship(cc: CharClass, attrs: seq<Attribution>, content: string, isAi: bool,
                                   las: seq<LineAttribution>) {
    && NormalForm(las)
    && forall n: nat ::
         Decode(las, n)
         == var who := LabelAt(cc, attrs, content, isAi, n); if who == Some(("human", None)) then None else who
  }

  lemma {:induction false} StrippedAuthorship(cc: CharClass, attrs: seq<Attribution>, content: string, isAi: bool,
                                              labels: seq<Option<Label>>, merged: seq<LineAttribution>)
    requires LabelsAre(cc, attrs, content, isAi, labels, |LineRanges(content)|) && Labels(merged, labels, |labels|)
    ensures IsLineAuthorship(cc, attrs, content, isAi, StripHuman(merged))
  {
    StripNormal(merged);
    hide LabelAt, StripHuman, NormalForm, Decode, LineRanges;
    forall n: nat
      ensures Decode(StripHuman(merged), n)
           == var who := LabelAt(cc, attrs, content, isAi, n); if who.Some? && Kept(who.value) then who else None
    {
      StripKeeps(merged, n);
      NoLabelOutside(cc, attrs, content, isAi, n);
      if 1 <= n <= |labels| {
        assert labels[n - 1] == LabelAt(cc, attrs, content, isAi, n - 1 + 1);
      }
    }
  }

  /** `attributions_to_line_attributions_for_checkpoint`. */
  method AttributionsToLineAttributions(cc: CharClass, attrs: seq<Attribution>, content: string, isAi: bool)
    returns (las: seq<LineAttribution>)
    ensures IsLineAuthorship(cc, attrs, content, isAi, las)
  {
    NothingToLabel(cc, attrs, content, isAi);
    hide *;
    if content == "" || attrs == [] {
      return [];
    }
    var boundaries := CollectLineBoundaries(content);
    if |boundaries| == 0 {
      return [];
    }
    var lineAuthors := SweepLines(cc, attrs, content, boundaries, isAi);
    LabelCount(cc, attrs, content, isAi, lineAuthors, |boundaries|);
    var merged := MergeConsecutive(lineAuthors);
    las := StripHuman(merged);
    StrippedAuthorship(cc, attrs, content, isAi, lineAuthors, merged);
  }

  lemma {:induction false} LabelCount(cc: CharClass, attrs: seq<Attribution>, content: string, isAi: bool,
                                      labels: seq<Option<Label>>, n: nat)
    requires LabelsAre(cc, attrs, content, isAi, labels, n)
    ensures |labels| == n
  {
  }

  lemma {:induction false} NoLabelOutside(cc: CharClass, attrs: seq<Attribution>, content: string, isAi: bool, n: nat)
    ensures !(1 <= n <= |LineRanges(content)|) ==> LabelAt(cc, attrs, content, isAi, n) == None
  {
  }

  lemma {:induction false} NothingToLabel(cc: CharClass, attrs: seq<Attribution>, content: string, isAi: bool)
    ensures content == "" || attrs == [] || LineRanges(content) == [] ==> IsLineAuthorship(cc, attrs, content, isAi, [])
  {
  }

  /** The byte range of a line attribution, if both of its lines exist. */
  function CharRange(ranges: seq<(nat, nat)>, la: LineAttribution, ts: nat): Option<Attribution> {
    var first, last := GetLineRange(ranges, la.startLine), GetLineRange(ranges, la.endLine);
    if first.Some? && last.Some? then Some(Attribution(first.value.0, last.value.1, la.author, ts)) else None
  }

  function CharRanges(ranges: seq<(nat, nat)>, las: seq<LineAttribution>, ts: nat): seq<Attribution> {
    if las == [] then [] else
    var r := CharRange(ranges, las[|las| - 1], ts);
    CharRanges(ranges, las[..|las| - 1], ts) + if r.Some? then [r.value] else []
  }

  /** A list, piece by piece: one range for an attribution whose two lines exist, and none for any other. */
  lemma {:induction false} CharRangesMeaning(content: string, las: seq<LineAttribution>, la: LineAttribution, ts: nat)
    ensures var ranges := LineRanges(content);
            && CharRanges(ranges, [], ts) == []
            && CharRanges(ranges, las + [la], ts)
               == CharRanges(ranges, las, ts)
                  + if 1 <= la.startLine <= |ranges| && 1 <= la.endLine <= |ranges| then
                      [Attribution(ranges[la.startLine - 1].0, ranges[la.endLine - 1].1, la.author, ts)]
                    else []
  {
    hide LineRanges;
    assert (las + [la])[..|las|] == las;
  }

  /** `line_attributions_to_attributions`. */
  method LineAttributionsToAttributions(las: seq<LineAttribution>, content: string,
                                        ts: nat) returns (result: seq<Attribution>)
    ensures result == CharRanges(LineRanges(content), las, ts)
  {
    if las == [] || content == "" {
      NoLines(las, ts);
      return [];
    }
    var ranges := CollectLineBoundaries(content);
    result := [];
    for k := 0 to |las|
      invariant result == CharRanges(ranges, las[..k], ts)
    {
      assert las[..k + 1][..k] == las[..k];
      var startRange, endRange := GetLineRange(ranges, las[k].startLine), GetLineRange(ranges, las[k].endLine);
      if startRange.Some? && endRange.Some? {
        result := result + [Attribution(startRange.value.0, endRange.value.1, las[k].author, ts)];
      }
    }
    assert las[..|las|] == las;
  }

  lemma {:induction false} NoLines(las: seq<LineAttribution>, ts: nat)
    ensures CharRanges([], las, ts) == []
  {
    if las != [] {
      NoLines(las[..|las| - 1], ts);
    }
  }

  // ----- The round trip -----

  /** Line attributions that the log keeps: in range, in normal form, and about authors other than plain humans. */
  ghost predicate Recordable(las: seq<LineAttribution>, lineCount: nat) {
    && NormalForm(las)
    && forall k | 0 <= k < |las| :: las[k].endLine <= lineCount && las[k].author != HUMAN && las[k].overrode == None
  }

  lemma {:induction false} NormalFormAt(las: seq<LineAttribution>, k: nat)
    requires NormalForm(las) && k < |las|
    ensures 1 <= las[k].startLine <= las[k].endLine
    ensures forall n | las[k].startLine <= n <= las[k].endLine :: Decode(las, n) == Some(LabelOf(las[k]))
    decreases |las|
  {
    if k > 0 {
      NormalFormAt(las[1..], k - 1);
      LaterStart(las[1..], k - 1);
    }
  }

  lemma {:induction false} LaterStart(las: seq<LineAttribution>, k: nat)
    requires NormalForm(las) && k < |las|
    ensures las[0].startLine <= las[k].startLine
    decreases |las|
  {
    if k > 0 {
      LaterStart(las[1..], k - 1);
    }
  }

  lemma {:induction false} DecodedBySome(las: seq<LineAttribution>, n: nat)
    requires Decode(las, n).Some?
    ensures exists k | 0 <= k < |las| :: las[k].startLine <= n <= las[k].endLine
    decreases |las|
  {
    if las[0].startLine <= n <= las[0].endLine {
    } else {
      DecodedBySome(las[1..], n);
      var k :| 0 <= k < |las[1..]| && las[1..][k].startLine <= n <= las[1..][k].endLine;
      assert las[k + 1] == las[1..][k];
    }
  }

  /** With both lines in range every line attribution becomes a character range, in order. */
  lemma {:induction false} CharRangesAt(content: string, las: seq<LineAttribution>, ts: nat)
    requires forall k | 0 <= k < |las| :: 1 <= las[k].startLine <= las[k].endLine <= |LineRanges(content)|
    ensures var attrs := CharRanges(LineRanges(content), las, ts);
            && |attrs| == |las|
            && forall k | 0 <= k < |las| ::
                 attrs[k] == Attribution(LineRanges(content)[las[k].startLine - 1].0,
                                         LineRanges(content)[las[k].endLine - 1].1, las[k].author, ts)
  {
    RangesAt(LineRanges(content), las, ts);
  }

  lemma {:induction false} RangesAt(ranges: seq<(nat, nat)>, las: seq<LineAttribution>, ts: nat)
    requires forall k | 0 <= k < |las| :: 1 <= las[k].startLine <= las[k].endLine <= |ranges|
    ensures |CharRanges(ranges, las, ts)| == |las|
    ensures forall k | 0 <= k < |las| ::
              CharRanges(ranges, las, ts)[k]
              == Attribution(ranges[las[k].startLine - 1].0, ranges[las[k].endLine - 1].1, las[k].author, ts)
  {
    hide CharRanges, CharRange;
    if las == [] {
      NoCharRanges(ranges, ts);
    } else {
      RangesAt(ranges, las[..|las| - 1], ts);
      CharRangesSnoc(ranges, las, ts);
    }
  }

  lemma {:induction false} NoCharRanges(ranges: seq<(nat, nat)>, ts: nat)
    ensures CharRanges(ranges, [], ts) == []
  {
  }

  lemma {:induction false} CharRangesSnoc(ranges: seq<(nat, nat)>, las: seq<LineAttribution>, ts: nat)
    requires las != []
    requires var la := las[|las| - 1]; 1 <= la.startLine <= la.endLine <= |ranges|
    ensures var la := las[|las| - 1];
            CharRanges(ranges, las, ts)
            == CharRanges(ranges, las[..|las| - 1], ts)
               + [Attribution(ranges[la.startLine - 1].0, ranges[la.endLine - 1].1, la.author, ts)]
  {
  }

  /** Earlier lines end where or before later lines start. */
  lemma {:induction false} LinesInOrder(content: string, i: nat, j: nat)
    requires i <= j < |LineRanges(content)|
    ensures i < j ==> LineRanges(content)[i].1 <= LineRanges(content)[j].0
    ensures LineRanges(content)[i].0 <= LineRanges(content)[j].0 && LineRanges(content)[i].1 <= LineRanges(content)[j].1
    ensures LineRanges(content)[i].0 < LineRanges(content)[i].1
  {
    LineRangesPartition(content, 0);
    if i < j {
      PartitionOrdered(content, 0, LineRanges(content), i, j);
    }
  }

  /** A range of whole lines overlaps exactly its lines, and contains each of them. */
  lemma {:induction false} WholeLinesOverlap(content: string, s: nat, e: nat, n: nat)
    requires 1 <= s <= e <= |LineRanges(content)| && 1 <= n <= |LineRanges(content)|
    ensures var rs := LineRanges(content);
            var a := Attribution(rs[s - 1].0, rs[e - 1].1, "", 0);
            && (Attributions.Overlaps(a, rs[n - 1].0, rs[n - 1].1) <==> s <= n <= e)
            && (s <= n <= e ==> a.start <= rs[n - 1].0 < rs[n - 1].1 <= a.end)
  {
    hide LineRanges;
    if n < s {
      LinesInOrder(content, n - 1, s - 1);
    } else if e < n {
      LinesInOrder(content, e - 1, n - 1);
    } else {
      LinesInOrder(content, s - 1, n - 1);
      LinesInOrder(content, n - 1, e - 1);
    }
  }

  /** If every counted candidate has the same author, the line is his and nothing was overridden. */
  lemma {:induction false} OneAuthor(candidates: seq<Attribution>, author: string)
    requires candidates != [] && forall k | 0 <= k < |candidates| :: candidates[k].author == author
    ensures LabelFrom(candidates) == (author, None)
  {
    OnlyLatest(candidates, author, |candidates|);
    NoOtherEdit(candidates, author, |candidates|);
  }

  lemma {:induction false} OnlyLatest(candidates: seq<Attribution>, author: string, n: nat)
    requires 0 < n <= |candidates| && forall k | 0 <= k < n :: candidates[k].author == author
    ensures Latest(candidates, n).author == author
  {
    if n > 1 {
      OnlyLatest(candidates, author, n - 1);
    }
  }

  lemma {:induction false} NoOtherEdit(candidates: seq<Attribution>, author: string, n: nat)
    requires n <= |candidates| && forall k | 0 <= k < n :: candidates[k].author == author
    ensures LastEdit(candidates, n, !IsHumanId(author)) == None
  {
    if n > 0 {
      NoOtherEdit(candidates, author, n - 1);
    }
  }

  /** The counted candidates of a line are the list members that overlap it and count. */
  lemma {:induction false} CountingMembers(cc: CharClass, es: seq<Entry>, n: nat, attrs: seq<Attribution>,
                                           content: string, lo: nat, hi: nat, isAi: bool)
    requires n <= |es| && ValidEntries(es, attrs) && lo <= hi <= |content|
    ensures var cs := Counting(cc, es, n, attrs, content, lo, hi, isAi);
            && (forall k | 0 <= k < |cs| :: cs[k] in attrs && Attributions.Overlaps(cs[k], lo, hi))
            && (forall k | 0 <= k < n && Attributions.Overlaps(attrs[es[k].idx], lo, hi)
                           && CountsForLine(cc, attrs[es[k].idx], content, lo, hi, isAi) :: cs != [])
  {
    hide CountsForLine;
    if n > 0 {
      CountingMembers(cc, es, n - 1, attrs, content, lo, hi, isAi);
    }
  }

  /** A range that contains the whole line counts for it. */
  lemma {:induction false} WholeLineCounts(cc: CharClass, a: Attribution, content: string, lo: nat, hi: nat, isAi: bool)
    requires a.start <= lo < hi <= a.end && hi <= |content|
    ensures CountsForLine(cc, a, content, lo, hi, isAi)
  {
    assert Max(lo, a.start) == lo && Min(hi, a.end) == hi;
  }

  /** What the character range of line attribution `k` has to do with line `n`. */
  lemma {:induction false} RecordedRange(content: string, las: seq<LineAttribution>, ts: nat, k: nat, n: nat)
    requires Recordable(las, |LineRanges(content)|) && k < |las| && 1 <= n <= |LineRanges(content)|
    ensures var attrs := CharRanges(LineRanges(content), las, ts);
            var line := LineRanges(content)[n - 1];
            && |attrs| == |las| && attrs[k].author == las[k].author
            && line.0 < line.1 <= |content|
            && (Attributions.Overlaps(attrs[k], line.0, line.1) ==> Decode(las, n) == Some((attrs[k].author, None)))
            && (las[k].startLine <= n <= las[k].endLine ==>
                  Attributions.Overlaps(attrs[k], line.0, line.1) && attrs[k].start <= line.0 && line.1 <= attrs[k].end)
  {
    hide LineRanges, NormalForm, Decode, CharRanges;
    forall i | 0 <= i < |las| ensures 1 <= las[i].startLine <= las[i].endLine <= |LineRanges(content)| {
      NormalFormAt(las, i);
    }
    CharRangesAt(content, las, ts);
    NormalFormAt(las, k);
    NextLine(content, n - 1);
    WholeLinesOverlap(content, las[k].startLine, las[k].endLine, n);
  }

  /** The candidates of line `n` name the author of the line attributions, and there is one if they name one. */
  lemma {:induction false} CandidatesOfRecorded(cc: CharClass, content: string, las: seq<LineAttribution>, ts: nat,
                                                isAi: bool, n: nat, es: seq<Entry>, cs: seq<Attribution>)
    requires Recordable(las, |LineRanges(content)|) && 1 <= n <= |LineRanges(content)|
    requires LineRanges(content)[n - 1].0 < LineRanges(content)[n - 1].1 <= |content|
    requires es == SweepOrder(CharRanges(LineRanges(content), las, ts))
    requires ValidEntries(es, CharRanges(LineRanges(content), las, ts))
    requires cs == Counting(cc, es, |es|, CharRanges(LineRanges(content), las, ts), content,
                            LineRanges(content)[n - 1].0, LineRanges(content)[n - 1].1, isAi)
    ensures forall i | 0 <= i < |cs| :: Decode(las, n) == Some((cs[i].author, None))
    ensures Decode(las, n).Some? ==> cs != []
  {
    hide LineRanges, Counting, SweepOrder, CharRanges, Recordable, Decode, CountsForLine;
    var attrs := CharRanges(LineRanges(content), las, ts);
    var (lo, hi) := LineRanges(content)[n - 1];
    CountingMembers(cc, es, |es|, attrs, content, lo, hi, isAi);
    RecordedCount(content, las, ts);
    forall i | 0 <= i < |cs| ensures Decode(las, n) == Some((cs[i].author, None)) {
      var k :| 0 <= k < |attrs| && attrs[k] == cs[i];
      RecordedRange(content, las, ts, k, n);
    }
    if Decode(las, n).Some? {
      DecodedBySome(las, n);
      var k :| 0 <= k < |las| && las[k].startLine <= n <= las[k].endLine;
      RecordedRange(content, las, ts, k, n);
      WholeLineCounts(cc, attrs[k], content, lo, hi, isAi);
      SweepOrderCorrect(attrs);
      assert EntriesOf(attrs)[k] in es;
      var m :| 0 <= m < |es| && es[m] == EntriesOf(attrs)[k];
    }
  }

  /** The label of line `n` is the one the line attributions give it. */
  lemma {:induction false} LabelOfRecorded(cc: CharClass, content: string, las: seq<LineAttribution>, ts: nat,
                                           isAi: bool, n: nat)
    requires Recordable(las, |LineRanges(content)|) && 1 <= n <= |LineRanges(content)|
    ensures var attrs := CharRanges(LineRanges(content), las, ts);
            LabelAt(cc, attrs, content, isAi, n)
            == Some(if Decode(las, n).Some? then (Decode(las, n).value.0, None) else (HUMAN, None))
  {
    var attrs := CharRanges(LineRanges(content), las, ts);
    var (lo, hi) := LineRanges(content)[n - 1];
    NextLine(content, n - 1);
    SweepOrderCorrect(attrs);
    var es := SweepOrder(attrs);
    var cs := Counting(cc, es, |es|, attrs, content, lo, hi, isAi);
    assert LabelAt(cc, attrs, content, isAi, n) == Some(LabelFrom(cs));
    hide LineRanges, Counting, SweepOrder, CharRanges, LabelAt, Recordable, Decode;
    CandidatesOfRecorded(cc, content, las, ts, isAi, n, es, cs);
    assert cs != [] ==> Decode(las, n) == Some((cs[0].author, None));
    if Decode(las, n).Some? {
      OneAuthor(cs, Decode(las, n).value.0);
    }
  }

  lemma {:induction false} RecordedCount(content: string, las: seq<LineAttribution>, ts: nat)
    requires Recordable(las, |LineRanges(content)|)
    ensures |CharRanges(LineRanges(content), las, ts)| == |las|
  {
    forall i | 0 <= i < |las| ensures 1 <= las[i].startLine <= las[i].endLine <= |LineRanges(content)| {
      NormalFormAt(las, i);
    }
    CharRangesAt(content, las, ts);
  }

  lemma {:induction false} DecodedIsRecorded(las: seq<LineAttribution>, lineCount: nat, n: nat)
    requires Recordable(las, lineCount)
    ensures Decode(las, n).Some? ==>
              1 <= n <= lineCount && Kept(Decode(las, n).value) && Decode(las, n).value.1 == None
  {
    if Decode(las, n).Some? {
      DecodedBySome(las, n);
      var k :| 0 <= k < |las| && las[k].startLine <= n <= las[k].endLine;
      NormalFormAt(las, k);
    }
  }

  /** Lines to characters and back: nothing is lost, for every text, timestamp and kind of checkpoint. */
  lemma {:induction false} LineRoundTrip(cc: CharClass, content: string, las: seq<LineAttribution>, ts: nat, isAi: bool,
                                         back: seq<LineAttribution>)
    requires Recordable(las, |LineRanges(content)|)
    requires IsLineAuthorship(cc, CharRanges(LineRanges(content), las, ts), content, isAi, back)
    ensures back == las
  {
    var attrs := CharRanges(LineRanges(content), las, ts);
    hide LineRanges, CharRanges, LabelAt;
    forall n: nat ensures Decode(back, n) == Decode(las, n) {
      DecodedIsRecorded(las, |LineRanges(content)|, n);
      if 1 <= n <= |LineRanges(content)| {
        LabelOfRecorded(cc, content, las, ts, isAi, n);
      } else {
        NoLabelOutside(cc, attrs, content, isAi, n);
      }
    }
    NormalFormUnique(back, las);
  }

  /** The two conversions, one after the other. */
  method RoundTripLines(cc: CharClass, content: string, las: seq<LineAttribution>, ts: nat, isAi: bool)
    returns (back: seq<LineAttribution>)
    requires Recordable(las, |LineRanges(content)|)
    ensures back == las
  {
    hide *;
    var attrs := LineAttributionsToAttributions(las, content, ts);
    back := AttributionsToLineAttributions(cc, attrs, content, isAi);
    LineRoundTrip(cc, content, las, ts, isAi, back);
  }
}
