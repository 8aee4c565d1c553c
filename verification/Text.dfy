/**
 * Lines of a text.  Three places of the program split a text into lines; each is proved against the
 * same partition `LineRanges`.
 */
module Text {
  import opened Prelude

  /** End (exclusive) of the line that starts at `i`: after its `\n`, or the end of the text. */
  function LineEnd(c: string, i: nat): (e: nat)
    requires i < |c|
    ensures i < e <= |c|
    ensures forall k | i <= k < e - 1 :: c[k] != '\n'
    ensures e < |c| ==> c[e - 1] == '\n'
    decreases |c| - i
  {
    if c[i] == '\n' || i + 1 == |c| then i + 1 else LineEnd(c, i + 1)
  }

  lemma {:induction false} LineEndUnique(c: string, i: nat, e: nat)
    requires i < e <= |c|
    requires forall k | i <= k < e - 1 :: c[k] != '\n'
    requires c[e - 1] == '\n' || e == |c|
    ensures LineEnd(c, i) == e
  {
    var r := LineEnd(c, i);
    assert c[r - 1] == '\n' || r == |c|;
  }

  /** The byte ranges of the lines of `c[i..]`. */
  function LineRanges(c: string, i: nat := 0): (rs: seq<(nat, nat)>)
    requires i <= |c|
    ensures |rs| <= |c| - i
    ensures forall k | 0 <= k < |rs| :: i <= rs[k].0 < rs[k].1 <= |c|
    decreases |c| - i
  {
    if i == |c| then [] else
    var e := LineEnd(c, i);
    [(i, e)] + LineRanges(c, e)
  }

  /** Start of line `k`, or the end of the text when there is no such line. */
  function StartOf(rs: seq<(nat, nat)>, total: nat, k: nat): nat {
    if k < |rs| then rs[k].0 else total
  }

  /** A partition of `c[from..]` into maximal newline-terminated pieces. */
  ghost predicate IsLinePartition(c: string, from: nat, rs: seq<(nat, nat)>) {
    && from <= |c|
    && StartOf(rs, |c|, 0) == from
    && (forall k | 0 <= k < |rs| :: from <= rs[k].0 < rs[k].1 <= |c|)
    && (forall k {:trigger StartOf(rs, |c|, k)} | 0 < k <= |rs| :: StartOf(rs, |c|, k) == rs[k - 1].1)
    && (forall k | 0 <= k < |rs| :: rs[k].1 == LineEnd(c, rs[k].0))
  }

  lemma {:induction false} LineRangesPartition(c: string, i: nat)
    requires i <= |c|
    ensures IsLinePartition(c, i, LineRanges(c, i))
    decreases |c| - i
  {
    if i < |c| {
      var e := LineEnd(c, i);
      LineRangesPartition(c, e);
      var t := LineRanges(c, e);
      var rs := LineRanges(c, i);
      assert rs[1..] == t;
      forall k {:trigger StartOf(rs, |c|, k)} | 0 < k <= |rs|
        ensures StartOf(rs, |c|, k) == rs[k - 1].1
      {
        assert StartOf(rs, |c|, k) == StartOf(t, |c|, k - 1);
      }
    }
  }

  /** There is only one such partition. */
  lemma {:induction false} LinePartitionUnique(c: string, i: nat, rs: seq<(nat, nat)>)
    requires IsLinePartition(c, i, rs)
    ensures rs == LineRanges(c, i)
    decreases |rs|
  {
    if |rs| == 0 {
    } else {
      assert rs[0].0 == i;
      var t := rs[1..];
      assert rs[0].1 == StartOf(rs, |c|, 1) == StartOf(t, |c|, 0);
      forall k {:trigger StartOf(t, |c|, k)} | 0 < k <= |t|
        ensures StartOf(t, |c|, k) == t[k - 1].1
      {
        assert StartOf(t, |c|, k) == StartOf(rs, |c|, k + 1);
      }
      forall k | 0 <= k < |t|
        ensures rs[0].1 <= t[k].0
      {
        PartitionOrdered(c, i, rs, 0, k + 1);
      }
      LinePartitionUnique(c, rs[0].1, t);
    }
  }

  lemma {:induction false} PartitionOrdered(c: string, i: nat, rs: seq<(nat, nat)>, a: nat, b: nat)
    requires IsLinePartition(c, i, rs) && a < b <= |rs|
    ensures rs[a].1 <= StartOf(rs, |c|, b)
    decreases b - a
  {
    assert rs[a].1 == StartOf(rs, |c|, a + 1);
    if a + 1 < b {
      PartitionOrdered(c, i, rs, a + 1, b);
    }
  }

  lemma {:induction false} StartMonotone(c: string, a: nat, b: nat)
    requires a <= b <= |LineRanges(c)|
    ensures StartOf(LineRanges(c), |c|, a) <= StartOf(LineRanges(c), |c|, b) <= |c|
  {
    var rs := LineRanges(c);
    LineRangesPartition(c, 0);
    if a < b {
      PartitionOrdered(c, 0, rs, a, b);
    }
  }

  predicate InBounds(c: string, rs: seq<(nat, nat)>) {
    forall k | 0 <= k < |rs| :: rs[k].0 < rs[k].1 <= |c|
  }

  /** The lines with their terminators. */
  function Slices(c: string, rs: seq<(nat, nat)>): (s: seq<string>)
    requires InBounds(c, rs)
    ensures |s| == |rs|
    ensures forall k | 0 <= k < |s| :: s[k] == c[rs[k].0..rs[k].1]
  {
    if rs == [] then [] else
    var r := rs[|rs| - 1];
    Slices(c, rs[..|rs| - 1]) + [c[r.0..r.1]]
  }

  function Lines(c: string): (s: seq<string>)
    ensures |s| == |LineRanges(c)|
  {
    Slices(c, LineRanges(c))
  }

  /** Lines `i..k` joined are the text they span. */
  lemma {:induction false} LinesSpanText(c: string, i: nat, k: nat)
    requires i <= k <= |Lines(c)|
    ensures var s, e := StartOf(LineRanges(c), |c|, i), StartOf(LineRanges(c), |c|, k);
            s <= e <= |c| && Concat(Lines(c)[i..k]) == c[s..e]
    decreases k - i
  {
    StartMonotone(c, i, k);
    hide *;
    if i < k {
      LinesSpanText(c, i + 1, k);
      LineStep(c, i);
      ConcatSlice(Lines(c), i, k);
      var r, e := LineRanges(c)[i], StartOf(LineRanges(c), |c|, k);
      JoinSlices(c, r.0, r.1, e);
    } else {
      NoLines(c, i);
    }
  }

  lemma {:induction false} NoLines(c: string, i: nat)
    requires i <= |Lines(c)|
    ensures var s := StartOf(LineRanges(c), |c|, i); s <= |c| && Concat(Lines(c)[i..i]) == c[s..s]
  {
  }

  lemma {:induction false} JoinSlices(c: string, a: nat, b: nat, e: nat)
    requires a <= b <= e <= |c|
    ensures c[a..e] == c[a..b] + c[b..e]
  {
  }

  lemma {:induction false} LineStep(c: string, i: nat)
    requires i < |Lines(c)|
    ensures var r := LineRanges(c)[i];
            && StartOf(LineRanges(c), |c|, i) == r.0
            && StartOf(LineRanges(c), |c|, i + 1) == r.1
            && Lines(c)[i] == c[r.0..r.1]
  {
    LineRangesPartition(c, 0);
  }

  lemma {:induction false} ConcatSlice(ss: seq<string>, i: nat, k: nat)
    requires i < k <= |ss|
    ensures Concat(ss[i..k]) == ss[i] + Concat(ss[i + 1..k])
  {
    assert ss[i..k] == [ss[i]] + ss[i + 1..k];
  }

  /** Equal lines span equal text. */
  lemma {:induction false} EqualLinesEqualText(a: string, b: string, i: nat, j: nat, n: nat)
    requires i + n <= |Lines(a)| && j + n <= |Lines(b)|
    requires Lines(a)[i..i + n] == Lines(b)[j..j + n]
    ensures var i0, i1 := StartOf(LineRanges(a), |a|, i), StartOf(LineRanges(a), |a|, i + n);
            var j0, j1 := StartOf(LineRanges(b), |b|, j), StartOf(LineRanges(b), |b|, j + n);
            i0 <= i1 <= |a| && j0 <= j1 <= |b| && a[i0..i1] == b[j0..j1]
  {
    hide *;
    LinesSpanText(a, i, i + n);
    LinesSpanText(b, j, j + n);
    assert Concat(Lines(a)[i..i + n]) == Concat(Lines(b)[j..j + n]);
  }

  /** A list of lines: every line is non-empty, `\n` occurs only at its end, and only the last may lack it. */
  ghost predicate IsLineList(ls: seq<string>) {
    ls == [] || (IsLine(ls[0]) && (|ls| > 1 ==> Terminated(ls[0])) && IsLineList(ls[1..]))
  }

  predicate IsLine(l: string) {
    l != [] && forall k | 0 <= k < |l| - 1 :: l[k] != '\n'
  }

  predicate Terminated(l: string) {
    l != [] && l[|l| - 1] == '\n'
  }

  /** A line list is the line list of its concatenation: splitting is the only way to read it. */
  lemma {:induction false} LinesOfConcat(ls: seq<string>)
    requires IsLineList(ls)
    ensures Lines(Concat(ls)) == ls
  {
    SlicesOfConcat([], ls);
    assert [] + Concat(ls) == Concat(ls);
  }

  lemma {:induction false} SlicesOfConcat(pre: string, ls: seq<string>)
    requires IsLineList(ls)
    ensures var c := pre + Concat(ls); Slices(c, LineRanges(c, |pre|)) == ls
    decreases |ls|
  {
    if ls == [] {
    } else {
      var l, rest := ls[0], ls[1..];
      var c := (pre + l) + Concat(rest);
      FirstLineEnd(pre, l, rest);
      SlicesOfConcat(pre + l, rest);
      ConcatHead(pre, ls);
      hide Slices, LineRanges, LineEnd, Concat, IsLineList;
      SlicesCons(c, |pre|, |pre| + |l|);
      assert c[|pre|..|pre| + |l|] == l;
      assert ls == [l] + rest;
    }
  }

  lemma {:induction false} ConcatHead(pre: string, ls: seq<string>)
    requires ls != []
    ensures pre + Concat(ls) == (pre + ls[0]) + Concat(ls[1..])
  {
  }

  lemma {:induction false} FirstLineEnd(pre: string, l: string, rest: seq<string>)
    requires IsLine(l) && (rest != [] ==> Terminated(l))
    ensures LineEnd((pre + l) + Concat(rest), |pre|) == |pre| + |l|
  {
    var c := (pre + l) + Concat(rest);
    forall k | |pre| <= k < |pre| + |l| - 1 ensures c[k] != '\n' {
      assert c[k] == l[k - |pre|];
    }
    assert c[|pre| + |l| - 1] == l[|l| - 1];
    LineEndUnique(c, |pre|, |pre| + |l|);
  }

  lemma {:induction false} SlicesCons(c: string, i: nat, e: nat)
    requires i < e <= |c| && LineEnd(c, i) == e
    ensures Slices(c, LineRanges(c, i)) == [c[i..e]] + Slices(c, LineRanges(c, e))
  {
  }

  /** Conversely the lines of a text are a line list, and joined they are the text. */
  lemma {:induction false} LinesAreLineList(c: string)
    ensures IsLineList(Lines(c)) && Concat(Lines(c)) == c
  {
    LineListFrom(c, 0);
  }

  lemma {:induction false} LineListFrom(c: string, i: nat)
    requires i <= |c|
    ensures IsLineList(Slices(c, LineRanges(c, i))) && Concat(Slices(c, LineRanges(c, i))) == c[i..]
    decreases |c| - i
  {
    if i < |c| {
      var e := LineEnd(c, i);
      SlicesCons(c, i, e);
      LineListFrom(c, e);
      LineListCons(c, i, e, Slices(c, LineRanges(c, e)));
    }
  }

  lemma {:induction false} LineListCons(c: string, i: nat, e: nat, rest: seq<string>)
    requires i < e <= |c| && LineEnd(c, i) == e
    requires IsLineList(rest) && Concat(rest) == c[e..]
    ensures IsLineList([c[i..e]] + rest) && Concat([c[i..e]] + rest) == c[i..]
  {
    var l := c[i..e];
    assert ([l] + rest)[1..] == rest;
    assert forall k | 0 <= k < |l| - 1 :: l[k] == c[i + k];
    if rest != [] {
      assert Concat(rest) == rest[0] + Concat(rest[1..]);
      assert l[|l| - 1] == c[e - 1];
    }
    assert c[i..] == l + c[e..];
  }

  // ----- The three splitters -----

  datatype LineMetadata = LineMetadata(number: nat, start: nat, end: nat, text: string)

  /** The line without its `\n`, and without one `\r` before that. */
  function LineText(c: string, start: nat, end: nat): string
    requires start < end <= |c|
  {
    StripCr(if c[end - 1] == '\n' then c[start..end - 1] else c[start..end])
  }

  /** What is left off is a line end, or the carriage return at the end of an unterminated line. */
  lemma {:induction false} LineTextMeaning(c: string, start: nat, end: nat) returns (ending: string)
    requires start < end <= |c|
    ensures c[start..end] == LineText(c, start, end) + ending && ending in {"", "\n", "\r", "\r\n"}
    ensures ending == "" || ending == "\r" <==> c[end - 1] != '\n'
    ensures var t := LineText(c, start, end);
            (ending == "" ==> c[end - 1] != '\r') && (ending == "\n" && t != [] ==> t[|t| - 1] != '\r')
  {
    var n := |LineText(c, start, end)|;
    ending := c[start + n..end];
    assert c[start..end] == c[start..start + n] + ending;
    if c[end - 1] == '\n' {
      if n == end - start - 1 {
        assert ending == "\n";
      } else {
        assert c[start..end - 1][|c[start..end - 1]| - 1] == c[end - 2];
        assert ending == "\r\n";
      }
    } else if n < end - start {
      assert c[start..end][|c[start..end]| - 1] == c[end - 1];
      assert ending == "\r";
    } else {
      assert c[start..end][|c[start..end]| - 1] == c[end - 1];
      assert ending == "";
    }
  }

  function MetadataOf(c: string, rs: seq<(nat, nat)>): (ms: seq<LineMetadata>)
    requires InBounds(c, rs)
    ensures |ms| == |rs|
    ensures forall k | 0 <= k < |ms| :: ms[k] == LineMetadata(k + 1, rs[k].0, rs[k].1, LineText(c, rs[k].0, rs[k].1))
  {
    if rs == [] then [] else
    var r := rs[|rs| - 1];
    MetadataOf(c, rs[..|rs| - 1]) + [LineMetadata(|rs|, r.0, r.1, LineText(c, r.0, r.1))]
  }

  /** `rs` lists the lines before `start`; the lines from `start` on are still to come. */
  ghost predicate ListedUpTo(c: string, rs: seq<(nat, nat)>, start: nat)
    ensures ListedUpTo(c, rs, start) ==> InBounds(c, rs)
  {
    start <= |c| && InBounds(c, rs) && rs + LineRanges(c, start) == LineRanges(c)
  }

  lemma {:induction false} ListedAtEnds(c: string, rs: seq<(nat, nat)>)
    ensures ListedUpTo(c, [], 0)
    ensures ListedUpTo(c, rs, |c|) ==> rs == LineRanges(c)
  {
    assert [] + LineRanges(c) == LineRanges(c);
    assert rs + [] == rs;
  }

  /** The next line is `[start, e)`. */
  lemma {:induction false} ListNextLine(c: string, rs: seq<(nat, nat)>, start: nat, e: nat)
    requires start < e <= |c| && ListedUpTo(c, rs, start)
    requires forall k | start <= k < e - 1 :: c[k] != '\n'
    requires c[e - 1] == '\n' || e == |c|
    ensures ListedUpTo(c, rs + [(start, e)], e)
    ensures Slices(c, rs + [(start, e)]) == Slices(c, rs) + [c[start..e]]
    ensures MetadataOf(c, rs + [(start, e)])
         == MetadataOf(c, rs) + [LineMetadata(|rs| + 1, start, e, LineText(c, start, e))]
  {
    LineEndUnique(c, start, e);
    assert LineRanges(c, start) == [(start, e)] + LineRanges(c, e);
    assert (rs + [(start, e)]) + LineRanges(c, e) == rs + ([(start, e)] + LineRanges(c, e));
    assert (rs + [(start, e)])[..|rs|] == rs;
  }

  lemma {:induction false} LineTextCases(c: string, start: nat, e: nat)
    requires start < e <= |c|
    ensures LineText(c, start, e) == StripCr(if c[e - 1] == '\n' then c[start..e - 1] else c[start..e])
  {
  }

  lemma {:induction false} NoMetadata(c: string)
    ensures InBounds(c, []) && MetadataOf(c, []) == []
  {
  }

  method CollectLineMetadata(content: string) returns (metadata: seq<LineMetadata>)
    ensures metadata == MetadataOf(content, LineRanges(content))
  {
    hide *;
    metadata := [];
    var lineStart := 0;
    var lineNumber := 1;
    ghost var rs: seq<(nat, nat)> := [];
    ListedAtEnds(content, rs);
    NoMetadata(content);
    for idx := 0 to |content|
      invariant 0 <= lineStart <= idx && lineNumber == |rs| + 1
      invariant forall k | lineStart <= k < idx :: content[k] != '\n'
      invariant ListedUpTo(content, rs, lineStart)
      invariant metadata == MetadataOf(content, rs)
    {
      if content[idx] == '\n' {
        ListNextLine(content, rs, lineStart, idx + 1);
        LineTextCases(content, lineStart, idx + 1);
        var text := StripCr(content[lineStart..idx]);
        metadata := metadata + [LineMetadata(lineNumber, lineStart, idx + 1, text)];
        rs := rs + [(lineStart, idx + 1)];
        lineStart := idx + 1;
        lineNumber := lineNumber + 1;
      }
    }
    if lineStart < |content| {
      ListNextLine(content, rs, lineStart, |content|);
      LineTextCases(content, lineStart, |content|);
      var text := StripCr(content[lineStart..|content|]);
      metadata := metadata + [LineMetadata(lineNumber, lineStart, |content|, text)];
      rs := rs + [(lineStart, |content|)];
    }
    ListedAtEnds(content, rs);
  }

  /** `LineBoundaries::new`. */
  method CollectLineBoundaries(content: string) returns (lineRanges: seq<(nat, nat)>)
    ensures lineRanges == LineRanges(content)
  {
    hide LineRanges, ListedUpTo;
    lineRanges := [];
    var start := 0;
    ListedAtEnds(content, lineRanges);
    for idx := 0 to |content|
      invariant 0 <= start <= idx
      invariant forall k | start <= k < idx :: content[k] != '\n'
      invariant ListedUpTo(content, lineRanges, start)
    {
      if content[idx] == '\n' {
        ListNextLine(content, lineRanges, start, idx + 1);
        lineRanges := lineRanges + [(start, idx + 1)];
        start := idx + 1;
      }
    }
    if start < |content| {
      ListNextLine(content, lineRanges, start, |content|);
      lineRanges := lineRanges + [(start, |content|)];
    }
    ListedAtEnds(content, lineRanges);
  }

  method SplitLinesWithTerminators(s: string) returns (lines: seq<string>)
    ensures lines == Lines(s)
  {
    hide LineRanges, ListedUpTo, MetadataOf, LineText;
    lines := [];
    var start := 0;
    ghost var rs: seq<(nat, nat)> := [];
    ListedAtEnds(s, rs);
    hide Slices;
    for idx := 0 to |s|
      invariant 0 <= start <= idx
      invariant forall k | start <= k < idx :: s[k] != '\n'
      invariant ListedUpTo(s, rs, start)
      invariant lines == Slices(s, rs)
    {
      if s[idx] == '\n' {
        ListNextLine(s, rs, start, idx + 1);
        lines := lines + [s[start..idx + 1]];
        rs := rs + [(start, idx + 1)];
        start := idx + 1;
      }
    }
    if start < |s| {
      ListNextLine(s, rs, start, |s|);
      lines := lines + [s[start..|s|]];
      rs := rs + [(start, |s|)];
    }
    ListedAtEnds(s, rs);
  }
}
