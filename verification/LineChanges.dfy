/** Line changes that ignore CRLF/LF differences (`compute_line_changes`). */
module LineChanges {
  import opened Prelude
  import opened Text
  import D = DiffOps

  /** `s.replace("\r\n", "\n")`. */
  function ReplaceCrLf(s: string): string {
    if |s| < 2 then s
    else if s[0] == '\r' && s[1] == '\n' then "\n" + ReplaceCrLf(s[2..])
    else [s[0]] + ReplaceCrLf(s[1..])
  }

  /** `normalize_line_endings`, with its fast path. */
  function NormalizeLineEndings(s: string): string {
    if '\r' !in s then s else ReplaceCrLf(s)
  }

  lemma {:induction false} FastPathAgrees(s: string)
    ensures NormalizeLineEndings(s) == ReplaceCrLf(s)
  {
    if |s| >= 2 && '\r' !in s {
      FastPathAgrees(s[1..]);
    }
  }

  function NormalizeLine(l: string): string {
    if |l| >= 2 && l[|l| - 2] == '\r' && l[|l| - 1] == '\n' then l[..|l| - 2] + "\n" else l
  }

  function NormalizeLines(ls: seq<string>): (ns: seq<string>)
    ensures |ns| == |ls|
    ensures forall k | 0 <= k < |ns| :: ns[k] == NormalizeLine(ls[k])
  {
    if ls == [] then [] else [NormalizeLine(ls[0])] + NormalizeLines(ls[1..])
  }

  /** Within `l + rest`, where `l` is a whole line, replacement never straddles the line end. */
  lemma {:induction false} ReplaceAcrossLine(l: string, rest: string)
    requires IsLine(l) && (Terminated(l) || rest == [])
    ensures ReplaceCrLf(l + rest) == NormalizeLine(l) + ReplaceCrLf(rest)
    decreases |l|
  {
    hide ReplaceCrLf, NormalizeLine;
    if |l| == 1 {
      ReplaceLast(l, rest);
    } else if l[0] == '\r' && l[1] == '\n' {
      ReplaceCrLfFirst(l, rest);
    } else {
      var t := l[1..];
      assert forall k | 0 <= k < |t| - 1 :: t[k] == l[k + 1];
      ReplaceAcrossLine(t, rest);
      ReplaceFirst(l, rest);
      Regroup([l[0]], NormalizeLine(t), ReplaceCrLf(rest));
    }
  }

  lemma {:induction false} Regroup(a: string, b: string, c: string)
    ensures a + (b + c) == a + b + c
  {
  }

  lemma {:induction false} ReplaceLast(l: string, rest: string)
    requires |l| == 1 && IsLine(l) && (Terminated(l) || rest == [])
    ensures ReplaceCrLf(l + rest) == NormalizeLine(l) + ReplaceCrLf(rest)
  {
    assert (l + rest)[1..] == rest;
  }

  lemma {:induction false} ReplaceCrLfFirst(l: string, rest: string)
    requires |l| >= 2 && IsLine(l) && l[0] == '\r' && l[1] == '\n'
    ensures ReplaceCrLf(l + rest) == NormalizeLine(l) + ReplaceCrLf(rest)
  {
    assert |l| == 2;
    assert (l + rest)[2..] == rest;
  }

  lemma {:induction false} ReplaceFirst(l: string, rest: string)
    requires |l| >= 2 && !(l[0] == '\r' && l[1] == '\n')
    ensures ReplaceCrLf(l + rest) == [l[0]] + ReplaceCrLf(l[1..] + rest)
    ensures NormalizeLine(l) == [l[0]] + NormalizeLine(l[1..])
  {
    NormalizeTail(l);
    hide NormalizeLine;
    assert (l + rest)[1..] == l[1..] + rest;
  }

  lemma {:induction false} NormalizeTail(l: string)
    requires |l| >= 2 && !(l[0] == '\r' && l[1] == '\n')
    ensures NormalizeLine(l) == [l[0]] + NormalizeLine(l[1..])
  {
    var t := l[1..];
    assert t[|t| - 1] == l[|l| - 1];
    if |l| > 2 {
      assert t[|t| - 2] == l[|l| - 2];
      assert l[..|l| - 2] == [l[0]] + t[..|t| - 2];
    }
    assert l == [l[0]] + t;
  }

  lemma {:induction false} NormalizedIsLineList(ls: seq<string>)
    requires IsLineList(ls)
    ensures IsLineList(NormalizeLines(ls)) && ReplaceCrLf(Concat(ls)) == Concat(NormalizeLines(ls))
  {
    if ls != [] {
      NormalizedIsLineList(ls[1..]);
      if |ls| == 1 {
        assert Concat(ls[1..]) == [];
      }
      ReplaceAcrossLine(ls[0], Concat(ls[1..]));
      assert NormalizeLines(ls)[1..] == NormalizeLines(ls[1..]);
      NormalizedLine(ls[0]);
    }
  }

  lemma {:induction false} NormalizedLine(l: string)
    requires IsLine(l)
    ensures IsLine(NormalizeLine(l)) && (Terminated(l) ==> Terminated(NormalizeLine(l)))
  {
    var n := NormalizeLine(l);
    forall k | 0 <= k < |n| - 1 ensures n[k] != '\n' {
      assert n[k] == l[k];
    }
  }

  /** Normalisation commutes with splitting: it keeps the number of lines and works line by line. */
  lemma {:induction false} NormalizeCommutesWithSplit(s: string)
    ensures Lines(NormalizeLineEndings(s)) == NormalizeLines(Lines(s))
  {
    hide *;
    FastPathAgrees(s);
    LinesAreLineList(s);
    NormalizedIsLineList(Lines(s));
    LinesOfConcat(NormalizeLines(Lines(s)));
  }

  /** A bare `\r` is kept, so a second pass can still find something to do. */
  lemma {:induction false} NormalizeIsNotIdempotent()
    ensures var s := "\r\r\n"; NormalizeLineEndings(NormalizeLineEndings(s)) != NormalizeLineEndings(s)
  {
    var s := "\r\r\n";
    assert s[1..] == "\r\n" && "\r\n"[2..] == "";
    assert s[1] == '\r' && s[0] in s;
    assert NormalizeLineEndings(s) == "\r\n";
    assert "\r\n"[0] in "\r\n";
  }

  /** `t` occurs in `s`. */
  predicate Occurs(t: string, s: string) {
    |t| <= |s| && (s[..|t|] == t || (s != [] && Occurs(t, s[1..])))
  }

  /** A pass shortens exactly the texts with a CRLF, and changes no other. */
  lemma {:induction false} ReplaceShortens(s: string)
    ensures if Occurs("\r\n", s) then |ReplaceCrLf(s)| < |s| else ReplaceCrLf(s) == s
    ensures |ReplaceCrLf(s)| <= |s|
  {
    if |s| >= 2 {
      assert s[..2] == "\r\n" <==> s[0] == '\r' && s[1] == '\n';
      if s[0] == '\r' && s[1] == '\n' {
        ReplaceShortens(s[2..]);
      } else {
        ReplaceShortens(s[1..]);
        assert s == [s[0]] + s[1..];
      }
    }
  }

  /** A CRLF anywhere becomes a newline; with `NormalizeKeeps` this says what normalising does to any text. */
  lemma {:induction false} NormalizeCrLf(x: string, y: string)
    ensures NormalizeLineEndings(x + "\r\n" + y) == NormalizeLineEndings(x) + "\n" + NormalizeLineEndings(y)
  {
    hide *;
    FastPathAgrees(x + "\r\n" + y);
    FastPathAgrees(x);
    FastPathAgrees(y);
    ReplaceAround(x, y);
  }

  lemma {:induction false} NormalizeKeeps(s: string)
    requires !Occurs("\r\n", s)
    ensures NormalizeLineEndings(s) == s
  {
    FastPathAgrees(s);
    ReplaceShortens(s);
  }

  lemma {:induction false} ReplaceAround(x: string, y: string)
    ensures ReplaceCrLf(x + "\r\n" + y) == ReplaceCrLf(x) + "\n" + ReplaceCrLf(y)
  {
    hide *;
    if x == [] {
      ReplacedPair("\r\n" + y);
      assert ("\r\n" + y)[2..] == y && x + "\r\n" + y == "\r\n" + y;
      ReplacedShort(x);
    } else if |x| >= 2 && x[0] == '\r' && x[1] == '\n' {
      ReplacedPair(x);
      ReplacedPair(x + "\r\n" + y);
      assert (x + "\r\n" + y)[2..] == x[2..] + "\r\n" + y;
      ReplaceAround(x[2..], y);
      Regroup("\n", ReplaceCrLf(x[2..]) + "\n", ReplaceCrLf(y));
      Regroup("\n", ReplaceCrLf(x[2..]), "\n");
    } else {
      ReplacedOther(x);
      ReplacedOther(x + "\r\n" + y);
      assert (x + "\r\n" + y)[1..] == x[1..] + "\r\n" + y;
      ReplaceAround(x[1..], y);
      Regroup([x[0]], ReplaceCrLf(x[1..]) + "\n", ReplaceCrLf(y));
      Regroup([x[0]], ReplaceCrLf(x[1..]), "\n");
    }
  }

  lemma {:induction false} ReplacedShort(s: string)
    requires s == []
    ensures ReplaceCrLf(s) == []
  {
  }

  lemma {:induction false} ReplacedPair(s: string)
    requires |s| >= 2 && s[0] == '\r' && s[1] == '\n'
    ensures ReplaceCrLf(s) == "\n" + ReplaceCrLf(s[2..])
  {
  }

  lemma {:induction false} ReplacedOther(s: string)
    requires s != [] && !(|s| >= 2 && s[0] == '\r' && s[1] == '\n')
    ensures ReplaceCrLf(s) == [s[0]] + ReplaceCrLf(s[1..])
  {
    if |s| == 1 {
      assert s == [s[0]];
    }
  }

  /** What a replaced text starts with. */
  lemma {:induction false} ReplacedHead(s: string)
    ensures ReplaceCrLf(s) != [] <==> s != []
    ensures s != [] ==>
              (ReplaceCrLf(s)[0] == '\n' <==> s[0] == '\n' || (|s| >= 2 && s[0] == '\r' && s[1] == '\n'))
  {
  }

  lemma {:induction false} OccursShort(t: string, s: string)
    requires |s| < |t|
    ensures !Occurs(t, s)
  {
  }

  lemma {:induction false} OccursStep(t: string, s: string)
    requires s != [] && t != []
    ensures Occurs(t, s) <==> (|t| <= |s| && s[..|t|] == t) || Occurs(t, s[1..])
  {
    if |s| < |t| {
      OccursShort(t, s[1..]);
    }
  }

  /** A pass leaves a CRLF exactly where a bare CR stood before one. */
  lemma {:induction false} CrLfAfterReplace(s: string)
    ensures Occurs("\r\n", ReplaceCrLf(s)) <==> Occurs("\r\r\n", s)
  {
    if |s| < 2 {
      OccursShort("\r\n", s);
      OccursShort("\r\r\n", s);
    } else if s[0] == '\r' && s[1] == '\n' {
      CrLfAfterReplace(s[2..]);
      SkipsCrLf(s);
      NewlineFirst(ReplaceCrLf(s[2..]));
    } else {
      CrLfAfterReplace(s[1..]);
      ReplacedHead(s[1..]);
      PairFirst(s[0], ReplaceCrLf(s[1..]));
      TripleFirst(s);
    }
  }

  lemma {:induction false} SkipsCrLf(s: string)
    requires |s| >= 2 && s[0] == '\r' && s[1] == '\n'
    ensures Occurs("\r\r\n", s) <==> Occurs("\r\r\n", s[2..])
  {
    OccursStep("\r\r\n", s);
    OccursStep("\r\r\n", s[1..]);
    assert s[1..][1..] == s[2..];
    assert |s| >= 3 ==> s[..3][1] == '\n';
    assert |s| >= 4 ==> s[1..][..3][0] == '\n';
  }

  lemma {:induction false} NewlineFirst(x: string)
    ensures Occurs("\r\n", "\n" + x) <==> Occurs("\r\n", x)
  {
    OccursStep("\r\n", "\n" + x);
    assert ("\n" + x)[1..] == x;
    assert x != [] ==> ("\n" + x)[..2][0] == '\n';
  }

  lemma {:induction false} PairFirst(c: char, x: string)
    ensures Occurs("\r\n", [c] + x) <==> (c == '\r' && x != [] && x[0] == '\n') || Occurs("\r\n", x)
  {
    OccursStep("\r\n", [c] + x);
    assert ([c] + x)[1..] == x;
    assert x != [] ==> ([c] + x)[..2] == [c, x[0]];
  }

  lemma {:induction false} TripleFirst(s: string)
    requires s != []
    ensures Occurs("\r\r\n", s)
       <==> (|s| >= 3 && s[0] == '\r' && s[1] == '\r' && s[2] == '\n') || Occurs("\r\r\n", s[1..])
  {
    OccursStep("\r\r\n", s);
    assert |s| >= 3 ==> s[..3] == [s[0], s[1], s[2]];
  }

  /** A second pass changes nothing exactly if no bare CR stands before a CRLF. */
  lemma {:induction false} NormalizeTwiceIff(s: string)
    ensures NormalizeLineEndings(NormalizeLineEndings(s)) == NormalizeLineEndings(s) <==> !Occurs("\r\r\n", s)
  {
    hide *;
    FastPathAgrees(s);
    FastPathAgrees(ReplaceCrLf(s));
    ReplaceShortens(ReplaceCrLf(s));
    CrLfAfterReplace(s);
  }

  datatype LineChangeTag = Insert | Delete | Equal

  datatype LineChange = LineChange(tag: LineChangeTag, value: string)

  ghost function NewSide(cs: seq<LineChange>): seq<string> {
    if cs == [] then [] else
    NewSide(cs[..|cs| - 1]) + (if cs[|cs| - 1].tag.Delete? then [] else [cs[|cs| - 1].value])
  }

  ghost function OldSide(cs: seq<LineChange>): seq<LineChange> {
    if cs == [] then [] else
    OldSide(cs[..|cs| - 1]) + (if cs[|cs| - 1].tag.Insert? then [] else [cs[|cs| - 1]])
  }

  /** The old-side entries are the lines of `olds`, one by one; an Equal entry shows the new text of the line. */
  ghost predicate MatchesOld(entries: seq<LineChange>, olds: seq<string>) {
    && |entries| == |olds|
    && forall k | 0 <= k < |olds| ::
         if entries[k].tag.Delete? then entries[k].value == olds[k]
         else NormalizeLine(entries[k].value) == NormalizeLine(olds[k])
  }

  /** A change between old line `i` and new line `j` has the tag that the pairing of the lines calls for. */
  ghost predicate TagFits(hunks: seq<D.Hunk>, tag: LineChangeTag, i: nat, j: nat) {
    match tag
    case Equal => D.Counterpart(hunks, j) == Some(i)
    case Insert => D.Counterpart(hunks, j) == None
    case Delete => forall j': nat :: D.Counterpart(hunks, j') != Some(i)
  }

  ghost predicate TaggedAt(hunks: seq<D.Hunk>, cs: seq<LineChange>, k: nat)
    requires k < |cs|
  {
    TagFits(hunks, cs[k].tag, |OldSide(cs[..k])|, |NewSide(cs[..k])|)
  }

  /** Every tag is what the pairing says of the old line and the new line that the change stands for. */
  ghost predicate Tagged(hunks: seq<D.Hunk>, cs: seq<LineChange>) {
    forall k | 0 <= k < |cs| :: TaggedAt(hunks, cs, k)
  }

  ghost predicate Explains(hunks: seq<D.Hunk>, cs: seq<LineChange>, olds: seq<string>, i: nat, news: seq<string>,
                           j: nat) {
    && i <= |olds| && j <= |news|
    && NewSide(cs) == news[..j]
    && MatchesOld(OldSide(cs), olds[..i])
    && Tagged(hunks, cs)
  }

  lemma {:induction false} PushTag(hunks: seq<D.Hunk>, cs: seq<LineChange>, c: LineChange)
    requires Tagged(hunks, cs) && TagFits(hunks, c.tag, |OldSide(cs)|, |NewSide(cs)|)
    ensures Tagged(hunks, cs + [c])
  {
    hide TagFits, OldSide, NewSide;
    assert (cs + [c])[..|cs|] == cs;
    forall k | 0 <= k < |cs + [c]| ensures TaggedAt(hunks, cs + [c], k) {
      if k < |cs| {
        assert (cs + [c])[..k] == cs[..k];
        assert TaggedAt(hunks, cs, k);
      }
    }
  }

  lemma {:induction false} PushChange(cs: seq<LineChange>, c: LineChange)
    ensures NewSide(cs + [c]) == NewSide(cs) + (if c.tag.Delete? then [] else [c.value])
    ensures OldSide(cs + [c]) == OldSide(cs) + (if c.tag.Insert? then [] else [c])
  {
    assert (cs + [c])[..|cs|] == cs;
  }

  lemma {:induction false} PushEqual(hunks: seq<D.Hunk>, cs: seq<LineChange>, olds: seq<string>, i: nat,
                                     news: seq<string>, j: nat)
    requires Explains(hunks, cs, olds, i, news, j) && i < |olds| && j < |news|
    requires NormalizeLine(olds[i]) == NormalizeLine(news[j]) && D.Counterpart(hunks, j) == Some(i)
    ensures Explains(hunks, cs + [LineChange(Equal, news[j])], olds, i + 1, news, j + 1)
  {
    PushChange(cs, LineChange(Equal, news[j]));
    PushTag(hunks, cs, LineChange(Equal, news[j]));
    hide Tagged;
  }

  lemma {:induction false} PushDelete(hunks: seq<D.Hunk>, cs: seq<LineChange>, olds: seq<string>, i: nat,
                                      news: seq<string>, j: nat)
    requires Explains(hunks, cs, olds, i, news, j) && i < |olds|
    requires forall j': nat :: D.Counterpart(hunks, j') != Some(i)
    ensures Explains(hunks, cs + [LineChange(Delete, olds[i])], olds, i + 1, news, j)
  {
    PushChange(cs, LineChange(Delete, olds[i]));
    PushTag(hunks, cs, LineChange(Delete, olds[i]));
    hide Tagged;
  }

  lemma {:induction false} PushInsert(hunks: seq<D.Hunk>, cs: seq<LineChange>, olds: seq<string>, i: nat,
                                      news: seq<string>, j: nat)
    requires Explains(hunks, cs, olds, i, news, j) && j < |news| && D.Counterpart(hunks, j) == None
    ensures Explains(hunks, cs + [LineChange(Insert, news[j])], olds, i, news, j + 1)
  {
    PushChange(cs, LineChange(Insert, news[j]));
    PushTag(hunks, cs, LineChange(Insert, news[j]));
    hide Tagged;
  }

  /** In the gap before hunk `n` (or after the last one), line `i` and line `j` are equal once normalised. */
  lemma {:induction false} GapLine(olds: seq<string>, news: seq<string>, hunks: seq<D.Hunk>, n: nat, i: nat, j: nat)
    requires n <= |hunks| && D.ValidHunks(NormalizeLines(olds), NormalizeLines(news), hunks)
    requires D.OldAt(hunks, n) <= i && j - D.NewAt(hunks, n) == i - D.OldAt(hunks, n)
    requires i < if n < |hunks| then hunks[n].oldStart else |olds|
    ensures i < |olds| && j < |news| && NormalizeLine(olds[i]) == NormalizeLine(news[j])
  {
    var os, ns := NormalizeLines(olds), NormalizeLines(news);
    var i1, j1 := GapEnd(os, ns, hunks, n);
    hide NormalizeLine, NormalizeLines, D.ValidHunks, D.OldAt, D.NewAt;
    D.GapElement(os, ns, D.OldAt(hunks, n), i1, D.NewAt(hunks, n), j1, i - D.OldAt(hunks, n));
    assert j < j1 && j1 <= |ns|;
  }

  lemma {:induction false} GapPair(a: seq<string>, b: seq<string>, hunks: seq<D.Hunk>, n: nat, i: nat, j: nat)
    requires n <= |hunks| && D.ValidHunks(a, b, hunks)
    requires D.OldAt(hunks, n) <= i && j - D.NewAt(hunks, n) == i - D.OldAt(hunks, n)
    requires i < if n < |hunks| then hunks[n].oldStart else |a|
    ensures D.Counterpart(hunks, j) == Some(i)
  {
    D.CounterpartFrom(a, b, hunks, n, j);
    if n < |hunks| {
      D.HunkOrder(a, b, hunks, n);
    }
    hide D.ValidHunks;
  }

  /** The gap before hunk `n`, or after the last one. */
  lemma {:induction false} GapEnd(a: seq<string>, b: seq<string>, hunks: seq<D.Hunk>, n: nat) returns (i: nat, j: nat)
    requires n <= |hunks| && D.ValidHunks(a, b, hunks)
    ensures (i, j) == if n < |hunks| then (hunks[n].oldStart, hunks[n].newStart) else (|a|, |b|)
    ensures D.EqualGap(a, b, D.OldAt(hunks, n), i, D.NewAt(hunks, n), j)
  {
    if n < |hunks| {
      assert D.HunkFits(a, b, hunks, n);
      i, j := hunks[n].oldStart, hunks[n].newStart;
    } else {
      i, j := |a|, |b|;
    }
  }

  /** The gap before hunk `n` has the same length on both sides. */
  lemma {:induction false} GapLength(a: seq<string>, b: seq<string>, hunks: seq<D.Hunk>, n: nat)
    requires D.ValidHunks(a, b, hunks) && n <= |hunks|
    ensures n < |hunks| ==> D.WellShaped(hunks[n]) && D.OldAt(hunks, n) <= hunks[n].oldStart
    ensures n < |hunks| ==> hunks[n].oldEnd <= |a| && hunks[n].newEnd <= |b|
    ensures n < |hunks| ==> hunks[n].oldStart - D.OldAt(hunks, n) == hunks[n].newStart - D.NewAt(hunks, n)
    ensures n == |hunks| ==> |a| - D.OldAt(hunks, n) == |b| - D.NewAt(hunks, n)
  {
    if n < |hunks| {
      assert D.HunkFits(a, b, hunks, n);
      assert |a[D.OldAt(hunks, n)..hunks[n].oldStart]| == |b[D.NewAt(hunks, n)..hunks[n].newStart]|;
      D.GapStarts(a, b, hunks, n + 1);
    } else {
      assert |a[D.OldAt(hunks, n)..|a|]| == |b[D.NewAt(hunks, n)..|b|]|;
    }
  }

  /** The new lines of a hunk have no partner. */
  lemma {:induction false} Unpaired(a: seq<string>, b: seq<string>, hunks: seq<D.Hunk>, n: nat, j: nat)
    requires D.ValidHunks(a, b, hunks) && n < |hunks| && hunks[n].newStart <= j < hunks[n].newEnd
    ensures D.Counterpart(hunks, j) == None
  {
    D.HunkOrder(a, b, hunks, n);
    D.CounterpartFrom(a, b, hunks, n, j);
    hide D.ValidHunks;
  }

  /** `compute_line_changes`. */
  method ComputeLineChanges(differ: D.Differ, before: string, after: string) returns (changes: seq<LineChange>)
    requires D.HonestDiffer(differ)
    ensures NewSide(changes) == Lines(after) && Concat(NewSide(changes)) == after
    ensures MatchesOld(OldSide(changes), Lines(before))
    ensures Tagged(differ(Lines(NormalizeLineEndings(before)), Lines(NormalizeLineEndings(after))), changes)
  {
    hide Lines, D.Counterpart, TaggedAt, NewSide, OldSide, MatchesOld, D.ValidHunks, D.HunkFits, NormalizeLine;
    hide NormalizeLines;
    var olds := SplitLinesWithTerminators(before);
    var news := SplitLinesWithTerminators(after);
    var oldNorm := NormalizeLineEndings(before);
    var newNorm := NormalizeLineEndings(after);
    NormalizeCommutesWithSplit(before);
    NormalizeCommutesWithSplit(after);
    var normOlds := SplitLinesWithTerminators(oldNorm);
    var normNews := SplitLinesWithTerminators(newNorm);
    var hunks := differ(normOlds, normNews);
    assert D.ValidHunks(normOlds, normNews, hunks);

    changes := [];
    var oldIdx, newIdx := 0, 0;
    EmptyExplains(hunks, olds, news);
    for n := 0 to |hunks|
      invariant oldIdx == D.OldAt(hunks, n) && newIdx == D.NewAt(hunks, n)
      invariant Explains(hunks, changes, olds, oldIdx, news, newIdx)
    {
      var h := hunks[n];
      GapLength(normOlds, normNews, hunks, n);
      while oldIdx < h.oldStart && newIdx < h.newStart
        invariant D.OldAt(hunks, n) <= oldIdx <= h.oldStart
        invariant newIdx - D.NewAt(hunks, n) == oldIdx - D.OldAt(hunks, n)
        invariant Explains(hunks, changes, olds, oldIdx, news, newIdx)
      {
        GapLine(olds, news, hunks, n, oldIdx, newIdx);
        GapPair(normOlds, normNews, hunks, n, oldIdx, newIdx);
        if newIdx < |news| {
          PushEqual(hunks, changes, olds, oldIdx, news, newIdx);
          changes := changes + [LineChange(Equal, news[newIdx])];
        }
        oldIdx := oldIdx + 1;
        newIdx := newIdx + 1;
      }
      for i := h.oldStart to h.oldEnd
        invariant Explains(hunks, changes, olds, i, news, h.newStart)
      {
        if i < |olds| {
          forall j: nat ensures D.Counterpart(hunks, j) != Some(i) {
            D.NoPartner(normOlds, normNews, hunks, n, i, j, 0);
          }
          PushDelete(hunks, changes, olds, i, news, h.newStart);
          changes := changes + [LineChange(Delete, olds[i])];
        }
      }
      for j := h.newStart to h.newEnd
        invariant Explains(hunks, changes, olds, h.oldEnd, news, j)
      {
        if j < |news| {
          Unpaired(normOlds, normNews, hunks, n, j);
          PushInsert(hunks, changes, olds, h.oldEnd, news, j);
          changes := changes + [LineChange(Insert, news[j])];
        }
      }
      oldIdx := h.oldEnd;
      newIdx := h.newEnd;
    }
    GapLength(normOlds, normNews, hunks, |hunks|);
    ghost var oldRest := oldIdx;
    while newIdx < |news|
      invariant D.OldAt(hunks, |hunks|) <= oldRest
      invariant newIdx - D.NewAt(hunks, |hunks|) == oldRest - D.OldAt(hunks, |hunks|)
      invariant Explains(hunks, changes, olds, oldRest, news, newIdx)
    {
      GapLine(olds, news, hunks, |hunks|, oldRest, newIdx);
      GapPair(normOlds, normNews, hunks, |hunks|, oldRest, newIdx);
      PushEqual(hunks, changes, olds, oldRest, news, newIdx);
      changes := changes + [LineChange(Equal, news[newIdx])];
      newIdx := newIdx + 1;
      oldRest := oldRest + 1;
    }
    assert olds[..oldRest] == olds && news[..newIdx] == news;
    LinesAreLineList(after);
  }

  lemma {:induction false} EmptyExplains(hunks: seq<D.Hunk>, olds: seq<string>, news: seq<string>)
    ensures Explains(hunks, [], olds, 0, news, 0)
  {
  }

  // ----- What the tags say -----

  /** The change that stands for new line `j`. */
  lemma {:induction false} ChangeOfNewLine(cs: seq<LineChange>, j: nat) returns (k: nat)
    requires j < |NewSide(cs)|
    ensures k < |cs| && !cs[k].tag.Delete? && |NewSide(cs[..k])| == j && cs[k].value == NewSide(cs)[j]
  {
    var front := cs[..|cs| - 1];
    if j < |NewSide(front)| {
      k := ChangeOfNewLine(front, j);
      assert front[..k] == cs[..k];
    } else {
      k := |cs| - 1;
    }
  }

  /** The change that stands for old line `i`. */
  lemma {:induction false} ChangeOfOldLine(cs: seq<LineChange>, i: nat) returns (k: nat)
    requires i < |OldSide(cs)|
    ensures k < |cs| && !cs[k].tag.Insert? && |OldSide(cs[..k])| == i && cs[k] == OldSide(cs)[i]
  {
    var front := cs[..|cs| - 1];
    if i < |OldSide(front)| {
      k := ChangeOfOldLine(front, i);
      assert front[..k] == cs[..k];
    } else {
      k := |cs| - 1;
    }
  }

  /**
   * A new line is Equal exactly if the normalised diff pairs it with an old line, and then it stands at that line on
   * the old side; otherwise it is an Insert.
   */
  lemma {:induction false} NewLineTag(hunks: seq<D.Hunk>, cs: seq<LineChange>, j: nat) returns (k: nat)
    requires Tagged(hunks, cs) && j < |NewSide(cs)|
    ensures k < |cs| && |NewSide(cs[..k])| == j && cs[k].value == NewSide(cs)[j]
    ensures match D.Counterpart(hunks, j)
            case Some(i) => cs[k].tag == Equal && |OldSide(cs[..k])| == i
            case None => cs[k].tag == Insert
  {
    hide NewSide, OldSide, D.Counterpart;
    k := ChangeOfNewLine(cs, j);
    assert TaggedAt(hunks, cs, k);
  }

  /** An old line is Equal exactly if some new line is paired with it; otherwise it is a Delete. */
  lemma {:induction false} OldLineTag(hunks: seq<D.Hunk>, cs: seq<LineChange>, i: nat)
    requires Tagged(hunks, cs) && i < |OldSide(cs)|
    ensures OldSide(cs)[i].tag == if exists j: nat :: D.Counterpart(hunks, j) == Some(i) then Equal else Delete
  {
    hide NewSide, OldSide, D.Counterpart;
    var k := ChangeOfOldLine(cs, i);
    assert TaggedAt(hunks, cs, k);
    assert TagFits(hunks, cs[k].tag, i, |NewSide(cs[..k])|);
    if cs[k].tag.Equal? {
      assert D.Counterpart(hunks, |NewSide(cs[..k])|) == Some(i);
    }
  }

  /** Texts between whose normalised lines the library sees no difference have no changes. */
  lemma {:induction false} NoHunksAllEqual(cs: seq<LineChange>)
    requires Tagged([], cs)
    ensures forall c | c in cs :: c.tag == Equal
  {
    forall k | 0 <= k < |cs| ensures cs[k].tag == Equal {
      assert TaggedAt([], cs, k);
      var i, j := |OldSide(cs[..k])|, |NewSide(cs[..k])|;
      assert D.Counterpart([], i) == Some(i) && D.Counterpart([], j) == Some(j);
      hide OldSide, NewSide;
    }
  }
}
