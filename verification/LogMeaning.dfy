/** What the parser of the authorship log makes of any text, line by line. */
module LogMeaning {
  import opened Prelude
  import opened LogText
  import opened LineRanges
  import opened AuthorshipLog

  // ----- Ranges -----

  ghost predicate IsNumeral(s: string, n: nat) {
    n <= 4294967295 && exists plus: bool, zeros: nat :: s == Numeral(n, plus, zeros)
  }

  lemma {:induction false} NumeralLacks(s: string, n: nat, c: char)
    requires IsNumeral(s, n) && c != '+' && !IsDigit(c)
    ensures c !in s
  {
    var plus: bool, zeros: nat :| s == Numeral(n, plus, zeros);
    PrintedLacks(n, c);
    assert c !in Zeros(zeros);
  }

  /** A part is a number, or two numbers with a dash between them. */
  ghost predicate IsPart(part: string, r: LineRange) {
    match r
    case Single(l) => IsNumeral(part, l)
    case Range(start, end) => exists x, y :: part == x + "-" + y && IsNumeral(x, start) && IsNumeral(y, end)
  }

  lemma {:induction false} ParseRangeIff(part: string, r: LineRange)
    ensures ParseRange(part) == Ok(r) <==> IsPart(part, r)
  {
    match r
    case Single(l) => SingleIff(part, l);
    case Range(start, end) => PairIff(part, start, end);
  }

  lemma {:induction false} SingleIff(part: string, l: u32)
    ensures ParseRange(part) == Ok(Single(l)) <==> IsNumeral(part, l)
  {
    ParseU32Iff(part, l);
    hide ParseU32, Numeral, Find;
    if IsNumeral(part, l) {
      NumeralLacks(part, l, '-');
    }
  }

  lemma {:induction false} PairIff(part: string, start: u32, end: u32)
    ensures ParseRange(part) == Ok(Range(start, end)) <==> IsPart(part, Range(start, end))
  {
    hide ParseU32, Numeral, Find;
    if ParseRange(part) == Ok(Range(start, end)) {
      var d := Find(part, '-').value;
      ParseU32Iff(part[..d], start);
      ParseU32Iff(part[d + 1..], end);
      assert part == part[..d] + "-" + part[d + 1..];
      assert IsNumeral(part[..d], start) && IsNumeral(part[d + 1..], end);
    }
    if IsPart(part, Range(start, end)) {
      var x, y :| part == x + "-" + y && IsNumeral(x, start) && IsNumeral(y, end);
      NumeralLacks(x, start, '-');
      FindBetween(x, '-', y);
      assert x + "-" + y == x + ['-'] + y;
      ParseU32Iff(x, start);
      ParseU32Iff(y, end);
    }
  }

  /** Some part is neither empty nor a range. */
  ghost predicate HasBadPart(parts: seq<string>) {
    exists k | 0 <= k < |parts| :: parts[k] != [] && forall r :: !IsPart(parts[k], r)
  }

  function NonEmpty(parts: seq<string>): seq<string> {
    if parts == [] then [] else
    NonEmpty(parts[..|parts| - 1]) + if parts[|parts| - 1] == [] then [] else [parts[|parts| - 1]]
  }

  ghost predicate ArePart(parts: seq<string>, rs: seq<LineRange>) {
    |parts| == |rs| && forall k | 0 <= k < |parts| :: IsPart(parts[k], rs[k])
  }

  /** A list of ranges is read unless one part is bad; empty parts are skipped. */
  lemma {:induction false} RangesMeaning(parts: seq<string>)
    ensures RangesOf(parts).Err? <==> HasBadPart(parts)
    ensures RangesOf(parts).Err? ==> RangesOf(parts).error == InvalidNumber
    ensures RangesOf(parts).Ok? ==> ArePart(NonEmpty(parts), RangesOf(parts).value)
  {
    hide *;
    if parts == [] {
      NoRanges();
    } else {
      var front, last := parts[..|parts| - 1], parts[|parts| - 1];
      RangesMeaning(front);
      assert parts == front + [last];
      PartMeaning(last);
      BadPartSnoc(front, last);
      RangesOfSnoc(parts, |front|);
      assert parts[..|front| + 1] == parts && parts[..|front|] == front;
      if last == [] {
        NonEmptySnoc(front, last);
        assert NonEmpty(front) + [] == NonEmpty(front);
      } else if ParseRange(last).Ok? && RangesOf(front).Ok? {
        NonEmptySnoc(front, last);
        OnePartMore(NonEmpty(front), RangesOf(front).value, last, ParseRange(last).value);
      }
    }
  }

  lemma {:induction false} NoRanges()
    ensures RangesOf([]) == Ok([]) && !HasBadPart([]) && ArePart(NonEmpty([]), [])
  {
  }

  lemma {:induction false} PartMeaning(part: string)
    ensures ParseRange(part).Err? <==> forall r :: !IsPart(part, r)
    ensures ParseRange(part).Err? ==> ParseRange(part).error == InvalidNumber
    ensures ParseRange(part).Ok? ==> IsPart(part, ParseRange(part).value)
  {
    forall r ensures ParseRange(part) == Ok(r) <==> IsPart(part, r) {
      ParseRangeIff(part, r);
    }
    hide IsPart, ParseU32, Find;
  }

  lemma {:induction false} NonEmptySnoc(front: seq<string>, last: string)
    ensures NonEmpty(front + [last]) == NonEmpty(front) + if last == [] then [] else [last]
  {
    assert (front + [last])[..|front|] == front;
  }

  lemma {:induction false} OnePartMore(parts: seq<string>, rs: seq<LineRange>, part: string, r: LineRange)
    requires ArePart(parts, rs) && IsPart(part, r)
    ensures ArePart(parts + [part], rs + [r])
  {
    hide IsPart;
  }

  lemma {:induction false} BadPartSnoc(front: seq<string>, last: string)
    ensures HasBadPart(front + [last]) <==> HasBadPart(front) || (last != [] && forall r :: !IsPart(last, r))
  {
    hide IsPart;
    var all := front + [last];
    if HasBadPart(front) {
      var k :| 0 <= k < |front| && front[k] != [] && forall r :: !IsPart(front[k], r);
      assert all[k] == front[k];
    }
    assert all[|front|] == last;
  }

  // ----- Lines -----

  predicate IsPathLine(cc: CharClass, raw: string) {
    var t := TrimEnd(cc, raw);
    t != [] && !("  " <= t)
  }

  predicate IsEntryLine(cc: CharClass, raw: string) {
    "  " <= TrimEnd(cc, raw)
  }

  ghost predicate PathBefore(cc: CharClass, lines: seq<string>, k: nat)
    requires k <= |lines|
  {
    exists j | 0 <= j < k :: IsPathLine(cc, lines[j])
  }

  /** What follows the first space. */
  function AfterSpace(s: string): string
    requires ' ' in s
  {
    s[Find(s, ' ').value + 1..]
  }

  function BeforeSpace(s: string): string
    requires ' ' in s
  {
    s[..Find(s, ' ').value]
  }

  /** What is wrong with line `k`, given the lines before it. */
  ghost function FaultOf(cc: CharClass, lines: seq<string>, k: nat): Option<ParseError>
    requires k < |lines|
  {
    var t := TrimEnd(cc, lines[k]);
    if IsEntryLine(cc, lines[k]) then
      if ' ' !in t[2..] then Some(InvalidEntry)
      else if HasBadPart(Split(AfterSpace(t[2..]), ',')) then Some(InvalidNumber)
      else if !PathBefore(cc, lines, k) then Some(NoFile)
      else None
    else if t == "\"" then Some(LoneQuote)
    else None
  }

  ghost predicate AllFine(cc: CharClass, lines: seq<string>, n: nat)
    requires n <= |lines|
  {
    forall k | 0 <= k < n :: FaultOf(cc, lines, k) == None
  }

  function PathOf(t: string): string {
    if |t| >= 2 && t[0] == '"' && t[|t| - 1] == '"' then t[1..|t| - 1] else t
  }

  /** The path on the last path line. */
  function LastPath(cc: CharClass, lines: seq<string>): string {
    if lines == [] then []
    else if IsPathLine(cc, lines[|lines| - 1]) then PathOf(TrimEnd(cc, lines[|lines| - 1]))
    else LastPath(cc, lines[..|lines| - 1])
  }

  /** Entry `e` is what an entry line says. */
  ghost predicate SaysEntry(cc: CharClass, raw: string, e: Entry) {
    && IsEntryLine(cc, raw) && ' ' in TrimEnd(cc, raw)[2..]
    && e.hash == BeforeSpace(TrimEnd(cc, raw)[2..])
    && ArePart(NonEmpty(Split(AfterSpace(TrimEnd(cc, raw)[2..]), ',')), e.ranges)
  }

  /** The entries of the files one after the other, each with its path. */
  ghost function Pairs(files: seq<File>): seq<(string, Entry)> {
    if files == [] then [] else
    Pairs(files[..|files| - 1]) + PairsOf(files[|files| - 1].path, files[|files| - 1].entries)
  }

  ghost function PairsOf(path: string, es: seq<Entry>): seq<(string, Entry)> {
    if es == [] then [] else PairsOf(path, es[..|es| - 1]) + [(path, es[|es| - 1])]
  }

  /** The pairs are the entry lines in order, each with the path on the last path line before it. */
  ghost predicate Lists(cc: CharClass, lines: seq<string>, pairs: seq<(string, Entry)>)
    decreases lines
  {
    if lines == [] then pairs == []
    else
      var front, last := lines[..|lines| - 1], lines[|lines| - 1];
      if IsEntryLine(cc, last) then
        && pairs != []
        && pairs[|pairs| - 1].0 == LastPath(cc, front) && SaysEntry(cc, last, pairs[|pairs| - 1].1)
        && Lists(cc, front, pairs[..|pairs| - 1])
      else Lists(cc, front, pairs)
  }

  /** The parser's state after lines without a fault. */
  ghost predicate ReadSoFar(cc: CharClass, lines: seq<string>, st: Reading) {
    && (st.current.Some? <==> PathBefore(cc, lines, |lines|))
    && (st.current.Some? ==> st.current.value.path == LastPath(cc, lines))
    && Lists(cc, lines, Pairs(Flush(st)))
    && (forall f | f in Flush(st) :: f.entries != [])
  }

  lemma {:induction false} PairsSnoc(files: seq<File>, f: File)
    ensures Pairs(files + [f]) == Pairs(files) + PairsOf(f.path, f.entries)
  {
    assert (files + [f])[..|files|] == files;
  }

  lemma {:induction false} PathBeforeSnoc(cc: CharClass, front: seq<string>, raw: string)
    ensures PathBefore(cc, front + [raw], |front|) == PathBefore(cc, front, |front|)
    ensures PathBefore(cc, front + [raw], |front| + 1) <==> PathBefore(cc, front, |front|) || IsPathLine(cc, raw)
  {
    hide IsPathLine;
    var all := front + [raw];
    assert forall j | 0 <= j < |front| :: all[j] == front[j];
    assert all[|front|] == raw;
  }

  /** One line: it fails exactly with its fault. */
  lemma {:induction false} LineFault(cc: CharClass, front: seq<string>, raw: string, st: Reading)
    requires st.current.Some? <==> PathBefore(cc, front, |front|)
    ensures match FaultOf(cc, front + [raw], |front|)
            case Some(e) => ReadLine(cc, st, raw) == Err(e)
            case None => ReadLine(cc, st, raw).Ok?
  {
    PathBeforeSnoc(cc, front, raw);
    assert (front + [raw])[|front|] == raw;
    var t := TrimEnd(cc, raw);
    assert "  " <= t <==> Indented(t);
    hide PathBefore, TrimEnd;
    if Indented(t) {
      if ' ' in t[2..] {
        RangesMeaning(Split(AfterSpace(t[2..]), ','));
      }
      hide HasBadPart, RangesOf, Split;
    } else if t != [] {
      hide HasBadPart, RangesOf, Split;
      assert t == "\"" <==> |t| == 1 && t[0] == '"';
    }
  }

  lemma {:induction false} BlankStep(cc: CharClass, front: seq<string>, raw: string, st: Reading)
    requires ReadSoFar(cc, front, st) && TrimEnd(cc, raw) == []
    ensures ReadSoFar(cc, front + [raw], st)
  {
    PathBeforeSnoc(cc, front, raw);
    assert (front + [raw])[..|front|] == front;
    hide PathBefore;
  }

  lemma {:induction false} PathStep(cc: CharClass, front: seq<string>, raw: string, st: Reading)
    requires ReadSoFar(cc, front, st) && IsPathLine(cc, raw) && TrimEnd(cc, raw) != "\""
    ensures ReadSoFar(cc, front + [raw], Reading(Flush(st), Some(File(PathOf(TrimEnd(cc, raw)), []))))
  {
    PathBeforeSnoc(cc, front, raw);
    assert (front + [raw])[..|front|] == front;
    hide PathBefore, TrimEnd, PathOf;
  }

  lemma {:induction false} EntryStep(cc: CharClass, front: seq<string>, raw: string, st: Reading, e: Entry)
    requires ReadSoFar(cc, front, st) && st.current.Some? && SaysEntry(cc, raw, e)
    ensures var f := st.current.value;
            ReadSoFar(cc, front + [raw], st.(current := Some(f.(entries := f.entries + [e]))))
  {
    var f := st.current.value;
    var f' := f.(entries := f.entries + [e]);
    PathBeforeSnoc(cc, front, raw);
    OnePairMore(st, f, e);
    ListsMore(cc, front, raw, Pairs(Flush(st)), (f.path, e));
    assert Flush(st.(current := Some(f'))) == st.done + [f'];
    assert forall x | x in st.done :: x in Flush(st);
    NoPathHere(cc, front, raw);
    hide PathBefore, SaysEntry, Pairs, PairsOf, Lists, LastPath, IsPathLine;
  }

  lemma {:induction false} NoPathHere(cc: CharClass, front: seq<string>, raw: string)
    requires IsEntryLine(cc, raw)
    ensures !IsPathLine(cc, raw) && LastPath(cc, front + [raw]) == LastPath(cc, front)
  {
    assert (front + [raw])[..|front|] == front;
    hide TrimEnd;
  }

  lemma {:induction false} OnePairMore(st: Reading, f: File, e: Entry)
    requires st.current == Some(f)
    ensures Pairs(st.done + [f.(entries := f.entries + [e])]) == Pairs(Flush(st)) + [(f.path, e)]
  {
    var f' := f.(entries := f.entries + [e]);
    PairsSnoc(st.done, f);
    PairsSnoc(st.done, f');
    assert f'.entries[..|f'.entries| - 1] == f.entries;
    assert PairsOf(f.path, []) == [];
    hide Pairs;
  }

  lemma {:induction false} ListsMore(cc: CharClass, front: seq<string>, raw: string, pairs: seq<(string, Entry)>,
                                     p: (string, Entry))
    requires Lists(cc, front, pairs) && SaysEntry(cc, raw, p.1) && p.0 == LastPath(cc, front)
    ensures Lists(cc, front + [raw], pairs + [p])
  {
    assert (front + [raw])[..|front|] == front && (pairs + [p])[..|pairs|] == pairs;
    assert IsEntryLine(cc, raw);
    hide SaysEntry, LastPath, IsEntryLine;
  }

  lemma {:induction false} LineStep(cc: CharClass, front: seq<string>, raw: string, st: Reading)
    requires ReadSoFar(cc, front, st) && ReadLine(cc, st, raw).Ok?
    ensures ReadSoFar(cc, front + [raw], ReadLine(cc, st, raw).value)
  {
    var t := TrimEnd(cc, raw);
    hide ReadSoFar, TrimEnd;
    if t == [] {
      BlankStep(cc, front, raw, st);
    } else if Indented(t) {
      var e := EntryRead(cc, st, raw);
      EntryStep(cc, front, raw, st, e);
    } else {
      PathStep(cc, front, raw, st);
    }
  }

  lemma {:induction false} EntryRead(cc: CharClass, st: Reading, raw: string) returns (e: Entry)
    requires ReadLine(cc, st, raw).Ok? && Indented(TrimEnd(cc, raw))
    ensures SaysEntry(cc, raw, e) && st.current.Some?
    ensures ReadLine(cc, st, raw).value
         == st.(current := Some(st.current.value.(entries := st.current.value.entries + [e])))
  {
    hide *;
    EntryOk(cc, st, raw);
    var entry := TrimEnd(cc, raw)[2..];
    e := Entry(BeforeSpace(entry), RangesOf(Split(AfterSpace(entry), ',')).value);
    RangesMeaning(Split(AfterSpace(entry), ','));
    SaysIntro(cc, raw, e);
  }

  lemma {:induction false} EntryOk(cc: CharClass, st: Reading, raw: string)
    requires ReadLine(cc, st, raw).Ok? && Indented(TrimEnd(cc, raw))
    ensures |TrimEnd(cc, raw)| >= 2 && IsEntryLine(cc, raw) && st.current.Some?
    ensures var entry := TrimEnd(cc, raw)[2..];
            && ' ' in entry
            && var ranges := RangesOf(Split(AfterSpace(entry), ','));
               && ranges.Ok?
               && var f := st.current.value;
                  ReadLine(cc, st, raw).value
                  == st.(current := Some(f.(entries := f.entries + [Entry(BeforeSpace(entry), ranges.value)])))
  {
    hide RangesOf, Split, TrimEnd, Find;
  }

  lemma {:induction false} SaysIntro(cc: CharClass, raw: string, e: Entry)
    requires IsEntryLine(cc, raw) && |TrimEnd(cc, raw)| >= 2 && ' ' in TrimEnd(cc, raw)[2..]
    requires e.hash == BeforeSpace(TrimEnd(cc, raw)[2..])
    requires ArePart(NonEmpty(Split(AfterSpace(TrimEnd(cc, raw)[2..]), ',')), e.ranges)
    ensures SaysEntry(cc, raw, e)
  {
    hide ArePart, NonEmpty, Split, BeforeSpace, AfterSpace, TrimEnd;
  }

  /** The first fault is the error; without one the files list all entries. */
  lemma {:induction false} ReadMeaning(cc: CharClass, lines: seq<string>, n: nat)
    requires n <= |lines|
    ensures var r := ReadLines(cc, Reading([], None), lines[..n]);
            && (r.Ok? <==> AllFine(cc, lines, n))
            && (r.Ok? ==> ReadSoFar(cc, lines[..n], r.value))
            && forall k: nat | k < n && FaultOf(cc, lines, k).Some? && AllFine(cc, lines, k) ::
                 r == Err(FaultOf(cc, lines, k).value)
  {
    if n == 0 {
      assert lines[..0] == [];
    } else {
      hide *;
      ReadMeaning(cc, lines, n - 1);
      ReadSnoc(cc, Reading([], None), lines, n - 1);
      ReadStep(cc, lines, n - 1);
    }
  }

  lemma {:induction false} ReadStep(cc: CharClass, lines: seq<string>, n: nat)
    requires n < |lines|
    requires var r := ReadLines(cc, Reading([], None), lines[..n]);
             && (r.Ok? <==> AllFine(cc, lines, n))
             && (r.Ok? ==> ReadSoFar(cc, lines[..n], r.value))
             && forall k: nat | k < n && FaultOf(cc, lines, k).Some? && AllFine(cc, lines, k) ::
                  r == Err(FaultOf(cc, lines, k).value)
    requires var before := ReadLines(cc, Reading([], None), lines[..n]);
             ReadLines(cc, Reading([], None), lines[..n + 1])
             == if before.Err? then before else ReadLine(cc, before.value, lines[n])
    ensures var r := ReadLines(cc, Reading([], None), lines[..n + 1]);
            && (r.Ok? <==> AllFine(cc, lines, n + 1))
            && (r.Ok? ==> ReadSoFar(cc, lines[..n + 1], r.value))
            && forall k: nat | k < n + 1 && FaultOf(cc, lines, k).Some? && AllFine(cc, lines, k) ::
                 r == Err(FaultOf(cc, lines, k).value)
  {
    var before := ReadLines(cc, Reading([], None), lines[..n]);
    assert AllFine(cc, lines, n + 1) <==> AllFine(cc, lines, n) && FaultOf(cc, lines, n) == None;
    if before.Ok? {
      assert before.value.current.Some? <==> PathBefore(cc, lines[..n], n);
      LineFault(cc, lines[..n], lines[n], before.value);
      SameFault(cc, lines, n);
      assert lines[..n + 1] == lines[..n] + [lines[n]];
      hide *;
      if ReadLine(cc, before.value, lines[n]).Ok? {
        LineStep(cc, lines[..n], lines[n], before.value);
      }
    }
  }

  lemma {:induction false} SameFault(cc: CharClass, lines: seq<string>, n: nat)
    requires n < |lines|
    ensures FaultOf(cc, lines[..n] + [lines[n]], n) == FaultOf(cc, lines, n)
  {
    var front := lines[..n] + [lines[n]];
    assert front[n] == lines[n] && forall j | 0 <= j < n :: front[j] == lines[j];
    hide IsEntryLine, HasBadPart, IsPathLine, TrimEnd;
    assert PathBefore(cc, front, n) <==> PathBefore(cc, lines, n);
  }

  /**
   * The meaning of a text: without a divider it is refused; a fault before the first divider is the error, the first
   * one if there are several; and otherwise the files list the entry lines in order, each under the path on the last
   * path line before it, with no file empty, and what follows the divider is left as it is, up to line ends.
   */
  lemma {:induction false} ParseMeaning(cc: CharClass, content: string)
    ensures var lines := Lines(content);
            match DividerPos(lines)
            case None => ParseLog(cc, content) == Err(MissingDivider)
            case Some(d) =>
              && (forall k: nat | k < d && FaultOf(cc, lines[..d], k).Some? && AllFine(cc, lines[..d], k) ::
                    ParseLog(cc, content) == Err(FaultOf(cc, lines[..d], k).value))
              && (AllFine(cc, lines[..d], d) ==>
                    && ParseLog(cc, content).Ok? && ParseLog(cc, content).value.json == Join(lines[d + 1..], '\n')
                    && Lists(cc, lines[..d], Pairs(ParseLog(cc, content).value.files))
                    && forall f | f in ParseLog(cc, content).value.files :: f.entries != [])
  {
    var lines := Lines(content);
    if DividerPos(lines).Some? {
      var d := DividerPos(lines).value;
      var body := lines[..d];
      ReadMeaning(cc, body, d);
      assert body[..d] == body;
      hide Lines, FaultOf, AllFine, Lists, Pairs, Join, DividerPos, ReadLines;
    }
  }

  // ----- What is printed -----

  lemma {:induction false} PrintsDecimal()
    ensures PrintNumber(7) == "7" && PrintNumber(90) == "90" && PrintNumber(305) == "305"
  {
    assert PrintNumber(30) == "30";
  }

  /** A printed log, character by character. */
  lemma {:induction false} PrintedExample()
    ensures PrintLog([File("a b.rs", [Entry("h1", [Range(90, 305), Single(7)])])], "{}")
         == "\"a b.rs\"" + "\n" + ("  h1 7,90-305" + "\n") + ("---" + "\n") + "{}"
  {
    hide PrintLog, FormatLineRanges, PathLine, EntryLine, FileLines, LogLines, Unlines;
    QuotedPath();
    FirstEntry();
    PrintedOne(File("a b.rs", [Entry("h1", [Range(90, 305), Single(7)])]), Entry("h1", [Range(90, 305), Single(7)]),
               "{}");
  }

  lemma {:induction false} QuotedPath()
    ensures PathLine("a b.rs") == "\"a b.rs\""
  {
    assert "a b.rs"[1] == ' ';
  }

  lemma {:induction false} FirstEntry()
    ensures EntryLine(Entry("h1", [Range(90, 305), Single(7)])) == "  h1 7,90-305"
  {
    PrintedRanges();
    hide FormatLineRanges;
  }

  lemma {:induction false} PrintedOne(f: File, e: Entry, json: string)
    requires f.entries == [e]
    ensures PrintLog([f], json) == PathLine(f.path) + "\n" + (EntryLine(e) + "\n") + ("---" + "\n") + json
  {
    hide *;
    OneFileLines(f, e);
    ThreeLines(PathLine(f.path), EntryLine(e), "---");
    PrintIs(f, json);
  }

  lemma {:induction false} PrintIs(f: File, json: string)
    ensures PrintLog([f], json) == Unlines(LogLines([f]) + ["---"]) + json
  {
  }

  lemma {:induction false} PrintedRanges()
    ensures FormatLineRanges([Range(90, 305), Single(7)]) == "7,90-305"
  {
    PrintsDecimal();
    hide PrintNumber;
    var sorted := SortedRanges([Range(90, 305), Single(7)]);
    assert sorted == [Single(7), Range(90, 305)] by {
      SortedPair();
    }
    PrintedPair();
  }

  lemma {:induction false} SortedPair()
    ensures SortedRanges([Range(90, 305), Single(7)]) == [Single(7), Range(90, 305)]
  {
    var rs := [Range(90, 305), Single(7)];
    assert rs[1..] == [Single(7)] && [Single(7)][1..] == [];
  }

  lemma {:induction false} PrintedPair()
    ensures Join(PrintRanges([Single(7), Range(90, 305)]), ',') == "7,90-305"
  {
    PrintsDecimal();
    hide PrintNumber;
    var rs := [Single(7), Range(90, 305)];
    assert rs[1..] == [Range(90, 305)] && [Range(90, 305)][1..] == [];
    assert PrintRange(Single(7)) == "7" && PrintRange(Range(90, 305)) == "90-305";
    assert PrintRanges(rs[1..]) == ["90-305"];
    assert PrintRanges(rs) == ["7"] + ["90-305"];
    assert PrintRanges(rs)[1..] == ["90-305"];
    assert Join(["90-305"], ',') == "90-305";
  }

  lemma {:induction false} OneFileLines(f: File, e: Entry)
    requires f.entries == [e]
    ensures LogLines([f]) == [PathLine(f.path), EntryLine(e)]
  {
    hide PathLine, EntryLine;
    assert [f][..0] == [] && [e][..0] == [];
    assert EntryLines([]) == [] && LogLines([]) == [];
    assert EntryLines([e]) == [EntryLine(e)];
    assert FileLines(f) == [PathLine(f.path), EntryLine(e)];
  }

  lemma {:induction false} ThreeLines(a: string, b: string, c: string)
    ensures Unlines([a, b] + [c]) == a + "\n" + (b + "\n") + (c + "\n")
  {
    UnlinesSnoc([], a);
    UnlinesSnoc([a], b);
    UnlinesSnoc([a, b], c);
    assert [] + [a] == [a] && [a] + [b] == [a, b];
    assert Unlines([]) == [];
    hide Unlines;
  }
}
