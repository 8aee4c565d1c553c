/** The text form of the authorship log: printer, parser and their round trip. */
module AuthorshipLog {
  // The JSON metadata is an opaque text; entries and files are values, as the parser only ever owns one of each.
  import opened Prelude
  import opened LogText
  import opened LineRanges
  import Sorting

  datatype Entry = Entry(hash: string, ranges: seq<LineRange>)

  datatype File = File(path: string, entries: seq<Entry>)

  /** The parser's errors; `LoneQuote` is the slice of a one-character line `"` that panics. */
  datatype ParseError = MissingDivider | NoFile | InvalidEntry | InvalidNumber | LoneQuote

  const DIVIDER := "---"

  // ----- Line ranges -----

  predicate ByFirst(a: LineRange, b: LineRange) {
    First(a) <= First(b)
  }

  lemma {:induction false} ByFirstIsPreorder()
    ensures Sorting.TotalPreorder(ByFirst)
  {
  }

  function PrintRange(r: LineRange): string {
    match r
    case Single(l) => PrintNumber(l)
    case Range(start, end) => PrintNumber(start) + "-" + PrintNumber(end)
  }

  function PrintRanges(rs: seq<LineRange>): seq<string> {
    if rs == [] then [] else [PrintRange(rs[0])] + PrintRanges(rs[1..])
  }

  function SortedRanges(rs: seq<LineRange>): seq<LineRange> {
    Sorting.Sort(rs, ByFirst)
  }

  /** `format_line_ranges`. */
  function FormatLineRanges(rs: seq<LineRange>): string {
    Join(PrintRanges(SortedRanges(rs)), ',')
  }

  function ParseRange(part: string): Result<LineRange, ParseError> {
    match Find(part, '-')
    case Some(dash) =>
      var start := ParseU32(part[..dash]);
      if start.None? then Err(InvalidNumber) else
      var end := ParseU32(part[dash + 1..]);
      if end.None? then Err(InvalidNumber) else Ok(Range(start.value, end.value))
    case None =>
      var line := ParseU32(part);
      if line.None? then Err(InvalidNumber) else Ok(Single(line.value))
  }

  /** The ranges of the parts; empty parts are skipped. */
  ghost function RangesOf(parts: seq<string>): Result<seq<LineRange>, ParseError> {
    if parts == [] then Ok([])
    else
      var before := RangesOf(parts[..|parts| - 1]);
      var part := parts[|parts| - 1];
      if before.Err? || part == [] then before
      else
        var r := ParseRange(part);
        if r.Err? then Err(r.error) else Ok(before.value + [r.value])
  }

  lemma {:induction false} RangesOfSnoc(parts: seq<string>, i: nat)
    requires i < |parts|
    ensures var before := RangesOf(parts[..i]);
            RangesOf(parts[..i + 1]) == if before.Err? || parts[i] == [] then before
                                        else if ParseRange(parts[i]).Err? then Err(ParseRange(parts[i]).error)
                                        else Ok(before.value + [ParseRange(parts[i]).value])
  {
    assert parts[..i + 1][..i] == parts[..i];
  }

  lemma {:induction false} RangesOfFails(parts: seq<string>, i: nat)
    requires i <= |parts| && RangesOf(parts[..i]).Err?
    ensures RangesOf(parts) == RangesOf(parts[..i])
    decreases |parts| - i
  {
    if i == |parts| {
      assert parts[..i] == parts;
    } else {
      RangesOfSnoc(parts, i);
      RangesOfFails(parts, i + 1);
    }
  }

  /** `parse_line_ranges`. */
  method ParseLineRanges(input: string) returns (r: Result<seq<LineRange>, ParseError>)
    ensures r == RangesOf(Split(input, ','))
  {
    var parts := Split(input, ',');
    var ranges: seq<LineRange> := [];
    var i: nat := 0;
    while i < |parts|
      invariant i <= |parts| && RangesOf(parts[..i]) == Ok(ranges)
    {
      RangesOfSnoc(parts, i);
      if parts[i] != [] {
        var range := ParseRange(parts[i]);
        if range.Err? {
          RangesOfFails(parts, i + 1);
          return Err(range.error);
        }
        ranges := ranges + [range.value];
      }
      i := i + 1;
    }
    assert parts[..i] == parts;
    return Ok(ranges);
  }

  predicate EndsInDigit(s: string) {
    s != [] && IsDigit(s[|s| - 1])
  }

  lemma {:induction false} PrintedEnd(n: nat)
    ensures EndsInDigit(PrintNumber(n))
  {
  }

  lemma {:induction false} ParsePrintedPair(start: u32, end: u32)
    ensures ParseRange(PrintRange(Range(start, end))) == Ok(Range(start, end))
    ensures ',' !in PrintRange(Range(start, end)) && '\n' !in PrintRange(Range(start, end))
    ensures EndsInDigit(PrintRange(Range(start, end)))
  {
    ParsePrinted(start);
    ParsePrinted(end);
    PrintedLacks(start, '-');
    PrintedLacks(start, ',');
    PrintedLacks(end, ',');
    PrintedLacks(start, '\n');
    PrintedLacks(end, '\n');
    PrintedEnd(end);
    hide PrintNumber, ParseU32, Find;
    var a, b := PrintNumber(start), PrintNumber(end);
    FindBetween(a, '-', b);
    var s := a + "-" + b;
    assert s[|s| - 1] == b[|b| - 1];
  }

  /** A printed range is not empty and reads back. */
  lemma {:induction false} ParsePrintedRange(r: LineRange)
    ensures ParseRange(PrintRange(r)) == Ok(r)
    ensures ',' !in PrintRange(r) && '\n' !in PrintRange(r) && EndsInDigit(PrintRange(r))
  {
    match r {
      case Single(l) =>
        ParsePrinted(l);
        PrintedLacks(l, '-');
        PrintedLacks(l, ',');
        PrintedLacks(l, '\n');
        PrintedEnd(l);
      case Range(start, end) => ParsePrintedPair(start, end);
    }
  }

  lemma {:induction false} RangesOfPrinted(rs: seq<LineRange>, i: nat)
    requires i <= |rs|
    ensures |PrintRanges(rs)| == |rs|
    ensures RangesOf(PrintRanges(rs)[..i]) == Ok(rs[..i])
  {
    PrintRangesAt(rs);
    hide PrintRanges, RangesOf;
    if i == 0 {
      NoParts(PrintRanges(rs));
    } else {
      RangesOfPrinted(rs, i - 1);
      RangesOfSnoc(PrintRanges(rs), i - 1);
      ParsePrintedRange(rs[i - 1]);
      hide *;
      assert rs[..i] == rs[..i - 1] + [rs[i - 1]];
    }
  }

  lemma {:induction false} NoParts(parts: seq<string>)
    ensures RangesOf(parts[..0]) == Ok([])
  {
  }

  lemma {:induction false} PrintRangesAt(rs: seq<LineRange>)
    ensures |PrintRanges(rs)| == |rs|
    ensures forall k | 0 <= k < |rs| :: PrintRanges(rs)[k] == PrintRange(rs[k])
  {
    if rs != [] {
      PrintRangesAt(rs[1..]);
    }
  }

  /** Reading formatted ranges gives the ranges, stably sorted by their first line. */
  lemma {:induction false} ParseFormatted(rs: seq<LineRange>)
    requires rs != []
    ensures RangesOf(Split(FormatLineRanges(rs), ',')) == Ok(SortedRanges(rs))
  {
    var sorted := SortedRanges(rs);
    var parts := PrintRanges(sorted);
    PrintRangesAt(sorted);
    forall k | 0 <= k < |parts| ensures ',' !in parts[k] {
      ParsePrintedRange(sorted[k]);
    }
    SplitJoin(parts, ',');
    RangesOfPrinted(sorted, |sorted|);
    assert parts[..|sorted|] == parts && sorted[..|sorted|] == sorted;
  }

  // ----- Printing -----

  /** `needs_quoting`. */
  predicate NeedsQuoting(path: string) {
    ' ' in path || '\t' in path || '\n' in path
  }

  function PathLine(path: string): string {
    if NeedsQuoting(path) then "\"" + path + "\"" else path
  }

  function EntryLine(e: Entry): string {
    "  " + e.hash + " " + FormatLineRanges(e.ranges)
  }

  ghost function EntryLines(es: seq<Entry>): seq<string> {
    if es == [] then [] else EntryLines(es[..|es| - 1]) + [EntryLine(es[|es| - 1])]
  }

  ghost function FileLines(f: File): seq<string> {
    [PathLine(f.path)] + EntryLines(f.entries)
  }

  ghost function LogLines(files: seq<File>): seq<string> {
    if files == [] then [] else LogLines(files[..|files| - 1]) + FileLines(files[|files| - 1])
  }

  /** The whole text: one line each, the divider, the metadata. */
  ghost function PrintLog(files: seq<File>, json: string): string {
    Unlines(LogLines(files) + [DIVIDER]) + json
  }

  lemma {:induction false} EntryLinesSnoc(es: seq<Entry>, i: nat)
    requires i < |es|
    ensures EntryLines(es[..i + 1]) == EntryLines(es[..i]) + [EntryLine(es[i])]
  {
    assert es[..i + 1][..i] == es[..i];
  }

  /** One more entry line in the output. */
  lemma {:induction false} PrintMore(output: string, path: string, es: seq<Entry>, i: nat)
    requires i < |es|
    ensures output + Unlines([path] + EntryLines(es[..i])) + EntryLine(es[i]) + ['\n']
         == output + Unlines([path] + EntryLines(es[..i + 1]))
  {
    hide *;
    EntryLinesSnoc(es, i);
    UnlinesSnoc([path] + EntryLines(es[..i]), EntryLine(es[i]));
    assert [path] + EntryLines(es[..i + 1]) == ([path] + EntryLines(es[..i])) + [EntryLine(es[i])];
  }

  lemma {:induction false} PrintPath(output: string, f: File)
    ensures output + PathLine(f.path) + ['\n'] == output + Unlines([PathLine(f.path)] + EntryLines(f.entries[..0]))
  {
    UnlinesSnoc([], PathLine(f.path));
    assert [] + [PathLine(f.path)] == [PathLine(f.path)];
    assert [PathLine(f.path)] + EntryLines(f.entries[..0]) == [PathLine(f.path)];
  }

  /** The lines of one file. */
  method PrintFile(output: string, f: File) returns (r: string)
    ensures r == output + Unlines(FileLines(f))
  {
    hide EntryLines, Unlines, FormatLineRanges, NeedsQuoting;
    var filePath := if NeedsQuoting(f.path) then "\"" + f.path + "\"" else f.path;
    r := output + filePath + ['\n'];
    PrintPath(output, f);
    var i: nat := 0;
    while i < |f.entries|
      invariant i <= |f.entries| && r == output + Unlines([PathLine(f.path)] + EntryLines(f.entries[..i]))
    {
      PrintMore(output, PathLine(f.path), f.entries, i);
      var line := "  " + f.entries[i].hash + " " + FormatLineRanges(f.entries[i].ranges);
      r := r + line + ['\n'];
      i := i + 1;
    }
    assert f.entries[..i] == f.entries;
  }

  /** `serialize_to_string`, given the metadata text. */
  method SerializeToString(files: seq<File>, json: string) returns (output: string)
    ensures output == PrintLog(files, json)
  {
    hide FileLines;
    output := "";
    var i: nat := 0;
    while i < |files|
      invariant i <= |files| && output == Unlines(LogLines(files[..i]))
    {
      assert files[..i + 1][..i] == files[..i];
      UnlinesConcat(LogLines(files[..i]), FileLines(files[i]));
      output := PrintFile(output, files[i]);
      i := i + 1;
    }
    assert files[..i] == files;
    UnlinesSnoc(LogLines(files), DIVIDER);
    output := output + "---\n";
    output := output + json;
  }

  // ----- Parsing -----

  /** The finished files and the one whose entries are being read. */
  datatype Reading = Reading(done: seq<File>, current: Option<File>)

  /** A file without entries is dropped. */
  function Flush(st: Reading): seq<File> {
    if st.current.Some? && st.current.value.entries != [] then st.done + [st.current.value] else st.done
  }

  function ReadPath(line: string): Result<string, ParseError>
    requires line != []
  {
    if line[0] == '"' && line[|line| - 1] == '"' then
      if |line| == 1 then Err(LoneQuote) else Ok(line[1..|line| - 1])
    else Ok(line)
  }

  predicate Indented(line: string) {
    |line| >= 2 && line[0] == ' ' && line[1] == ' '
  }

  ghost function ReadEntry(st: Reading, entryLine: string): Result<Reading, ParseError> {
    match Find(entryLine, ' ')
    case None => Err(InvalidEntry)
    case Some(space) =>
      var ranges := RangesOf(Split(entryLine[space + 1..], ','));
      if ranges.Err? then Err(ranges.error)
      else if st.current.None? then Err(NoFile)
      else
        var file := st.current.value;
        Ok(st.(current := Some(file.(entries := file.entries + [Entry(entryLine[..space], ranges.value)]))))
  }

  /** The effect of one line. */
  ghost function ReadLine(cc: CharClass, st: Reading, raw: string): Result<Reading, ParseError> {
    var line := TrimEnd(cc, raw);
    if line == [] then Ok(st)
    else if Indented(line) then ReadEntry(st, line[2..])
    else
      var path := ReadPath(line);
      if path.Err? then Err(path.error) else Ok(Reading(Flush(st), Some(File(path.value, []))))
  }

  ghost function ReadLines(cc: CharClass, st: Reading, lines: seq<string>): Result<Reading, ParseError> {
    if lines == [] then Ok(st)
    else
      var before := ReadLines(cc, st, lines[..|lines| - 1]);
      if before.Err? then before else ReadLine(cc, before.value, lines[|lines| - 1])
  }

  lemma {:induction false} ReadSnoc(cc: CharClass, st: Reading, lines: seq<string>, i: nat)
    requires i < |lines|
    ensures var before := ReadLines(cc, st, lines[..i]);
            ReadLines(cc, st, lines[..i + 1]) == if before.Err? then before else ReadLine(cc, before.value, lines[i])
  {
    assert lines[..i + 1][..i] == lines[..i];
  }

  lemma {:induction false} ReadFails(cc: CharClass, st: Reading, lines: seq<string>, i: nat)
    requires i <= |lines| && ReadLines(cc, st, lines[..i]).Err?
    ensures ReadLines(cc, st, lines) == ReadLines(cc, st, lines[..i])
    decreases |lines| - i
  {
    if i == |lines| {
      assert lines[..i] == lines;
    } else {
      ReadSnoc(cc, st, lines, i);
      ReadFails(cc, st, lines, i + 1);
    }
  }

  lemma {:induction false} ReadConcat(cc: CharClass, st: Reading, a: seq<string>, b: seq<string>)
    ensures var mid := ReadLines(cc, st, a);
            ReadLines(cc, st, a + b) == if mid.Err? then mid else ReadLines(cc, mid.value, b)
  {
    if b == [] {
      assert a + b == a;
    } else {
      var init := b[..|b| - 1];
      ReadConcat(cc, st, a, init);
      assert (a + b)[..|a + b| - 1] == a + init;
    }
  }

  /** The entry branch of the loop. */
  method TakeEntry(current: Option<File>, entryLine: string,
                   ghost done: seq<File>) returns (r: Result<File, ParseError>)
    ensures ReadEntry(Reading(done, current), entryLine)
         == if r.Ok? then Ok(Reading(done, Some(r.value))) else Err(r.error)
  {
    hide RangesOf, Split;
    var space := Find(entryLine, ' ');
    if space.None? {
      return Err(InvalidEntry);
    }
    var hash := entryLine[..space.value];
    var ranges := ParseLineRanges(entryLine[space.value + 1..]);
    if ranges.Err? {
      return Err(ranges.error);
    }
    if current.None? {
      return Err(NoFile);
    }
    return Ok(current.value.(entries := current.value.entries + [Entry(hash, ranges.value)]));
  }

  /** `parse_attestation_section`. */
  method ParseAttestationSection(cc: CharClass, lines: seq<string>) returns (r: Result<seq<File>, ParseError>)
    ensures var end := ReadLines(cc, Reading([], None), lines);
            r == if end.Err? then Err(end.error) else Ok(Flush(end.value))
  {
    hide ReadEntry, ReadLines;
    var attestations: seq<File> := [];
    var currentFile: Option<File> := None;
    var i: nat := 0;
    ReadNothing(cc, Reading([], None), lines);
    while i < |lines|
      invariant i <= |lines|
      invariant ReadLines(cc, Reading([], None), lines[..i]) == Ok(Reading(attestations, currentFile))
    {
      ReadSnoc(cc, Reading([], None), lines, i);
      var line := TrimEnd(cc, lines[i]);
      i := i + 1;
      if line == [] {
        continue;
      }
      if Indented(line) {
        var file := TakeEntry(currentFile, line[2..], attestations);
        if file.Err? {
          ReadFails(cc, Reading([], None), lines, i);
          return Err(file.error);
        }
        currentFile := Some(file.value);
      } else {
        if currentFile.Some? && currentFile.value.entries != [] {
          attestations := attestations + [currentFile.value];
        }
        var path := ReadPath(line);
        if path.Err? {
          ReadFails(cc, Reading([], None), lines, i);
          return Err(path.error);
        }
        currentFile := Some(File(path.value, []));
      }
    }
    assert lines[..i] == lines;
    if currentFile.Some? && currentFile.value.entries != [] {
      attestations := attestations + [currentFile.value];
    }
    return Ok(attestations);
  }

  lemma {:induction false} ReadNothing(cc: CharClass, st: Reading, lines: seq<string>)
    ensures ReadLines(cc, st, lines[..0]) == Ok(st)
  {
  }

  /** The first line that is the divider. */
  function DividerPos(lines: seq<string>): (r: Option<nat>)
    ensures r.Some? ==> r.value < |lines| && lines[r.value] == DIVIDER && DIVIDER !in lines[..r.value]
    ensures r.None? ==> DIVIDER !in lines
  {
    if lines == [] then None
    else if lines[0] == DIVIDER then
      assert lines[..0] == [];
      Some(0)
    else
      var rest := DividerPos(lines[1..]);
      assert lines == [lines[0]] + lines[1..];
      if rest.None? then None
      else
        assert lines[..rest.value + 1] == [lines[0]] + lines[1..][..rest.value];
        Some(rest.value + 1)
  }

  datatype Log = Log(files: seq<File>, json: string)

  /** The meaning of a text; the JSON text is what goes to the JSON parser. */
  ghost function ParseLog(cc: CharClass, content: string): Result<Log, ParseError> {
    var lines := Lines(content);
    match DividerPos(lines)
    case None => Err(MissingDivider)
    case Some(d) =>
      var end := ReadLines(cc, Reading([], None), lines[..d]);
      if end.Err? then Err(end.error) else Ok(Log(Flush(end.value), Join(lines[d + 1..], '\n')))
  }

  /** `deserialize_from_string`, up to the JSON parser. */
  method DeserializeFromString(cc: CharClass, content: string) returns (r: Result<Log, ParseError>)
    ensures r == ParseLog(cc, content)
  {
    var lines := Lines(content);
    var divider := DividerPos(lines);
    if divider.None? {
      return Err(MissingDivider);
    }
    var attestations := ParseAttestationSection(cc, lines[..divider.value]);
    if attestations.Err? {
      return Err(attestations.error);
    }
    return Ok(Log(attestations.value, Join(lines[divider.value + 1..], '\n')));
  }

  // ----- Well-formed logs -----

  predicate EndsWithWhitespace(cc: CharClass, s: string) {
    s != [] && cc.isWhitespace(s[|s| - 1])
  }

  predicate LooksQuoted(s: string) {
    s != [] && s[0] == '"' && s[|s| - 1] == '"'
  }

  /** A path that is a line of its own. */
  predicate PathFillsLine(cc: CharClass, path: string) {
    && path != [] && path != DIVIDER && '\n' !in path
    && (!NeedsQuoting(path) ==> !EndsWithWhitespace(cc, path))
  }

  predicate GoodPath(cc: CharClass, path: string) {
    PathFillsLine(cc, path) && (!NeedsQuoting(path) ==> !LooksQuoted(path))
  }

  predicate GoodEntry(e: Entry) {
    ' ' !in e.hash && '\n' !in e.hash && e.ranges != []
  }

  predicate FileFillsLines(cc: CharClass, f: File) {
    PathFillsLine(cc, f.path) && forall k | 0 <= k < |f.entries| :: GoodEntry(f.entries[k])
  }

  predicate GoodFile(cc: CharClass, f: File) {
    FileFillsLines(cc, f) && GoodPath(cc, f.path)
  }

  predicate GoodLog(cc: CharClass, files: seq<File>) {
    forall k | 0 <= k < |files| :: GoodFile(cc, files[k])
  }

  /** A path line that comes back as the path it was printed for. */
  ghost predicate PathComesBack(cc: CharClass, path: string) {
    var line := StripCr(PathLine(path));
    && line != DIVIDER
    && forall st: Reading :: ReadLine(cc, st, line) == Ok(Reading(Flush(st), Some(File(path, []))))
  }

  lemma {:induction false} TrimEndStops(cc: CharClass, s: string)
    requires !EndsWithWhitespace(cc, s)
    ensures TrimEnd(cc, s) == s
  {
  }

  lemma {:induction false} QuotedLine(cc: CharClass, path: string)
    requires NeedsQuoting(path)
    ensures PathLine(path) == "\"" + path + "\""
    ensures StripCr(PathLine(path)) == PathLine(path) && TrimEnd(cc, PathLine(path)) == PathLine(path)
    ensures !Indented(PathLine(path)) && PathLine(path) != DIVIDER && ReadPath(PathLine(path)) == Ok(path)
  {
    var line := PathLine(path);
    assert line[|line| - 1] == '"' && line[0] == '"';
    assert line[1..|line| - 1] == path;
    assert !cc.isWhitespace('"');
  }

  lemma {:induction false} PlainPathLine(cc: CharClass, path: string)
    requires PathFillsLine(cc, path) && !NeedsQuoting(path)
    ensures StripCr(PathLine(path)) == path && TrimEnd(cc, path) == path && !Indented(path)
    ensures !LooksQuoted(path) ==> ReadPath(path) == Ok(path)
  {
    TrimEndStops(cc, path);
    assert cc.isWhitespace('\r');
  }

  lemma {:induction false} GoodPathComesBack(cc: CharClass, path: string)
    requires GoodPath(cc, path)
    ensures PathComesBack(cc, path)
  {
    if NeedsQuoting(path) {
      QuotedLine(cc, path);
    } else {
      PlainPathLine(cc, path);
    }
  }

  lemma {:induction false} TrimEndShorter(cc: CharClass, s: string)
    ensures |TrimEnd(cc, s)| <= |s|
    ensures EndsWithWhitespace(cc, s) ==> |TrimEnd(cc, s)| < |s|
  {
    if EndsWithWhitespace(cc, s) {
      TrimEndShorter(cc, s[..|s| - 1]);
    }
  }

  /** A line never gives a path longer than what is left of it. */
  lemma {:induction false} PathNoLonger(cc: CharClass, st: Reading, line: string, p: string)
    requires st == Reading([], None) && ReadLine(cc, st, line) == Ok(Reading(Flush(st), Some(File(p, []))))
    ensures |p| <= |TrimEnd(cc, line)| && TrimEnd(cc, line) != []
    ensures LooksQuoted(TrimEnd(cc, line)) ==> |p| < |TrimEnd(cc, line)|
  {
    var left := TrimEnd(cc, line);
    if left != [] && Indented(left) {
      ReadEntryNeedsFile(st, left[2..]);
      assert false;
    }
  }

  lemma {:induction false} ReadEntryNeedsFile(st: Reading, entryLine: string)
    requires st.current.None?
    ensures ReadEntry(st, entryLine).Err?
  {
  }

  lemma {:induction false} BadPathIsLost(cc: CharClass, path: string)
    requires '\n' !in path && !GoodPath(cc, path)
    ensures !PathComesBack(cc, path)
  {
    var line := StripCr(PathLine(path));
    var st := Reading([], None);
    assert !NeedsQuoting(path);
    assert PathLine(path) == path;
    if PathComesBack(cc, path) {
      assert ReadLine(cc, st, line) == Ok(Reading(Flush(st), Some(File(path, []))));
      PathNoLonger(cc, st, line, path);
      TrimEndShorter(cc, line);
      if !EndsWithWhitespace(cc, path) && path != [] {
        TrimEndStops(cc, path);
      }
    }
  }

  /** A path without newline survives the round trip exactly when it is good. */
  lemma {:induction false} PathComesBackIff(cc: CharClass, path: string)
    requires '\n' !in path
    ensures PathComesBack(cc, path) <==> GoodPath(cc, path)
  {
    if GoodPath(cc, path) {
      GoodPathComesBack(cc, path);
    } else {
      BadPathIsLost(cc, path);
    }
  }

  // ----- The round trip -----

  function NormalEntry(e: Entry): Entry {
    e.(ranges := SortedRanges(e.ranges))
  }

  function NormalEntries(es: seq<Entry>): seq<Entry> {
    if es == [] then [] else NormalEntries(es[..|es| - 1]) + [NormalEntry(es[|es| - 1])]
  }

  function NormalFile(f: File): File {
    File(f.path, NormalEntries(f.entries))
  }

  /** Files without entries are dropped; the ranges of an entry are sorted by their first line. */
  function Normal(files: seq<File>): seq<File> {
    if files == [] then []
    else
      var f := files[|files| - 1];
      Normal(files[..|files| - 1]) + if f.entries == [] then [] else [NormalFile(f)]
  }

  lemma {:induction false} FormattedEnd(rs: seq<LineRange>)
    requires rs != []
    ensures EndsInDigit(FormatLineRanges(rs))
    ensures '\n' !in FormatLineRanges(rs)
  {
    var sorted := SortedRanges(rs);
    PrintRangesAt(sorted);
    JoinedRanges(sorted);
  }

  lemma {:induction false} JoinedRanges(rs: seq<LineRange>)
    requires rs != []
    ensures var s := Join(PrintRanges(rs), ',');
            EndsInDigit(s) && '\n' !in s
  {
    ParsePrintedRange(rs[0]);
    PrintRangesAt(rs);
    if |rs| > 1 {
      JoinedRanges(rs[1..]);
    }
  }

  lemma {:induction false} GoodEntryLine(cc: CharClass, e: Entry)
    requires GoodEntry(e)
    ensures PlainLine(EntryLine(e)) && EntryLine(e) != DIVIDER && Indented(EntryLine(e))
    ensures TrimEnd(cc, EntryLine(e)) == EntryLine(e)
    ensures EntryLine(e)[2..] == e.hash + [' '] + FormatLineRanges(e.ranges)
  {
    FormattedEnd(e.ranges);
    hide FormatLineRanges;
    var line := EntryLine(e);
    var ranges := FormatLineRanges(e.ranges);
    assert line[|line| - 1] == ranges[|ranges| - 1];
    assert !cc.isWhitespace(line[|line| - 1]);
    TrimEndStops(cc, line);
  }

  lemma {:induction false} ReadGoodEntry(cc: CharClass, st: Reading, e: Entry)
    requires GoodEntry(e) && st.current.Some?
    ensures ReadLine(cc, st, EntryLine(e))
         == Ok(st.(current := Some(st.current.value.(entries := st.current.value.entries + [NormalEntry(e)]))))
  {
    hide FormatLineRanges, EntryLine, Split, RangesOf, Find;
    GoodEntryLine(cc, e);
    FindBetween(e.hash, ' ', FormatLineRanges(e.ranges));
    ParseFormatted(e.ranges);
  }

  lemma {:induction false} ReadMore(cc: CharClass, st: Reading, lines: seq<string>, line: string)
    ensures var before := ReadLines(cc, st, lines);
            ReadLines(cc, st, lines + [line]) == if before.Err? then before else ReadLine(cc, before.value, line)
  {
    assert (lines + [line])[..|lines|] == lines;
  }

  /** What reading `es` adds to the current file. */
  ghost function WithEntries(st: Reading, es: seq<Entry>): Reading
    requires st.current.Some?
  {
    st.(current := Some(st.current.value.(entries := st.current.value.entries + NormalEntries(es))))
  }

  lemma {:induction false} WithOneMore(st: Reading, es: seq<Entry>)
    requires st.current.Some? && es != []
    ensures var mid := WithEntries(st, es[..|es| - 1]);
            var entries := mid.current.value.entries + [NormalEntry(es[|es| - 1])];
            WithEntries(st, es) == mid.(current := Some(mid.current.value.(entries := entries)))
    ensures WithEntries(st, es[..|es| - 1]).current.Some?
  {
    var init, e := es[..|es| - 1], es[|es| - 1];
    var had := st.current.value.entries;
    assert had + NormalEntries(es) == had + NormalEntries(init) + [NormalEntry(e)];
  }

  lemma {:induction false} WithNone(st: Reading)
    requires st.current.Some?
    ensures WithEntries(st, []) == st
  {
    assert st.current.value.entries + [] == st.current.value.entries;
  }

  lemma {:induction false} ReadEntries(cc: CharClass, st: Reading, es: seq<Entry>)
    requires st.current.Some? && forall k | 0 <= k < |es| :: GoodEntry(es[k])
    ensures ReadLines(cc, st, EntryLines(es)) == Ok(WithEntries(st, es))
  {
    hide ReadLine, NormalEntry, EntryLine, GoodEntry, WithEntries;
    if es == [] {
      WithNone(st);
    } else {
      var init, e := es[..|es| - 1], es[|es| - 1];
      ReadEntries(cc, st, init);
      ReadMore(cc, st, EntryLines(init), EntryLine(e));
      WithOneMore(st, es);
      ReadGoodEntry(cc, WithEntries(st, init), e);
    }
  }

  lemma {:induction false} ReadFile(cc: CharClass, st: Reading, f: File)
    requires GoodFile(cc, f)
    ensures ReadLines(cc, st, FileLines(f)) == Ok(Reading(Flush(st), Some(NormalFile(f))))
  {
    GoodPathComesBack(cc, f.path);
    GoodPathLine(cc, f.path);
    hide ReadLine, PathLine, StripCr, GoodPath;
    var started := Reading(Flush(st), Some(File(f.path, [])));
    ReadConcat(cc, st, [PathLine(f.path)], EntryLines(f.entries));
    ReadOne(cc, st, PathLine(f.path));
    ReadEntries(cc, started, f.entries);
    assert [] + NormalEntries(f.entries) == NormalEntries(f.entries);
  }

  lemma {:induction false} ReadOne(cc: CharClass, st: Reading, line: string)
    ensures ReadLines(cc, st, [line]) == ReadLine(cc, st, line)
  {
    assert [line][..0] == [];
  }

  lemma {:induction false} GoodPathLine(cc: CharClass, path: string)
    requires PathFillsLine(cc, path)
    ensures PlainLine(PathLine(path)) && PathLine(path) != DIVIDER && StripCr(PathLine(path)) == PathLine(path)
  {
    if NeedsQuoting(path) {
      QuotedLine(cc, path);
    } else {
      PlainPathLine(cc, path);
    }
  }

  lemma {:induction false} ReadLog(cc: CharClass, files: seq<File>)
    requires GoodLog(cc, files)
    ensures ReadLines(cc, Reading([], None), LogLines(files)).Ok?
    ensures Flush(ReadLines(cc, Reading([], None), LogLines(files)).value) == Normal(files)
  {
    if files != [] {
      var init, f := files[..|files| - 1], files[|files| - 1];
      ReadLog(cc, init);
      hide ReadLines, GoodFile, FileLines, NormalFile;
      ReadConcat(cc, Reading([], None), LogLines(init), FileLines(f));
      ReadFile(cc, ReadLines(cc, Reading([], None), LogLines(init)).value, f);
      NormalFileEmpty(f);
    }
  }

  lemma {:induction false} NormalFileEmpty(f: File)
    ensures NormalFile(f).entries == [] <==> f.entries == []
  {
  }

  predicate SafeLine(l: string) {
    PlainLine(l) && l != DIVIDER
  }

  lemma {:induction false} EntryLinesSafe(cc: CharClass, es: seq<Entry>)
    requires forall k | 0 <= k < |es| :: GoodEntry(es[k])
    ensures forall k | 0 <= k < |EntryLines(es)| :: SafeLine(EntryLines(es)[k])
  {
    if es != [] {
      EntryLinesSafe(cc, es[..|es| - 1]);
      GoodEntryLine(cc, es[|es| - 1]);
    }
  }

  lemma {:induction false} LogLinesSafe(cc: CharClass, files: seq<File>)
    requires forall k | 0 <= k < |files| :: FileFillsLines(cc, files[k])
    ensures forall k | 0 <= k < |LogLines(files)| :: SafeLine(LogLines(files)[k])
  {
    if files != [] {
      var f := files[|files| - 1];
      LogLinesSafe(cc, files[..|files| - 1]);
      EntryLinesSafe(cc, f.entries);
      GoodPathLine(cc, f.path);
    }
  }

  lemma {:induction false} DividerAfter(before: seq<string>, after: seq<string>)
    requires forall k | 0 <= k < |before| :: before[k] != DIVIDER
    ensures DividerPos(before + [DIVIDER] + after) == Some(|before|)
  {
    var lines := before + [DIVIDER] + after;
    assert lines[|before|] == DIVIDER;
    assert DIVIDER in lines;
    assert forall k | 0 <= k < |before| :: lines[k] == before[k];
    assert forall k | |before| < k <= |lines| :: lines[..k][|before|] == DIVIDER;
  }

  /** Parsing a printed log gives its normal form, and the JSON text as line splitting leaves it. */
  lemma {:induction false} ParsePrintedLog(cc: CharClass, files: seq<File>, json: string)
    requires GoodLog(cc, files)
    ensures ParseLog(cc, PrintLog(files, json)) == Ok(Log(Normal(files), Join(Lines(json), '\n')))
  {
    LogLinesSafe(cc, files);
    hide *;
    PrintedLines(cc, files, json);
    ReadLog(cc, files);
    ParseParts(cc, PrintLog(files, json), LogLines(files), Lines(json));
  }

  /** The lines of a printed log, and where the divider is among them. */
  lemma {:induction false} PrintedLines(cc: CharClass, files: seq<File>, json: string)
    requires forall k | 0 <= k < |LogLines(files)| :: SafeLine(LogLines(files)[k])
    ensures Lines(PrintLog(files, json)) == LogLines(files) + [DIVIDER] + Lines(json)
    ensures DividerPos(Lines(PrintLog(files, json))) == Some(|LogLines(files)|)
  {
    hide LogLines, Lines, Unlines, DividerPos;
    var body := LogLines(files);
    LinesUnlines(body + [DIVIDER], json);
    DividerAfter(body, Lines(json));
  }

  lemma {:induction false} ParseParts(cc: CharClass, content: string, body: seq<string>, rest: seq<string>)
    requires Lines(content) == body + [DIVIDER] + rest && DividerPos(Lines(content)) == Some(|body|)
    ensures var end := ReadLines(cc, Reading([], None), body);
            ParseLog(cc, content)
            == if end.Err? then Err(end.error) else Ok(Log(Flush(end.value), Join(rest, '\n')))
  {
    hide Lines, ReadLines, Flush, Join, DividerPos;
    var lines := body + [DIVIDER] + rest;
    assert lines[..|body|] == body && lines[|body| + 1..] == rest;
  }

  // ----- When the parser panics -----

  lemma {:induction false} RangesNeverQuote(parts: seq<string>)
    ensures RangesOf(parts).Err? ==> RangesOf(parts).error == InvalidNumber
  {
    if parts != [] {
      RangesNeverQuote(parts[..|parts| - 1]);
      hide ParseU32;
    }
  }

  /** One line panics exactly if nothing but a quote is left of it. */
  lemma {:induction false} LinePanicsIff(cc: CharClass, st: Reading, raw: string)
    ensures ReadLine(cc, st, raw) == Err(LoneQuote) <==> TrimEnd(cc, raw) == "\""
  {
    var line := TrimEnd(cc, raw);
    hide TrimEnd, RangesOf, Split;
    if Indented(line) && Find(line[2..], ' ').Some? {
      RangesNeverQuote(Split(line[2..][Find(line[2..], ' ').value + 1..], ','));
    }
  }

  /** Line `k` panics: it is a lone quote, and all lines before it are read. */
  ghost predicate PanicsAt(cc: CharClass, lines: seq<string>, k: nat) {
    k < |lines| && TrimEnd(cc, lines[k]) == "\"" && ReadLines(cc, Reading([], None), lines[..k]).Ok?
  }

  lemma {:induction false} LinesPanicIff(cc: CharClass, lines: seq<string>)
    ensures ReadLines(cc, Reading([], None), lines) == Err(LoneQuote) <==> exists k: nat :: PanicsAt(cc, lines, k)
  {
    var st := Reading([], None);
    if lines != [] {
      var n := |lines| - 1;
      LinesPanicIff(cc, lines[..n]);
      var before := ReadLines(cc, st, lines[..n]);
      assert ReadLines(cc, st, lines) == if before.Err? then before else ReadLine(cc, before.value, lines[n]);
      if before.Ok? {
        LinePanicsIff(cc, before.value, lines[n]);
      }
      hide ReadLine, ReadLines, TrimEnd;
      assert forall k: nat | k <= n :: lines[..n][..k] == lines[..k];
      if k: nat :| PanicsAt(cc, lines[..n], k) {
        assert PanicsAt(cc, lines, k);
      }
      if k: nat :| PanicsAt(cc, lines, k) {
        if k < n {
          assert PanicsAt(cc, lines[..n], k);
        }
      } else if before.Ok? {
        assert !PanicsAt(cc, lines, n);
      }
    }
  }

  /** `deserialize_from_string` panics exactly on a lone quote before the divider after lines that are all read. */
  lemma {:induction false} ParsePanicsIff(cc: CharClass, content: string)
    ensures ParseLog(cc, content) == Err(LoneQuote)
       <==> DividerPos(Lines(content)).Some?
            && exists k: nat :: PanicsAt(cc, Lines(content)[..DividerPos(Lines(content)).value], k)
  {
    hide Lines, ReadLines, Join, PanicsAt;
    if DividerPos(Lines(content)).Some? {
      LinesPanicIff(cc, Lines(content)[..DividerPos(Lines(content)).value]);
    }
  }

  /** A text on which it does. */
  lemma {:induction false} LoneQuotePanics(cc: CharClass)
    ensures ParseLog(cc, "\"\n---\n") == Err(LoneQuote)
  {
    var files := [File("\"", [])];
    LoneQuoteLog();
    assert FileFillsLines(cc, files[0]) by { assert !cc.isWhitespace('"'); }
    assert HasLoneQuote(files) by { assert files[0].path == "\""; }
    hide *;
    PrintedPanicsIff(cc, files, "");
  }

  lemma {:induction false} LoneQuoteLog()
    ensures PrintLog([File("\"", [])], "") == "\"\n---\n"
  {
    var f := File("\"", []);
    assert LogLines([f]) == LogLines([]) + FileLines(f) by { assert [f][..0] == []; }
    assert FileLines(f) == ["\""] && LogLines([f]) == ["\""];
    UnlinesSnoc(["\""], DIVIDER);
    UnlinesSnoc([], "\"");
    assert [] + ["\""] == ["\""];
  }

  /** A path panics, whatever was read before it, exactly if it is printed plain and only a quote is left of it. */
  lemma {:induction false} PathPanicsIff(cc: CharClass, st: Reading, path: string)
    requires '\n' !in path
    ensures ReadLine(cc, st, StripCr(PathLine(path))) == Err(LoneQuote)
       <==> !NeedsQuoting(path) && TrimEnd(cc, path) == "\""
    ensures PathFillsLine(cc, path) ==>
              (ReadLine(cc, st, StripCr(PathLine(path))) == Err(LoneQuote) <==> path == "\"")
  {
    LinePanicsIff(cc, st, StripCr(PathLine(path)));
    assert cc.isWhitespace('\r') by { assert '\r' in "\t\n\r "; }
    if NeedsQuoting(path) {
      QuotedLine(cc, path);
    } else if PathFillsLine(cc, path) {
      PlainPathLine(cc, path);
    }
  }

  ghost predicate HasLoneQuote(files: seq<File>) {
    exists k | 0 <= k < |files| :: files[k].path == "\""
  }

  lemma {:induction false} ReadAnyFile(cc: CharClass, st: Reading, f: File)
    requires FileFillsLines(cc, f)
    ensures var end := ReadLines(cc, st, FileLines(f));
            if f.path == "\"" then end == Err(LoneQuote) else end.Ok?
  {
    GoodPathLine(cc, f.path);
    PathPanicsIff(cc, st, f.path);
    PathIsRead(cc, st, f.path);
    hide PathLine, StripCr, PathFillsLine;
    ReadConcat(cc, st, [PathLine(f.path)], EntryLines(f.entries));
    ReadOne(cc, st, PathLine(f.path));
    var read := ReadLine(cc, st, PathLine(f.path));
    hide ReadLine;
    if read.Ok? {
      ReadEntries(cc, read.value, f.entries);
    }
  }

  lemma {:induction false} PathIsRead(cc: CharClass, st: Reading, path: string)
    requires PathFillsLine(cc, path)
    ensures var read := ReadLine(cc, st, StripCr(PathLine(path)));
            read == Err(LoneQuote) || (read.Ok? && read.value.current.Some?)
  {
    if NeedsQuoting(path) {
      QuotedLine(cc, path);
    } else {
      PlainPathLine(cc, path);
    }
    hide PathLine, StripCr, TrimEnd;
  }

  lemma {:induction false} LoneQuoteSnoc(files: seq<File>)
    requires files != []
    ensures HasLoneQuote(files) <==> HasLoneQuote(files[..|files| - 1]) || files[|files| - 1].path == "\""
  {
    var init := files[..|files| - 1];
    assert forall k | 0 <= k < |init| :: init[k] == files[k];
  }

  lemma {:induction false} ReadAnyLog(cc: CharClass, files: seq<File>)
    requires forall k | 0 <= k < |files| :: FileFillsLines(cc, files[k])
    ensures var end := ReadLines(cc, Reading([], None), LogLines(files));
            if HasLoneQuote(files) then end == Err(LoneQuote) else end.Ok?
  {
    if files != [] {
      var init, f := files[..|files| - 1], files[|files| - 1];
      ReadAnyLog(cc, init);
      LoneQuoteSnoc(files);
      hide ReadLines, FileFillsLines, FileLines, HasLoneQuote;
      ReadConcat(cc, Reading([], None), LogLines(init), FileLines(f));
      var mid := ReadLines(cc, Reading([], None), LogLines(init));
      if mid.Ok? {
        ReadAnyFile(cc, mid.value, f);
      }
    }
  }

  /**
   * A printed log whose paths and entries fill lines of their own is read, unless a path is `"`: then, and only
   * then, the parser panics on it.
   */
  lemma {:induction false} PrintedPanicsIff(cc: CharClass, files: seq<File>, json: string)
    requires forall k | 0 <= k < |files| :: FileFillsLines(cc, files[k])
    ensures var r := ParseLog(cc, PrintLog(files, json));
            if HasLoneQuote(files) then r == Err(LoneQuote) else r.Ok?
  {
    LogLinesSafe(cc, files);
    hide *;
    PrintedLines(cc, files, json);
    ReadAnyLog(cc, files);
    ParseParts(cc, PrintLog(files, json), LogLines(files), Lines(json));
  }

  // ----- The normal form -----

  /** Sorting an entry's ranges keeps them, orders them by first line, and keeps equal first lines in order. */
  lemma {:induction false} SortedRangesMeaning(rs: seq<LineRange>, r: LineRange)
    ensures multiset(SortedRanges(rs)) == multiset(rs) && Sorting.SortedBy(SortedRanges(rs), ByFirst)
    ensures Sorting.SameKey(SortedRanges(rs), r, ByFirst) == Sorting.SameKey(rs, r, ByFirst)
  {
    ByFirstIsPreorder();
    Sorting.SortIsSorted(rs, ByFirst);
    Sorting.SortIsStable(rs, r, ByFirst);
  }

  lemma {:induction false} NormalEntriesFixed(es: seq<Entry>)
    ensures NormalEntries(NormalEntries(es)) == NormalEntries(es)
  {
    if es != [] {
      var init, e := es[..|es| - 1], es[|es| - 1];
      NormalEntriesFixed(init);
      ByFirstIsPreorder();
      Sorting.SortIsSorted(e.ranges, ByFirst);
      Sorting.SortOfSorted(SortedRanges(e.ranges), ByFirst);
      assert NormalEntries(es)[..|es| - 1 + |NormalEntries(init)| - |init|] == NormalEntries(init) by {
        NormalEntriesLength(init);
      }
      NormalEntriesLength(init);
    }
  }

  lemma {:induction false} NormalEntriesLength(es: seq<Entry>)
    ensures |NormalEntries(es)| == |es|
  {
    if es != [] {
      NormalEntriesLength(es[..|es| - 1]);
    }
  }

  lemma {:induction false} NormalSnoc(files: seq<File>, f: File)
    ensures Normal(files + [f]) == Normal(files) + if f.entries == [] then [] else [NormalFile(f)]
  {
    assert (files + [f])[..|files|] == files;
  }

  /** A normal log is its own normal form, so printing and parsing it again changes nothing. */
  lemma {:induction false} NormalIsFixed(files: seq<File>)
    ensures Normal(Normal(files)) == Normal(files)
  {
    if files != [] {
      var init, f := files[..|files| - 1], files[|files| - 1];
      NormalIsFixed(init);
      hide NormalFile;
      if f.entries != [] {
        NormalSnoc(Normal(init), NormalFile(f));
        NormalFileFixed(f);
        NormalFileEmpty(f);
      } else {
        assert Normal(files) == Normal(init);
      }
    }
  }

  lemma {:induction false} NormalFileFixed(f: File)
    ensures NormalFile(NormalFile(f)) == NormalFile(f)
  {
    NormalEntriesFixed(f.entries);
  }

  /** Printing and parsing a good log whose metadata text is line-stable. */
  method RoundTrip(cc: CharClass, files: seq<File>, json: string) returns (r: Result<Log, ParseError>)
    requires GoodLog(cc, files) && LineStable(json)
    ensures r == Ok(Log(Normal(files), json))
  {
    var text := SerializeToString(files, json);
    r := DeserializeFromString(cc, text);
    ParsePrintedLog(cc, files, json);
    JoinLinesIff(json);
  }
}
