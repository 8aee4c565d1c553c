/**
 * String functions the log format relies on: `lines`, `split`, `find`, `join` and decimal numbers,
 * each with the lemma that undoes it.
 */
module LogText {
  import opened Prelude

  const U32_MAX := 0xFFFF_FFFF

  // ----- Finding, splitting and joining -----

  /** `find(c)`: the first position of `c`. */
  function Find(s: string, c: char): (r: Option<nat>)
    ensures r.Some? ==> r.value < |s| && s[r.value] == c && c !in s[..r.value]
    ensures r.None? ==> c !in s
  {
    if s == [] then None
    else if s[0] == c then
      assert s[..0] == [];
      Some(0)
    else
      var rest := Find(s[1..], c);
      assert s == [s[0]] + s[1..];
      if rest.None? then None
      else
        assert s[..rest.value + 1] == [s[0]] + s[1..][..rest.value];
        Some(rest.value + 1)
  }

  lemma {:induction false} FindBetween(a: string, c: char, b: string)
    requires c !in a
    ensures Find(a + [c] + b, c) == Some(|a|)
    ensures (a + [c] + b)[..|a|] == a && (a + [c] + b)[|a| + 1..] == b
  {
    var s := a + [c] + b;
    assert s[|a|] == c;
    assert c in s;
    assert forall k | 0 <= k < |a| :: s[k] == a[k];
    assert forall k | |a| < k <= |s| :: s[..k][|a|] == c;
  }

  /** `split(c)`: always at least one part. */
  function Split(s: string, c: char): (parts: seq<string>)
    ensures parts != []
  {
    match Find(s, c)
    case None => [s]
    case Some(i) => [s[..i]] + Split(s[i + 1..], c)
  }

  function Join(parts: seq<string>, c: char): string {
    if parts == [] then []
    else if |parts| == 1 then parts[0]
    else parts[0] + [c] + Join(parts[1..], c)
  }

  /** Splitting undoes joining. */
  lemma {:induction false} SplitJoin(parts: seq<string>, c: char)
    requires parts != [] && forall k | 0 <= k < |parts| :: c !in parts[k]
    ensures Split(Join(parts, c), c) == parts
  {
    if |parts| == 1 {
      assert parts == [parts[0]];
    } else {
      SplitJoin(parts[1..], c);
      FindBetween(parts[0], c, Join(parts[1..], c));
      assert parts == [parts[0]] + parts[1..];
    }
  }

  // ----- Lines -----

  /** `lines()`: a terminator is `\n` or `\r\n`; a last line without `\n` is kept as it is. */
  function Lines(s: string): seq<string> {
    match Find(s, '\n')
    case None => if s == [] then [] else [s]
    case Some(i) => [StripCr(s[..i])] + Lines(s[i + 1..])
  }

  predicate PlainLine(l: string) {
    '\n' !in l && (l != [] ==> l[|l| - 1] != '\r')
  }

  lemma {:induction false} LinesCons(l: string, rest: string)
    requires '\n' !in l
    ensures Lines(l + ['\n'] + rest) == [StripCr(l)] + Lines(rest)
  {
    FindBetween(l, '\n', rest);
  }

  /** Each line followed by `\n`. */
  ghost function Unlines(ls: seq<string>): string {
    if ls == [] then [] else Unlines(ls[..|ls| - 1]) + ls[|ls| - 1] + ['\n']
  }

  lemma {:induction false} UnlinesSnoc(ls: seq<string>, l: string)
    ensures Unlines(ls + [l]) == Unlines(ls) + l + ['\n']
  {
    assert (ls + [l])[..|ls|] == ls;
  }

  lemma {:induction false} UnlinesConcat(a: seq<string>, b: seq<string>)
    ensures Unlines(a + b) == Unlines(a) + Unlines(b)
  {
    if b == [] {
      assert a + b == a;
    } else {
      var init, l := b[..|b| - 1], b[|b| - 1];
      UnlinesConcat(a, init);
      hide *;
      UnlinesSnoc(a + init, l);
      UnlinesSnoc(init, l);
      assert a + b == (a + init) + [l] && b == init + [l];
      Regroup(Unlines(a), Unlines(init), l, ['\n']);
      Regroup(Unlines(a), Unlines(init), l, []);
    }
  }

  /** Reading printed lines gives them back. */
  lemma {:induction false} LinesUnlines(ls: seq<string>, rest: string)
    requires forall k | 0 <= k < |ls| :: PlainLine(ls[k])
    ensures Lines(Unlines(ls) + rest) == ls + Lines(rest)
  {
    hide Lines, Unlines;
    if ls == [] {
      UnlinesNothing(rest);
    } else {
      var init, l := ls[..|ls| - 1], ls[|ls| - 1];
      LinesUnlines(init, l + ['\n'] + rest);
      LinesMore(init, l, rest);
      assert ls == init + [l];
    }
  }

  lemma {:induction false} UnlinesNothing(rest: string)
    ensures Unlines([]) == [] && [] + rest == rest
    ensures Lines(Unlines([]) + rest) == [] + Lines(rest)
  {
    assert Unlines([]) + rest == rest;
  }

  lemma {:induction false} LinesMore(init: seq<string>, l: string, rest: string)
    requires PlainLine(l)
    requires Lines(Unlines(init) + (l + ['\n'] + rest)) == init + Lines(l + ['\n'] + rest)
    ensures Lines(Unlines(init + [l]) + rest) == init + [l] + Lines(rest)
  {
    assert StripCr(l) == l;
    hide *;
    UnlinesSnoc(init, l);
    LinesCons(l, rest);
    Regroup(Unlines(init), l, ['\n'], rest);
    Regroup(init, [l], Lines(rest), []);
  }

  lemma {:induction false} Regroup<T>(a: seq<T>, b: seq<T>, c: seq<T>, d: seq<T>)
    ensures a + b + c + d == a + (b + c + d)
    ensures a + b + c == a + (b + c)
  {
  }

  predicate NoCrLf(s: string) {
    forall i | 0 < i < |s| :: !(s[i - 1] == '\r' && s[i] == '\n')
  }

  /** A text that `lines` and `join` leave alone. */
  predicate LineStable(s: string) {
    NoCrLf(s) && (s != [] ==> s[|s| - 1] != '\n')
  }

  lemma {:induction false} LinesEmpty(s: string)
    ensures Lines(s) == [] <==> s == []
  {
  }

  lemma {:induction false} JoinCons(l: string, rest: seq<string>)
    ensures Join([l] + rest, '\n') == if rest == [] then l else l + ['\n'] + Join(rest, '\n')
  {
    assert ([l] + rest)[1..] == rest;
  }

  lemma {:induction false} JoinedIsShorter(s: string)
    ensures |Join(Lines(s), '\n')| <= |s|
  {
    var i := Find(s, '\n');
    if i.Some? {
      JoinedIsShorter(s[i.value + 1..]);
      JoinCons(StripCr(s[..i.value]), Lines(s[i.value + 1..]));
      hide Join;
    }
  }

  lemma {:induction false} LineStableTail(s: string, i: nat)
    requires i < |s| && s[i] == '\n' && '\n' !in s[..i] && i + 1 < |s|
    ensures LineStable(s) <==> StripCr(s[..i]) == s[..i] && LineStable(s[i + 1..])
  {
    var l, rest := s[..i], s[i + 1..];
    assert rest[|rest| - 1] == s[|s| - 1];
    if LineStable(s) {
      if l != [] {
        assert s[i - 1] == l[i - 1];
      }
      forall k | 0 < k < |rest| ensures !(rest[k - 1] == '\r' && rest[k] == '\n') {
        assert rest[k - 1] == s[i + k] && rest[k] == s[i + 1 + k];
      }
    }
    if StripCr(l) == l && LineStable(rest) {
      forall k | 0 < k < |s| ensures !(s[k - 1] == '\r' && s[k] == '\n') {
        if k < i {
          assert s[k] == l[k];
        } else if k == i {
          assert s[k - 1] == l[|l| - 1];
        } else if k > i + 1 {
          assert s[k - 1] == rest[k - i - 2] && s[k] == rest[k - i - 1];
        }
      }
    }
  }

  lemma {:induction false} NoNewlineStable(s: string)
    requires '\n' !in s
    ensures LineStable(s)
  {
  }

  /** Splitting into lines and joining them again changes nothing exactly for line-stable texts. */
  lemma {:induction false} JoinLinesIff(s: string)
    ensures Join(Lines(s), '\n') == s <==> LineStable(s)
  {
    match Find(s, '\n') {
      case None => NoNewlineStable(s);
      case Some(i) =>
        var l, rest := s[..i], s[i + 1..];
        JoinCons(StripCr(l), Lines(rest));
        LinesEmpty(rest);
        assert s == l + ['\n'] + rest;
        if rest == [] {
          assert |Join(Lines(s), '\n')| < |s|;
          assert !LineStable(s);
        } else {
          JoinLinesIff(rest);
          JoinedIsShorter(rest);
          LineStableTail(s, i);
          JoinedEqual(l, rest, StripCr(l), Join(Lines(rest), '\n'));
        }
    }
  }

  lemma {:induction false} JoinedEqual(l: string, rest: string, l': string, rest': string)
    requires |l'| <= |l| && |rest'| <= |rest|
    ensures l' + ['\n'] + rest' == l + ['\n'] + rest <==> l' == l && rest' == rest
  {
    var a, b := l' + ['\n'] + rest', l + ['\n'] + rest;
    if a == b {
      assert |l'| == |l| && a[..|l|] == l' && b[..|l|] == l;
      assert a[|l| + 1..] == rest' && b[|l| + 1..] == rest;
    }
  }

  // ----- Decimal numbers -----

  predicate IsDigit(c: char) {
    '0' <= c <= '9'
  }

  predicate AllDigits(s: string) {
    forall i | 0 <= i < |s| :: IsDigit(s[i])
  }

  function DigitsValue(s: string): nat
    requires AllDigits(s)
  {
    if s == [] then 0 else DigitsValue(s[..|s| - 1]) * 10 + (s[|s| - 1] as int - '0' as int)
  }

  function PrintNumber(n: nat): (s: string)
    ensures s != [] && AllDigits(s)
  {
    if n < 10 then ['0' + n as char] else PrintNumber(n / 10) + ['0' + (n % 10) as char]
  }

  lemma {:induction false} ValueOfPrinted(n: nat)
    ensures DigitsValue(PrintNumber(n)) == n
  {
    if n < 10 {
      var s := PrintNumber(n);
      assert s[..0] == [];
    } else {
      ValueOfPrinted(n / 10);
      var front := PrintNumber(n / 10);
      var s := front + ['0' + (n % 10) as char];
      assert s[..|front|] == front && s[|front|] == '0' + (n % 10) as char;
    }
  }

  /**
   * `parse::<u32>()`: an optional `+` and at least one digit.  Overflow at any digit means that the
   * whole number is too large, since each digit only makes it larger.
   */
  function ParseU32(s: string): (r: Option<nat>)
    ensures r.Some? ==> r.value <= U32_MAX
  {
    var digits := if s != [] && s[0] == '+' then s[1..] else s;
    if digits == [] || !AllDigits(digits) then None
    else if DigitsValue(digits) > U32_MAX then None
    else Some(DigitsValue(digits))
  }

  /** Reading a printed number gives it back. */
  lemma {:induction false} ParsePrinted(n: nat)
    requires n <= U32_MAX
    ensures ParseU32(PrintNumber(n)) == Some(n)
  {
    ValueOfPrinted(n);
    assert IsDigit(PrintNumber(n)[0]);
  }

  function Zeros(n: nat): (s: string)
    ensures |s| == n && forall i | 0 <= i < n :: s[i] == '0'
  {
    if n == 0 then [] else Zeros(n - 1) + ['0']
  }

  /** The ways to write `n`: with a plus sign and leading zeros, or without. */
  function Numeral(n: nat, plus: bool, zeros: nat): string {
    (if plus then "+" else "") + (Zeros(zeros) + PrintNumber(n))
  }

  /** Exactly these are read as `n`. */
  lemma {:induction false} ParseU32Iff(s: string, n: nat)
    ensures ParseU32(s) == Some(n) <==> n <= 4294967295 && exists plus: bool, zeros: nat :: s == Numeral(n, plus, zeros)
  {
    if ParseU32(s) == Some(n) {
      var plus := s[0] == '+';
      var zeros := DigitsAreNumeral(if plus then s[1..] else s);
      assert s == Numeral(n, plus, zeros);
    }
    if plus: bool, zeros: nat :| n <= 4294967295 && s == Numeral(n, plus, zeros) {
      NumeralIsRead(n, plus, zeros);
    }
  }

  lemma {:induction false} DigitsAreNumeral(s: string) returns (zeros: nat)
    requires s != [] && AllDigits(s)
    ensures s == Zeros(zeros) + PrintNumber(DigitsValue(s))
  {
    var front, d := s[..|s| - 1], s[|s| - 1];
    assert s == front + [d] && IsDigit(d);
    zeros := 0;
    if front != [] {
      zeros := DigitsAreNumeral(front);
      var v, digit := DigitsValue(front), d as int - '0' as int;
      assert DigitsValue(s) == v * 10 + digit;
      PrintedSnoc(v, digit);
      if v == 0 {
        zeros := zeros + 1;
      }
      hide DigitsValue, PrintNumber;
    }
  }

  lemma {:induction false} PrintedSnoc(v: nat, digit: nat)
    requires digit < 10
    ensures PrintNumber(v * 10 + digit) == (if v == 0 then [] else PrintNumber(v)) + ['0' + digit as char]
    ensures PrintNumber(0) == ['0']
  {
  }

  lemma {:induction false} NumeralIsRead(n: nat, plus: bool, zeros: nat)
    requires n <= 4294967295
    ensures ParseU32(Numeral(n, plus, zeros)) == Some(n)
  {
    var digits := Zeros(zeros) + PrintNumber(n);
    ValueWithZeros(zeros, PrintNumber(n));
    ValueOfPrinted(n);
    assert plus ==> Numeral(n, plus, zeros)[1..] == digits;
    assert !plus ==> Numeral(n, plus, zeros) == digits;
    assert IsDigit(digits[0]);
    hide DigitsValue, PrintNumber, Zeros;
  }

  lemma {:induction false} ValueWithZeros(zeros: nat, s: string)
    requires s != [] && AllDigits(s)
    ensures AllDigits(Zeros(zeros) + s) && DigitsValue(Zeros(zeros) + s) == DigitsValue(s)
  {
    var all := Zeros(zeros) + s;
    if |s| == 1 {
      ValueOfZeros(zeros);
      assert all[..|all| - 1] == Zeros(zeros);
    } else {
      ValueWithZeros(zeros, s[..|s| - 1]);
      assert all[..|all| - 1] == Zeros(zeros) + s[..|s| - 1];
    }
  }

  lemma {:induction false} ValueOfZeros(zeros: nat)
    ensures DigitsValue(Zeros(zeros)) == 0
  {
    if zeros > 0 {
      ValueOfZeros(zeros - 1);
      assert Zeros(zeros)[..zeros - 1] == Zeros(zeros - 1);
    }
  }

  lemma {:induction false} PrintedLacks(n: nat, c: char)
    requires !IsDigit(c)
    ensures c !in PrintNumber(n)
  {
    assert forall i | 0 <= i < |PrintNumber(n)| :: IsDigit(PrintNumber(n)[i]);
  }
}
