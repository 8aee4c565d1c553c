/**
 * Shared value types, the character classes that stand for the Unicode tables, string order and
 * trimming.
 */
module Prelude {

  datatype Option<+T> = None | Some(value: T)

  datatype Result<+T, +E> = Ok(value: T) | Err(error: E)

  /** The Unicode tables behind `char::is_whitespace`, `is_alphabetic` and `is_alphanumeric`. */
  datatype CharTables = CharTables(
    isWhitespace: char -> bool,
    isAlphabetic: char -> bool,
    isAlphanumeric: char -> bool)

  /** All that is used of the tables; every theorem holds for any tables like this. */
  ghost predicate ValidTables(t: CharTables) {
    && (forall c :: t.isAlphabetic(c) ==> t.isAlphanumeric(c))
    && (forall c | c in "\t\n\r " :: t.isWhitespace(c))
    && (forall c | '!' <= c <= '~' :: !t.isWhitespace(c))
    && (forall c :: t.isWhitespace(c) ==> !t.isAlphanumeric(c))
  }

  function AsciiTables(): (t: CharTables)
    ensures ValidTables(t)
  {
    CharTables(
      c => c in "\t\n\r ",
      c => 'a' <= c <= 'z' || 'A' <= c <= 'Z',
      c => 'a' <= c <= 'z' || 'A' <= c <= 'Z' || '0' <= c <= '9')
  }

  type CharClass = t: CharTables | ValidTables(t) witness AsciiTables()

  function Min(a: nat, b: nat): nat {
    if a <= b then a else b
  }

  function Max(a: nat, b: nat): nat {
    if a >= b then a else b
  }

  /** `s.chars().all(char::is_whitespace)`. */
  predicate AllWhitespace(cc: CharClass, s: string) {
    forall i | 0 <= i < |s| :: cc.isWhitespace(s[i])
  }

  /** `data_is_whitespace`: empty data does not count as whitespace. */
  predicate DataIsWhitespace(cc: CharClass, s: string) {
    s != [] && AllWhitespace(cc, s)
  }

  /** `str::trim` and its halves. */
  function TrimStart(cc: CharClass, s: string): string {
    if s != [] && cc.isWhitespace(s[0]) then TrimStart(cc, s[1..]) else s
  }

  function TrimEnd(cc: CharClass, s: string): string {
    if s != [] && cc.isWhitespace(s[|s| - 1]) then TrimEnd(cc, s[..|s| - 1]) else s
  }

  function Trim(cc: CharClass, s: string): string {
    TrimEnd(cc, TrimStart(cc, s))
  }

  /** Trimming takes blanks off both ends, and all of them. */
  lemma {:induction false} TrimMeaning(cc: CharClass, s: string) returns (before: string, after: string)
    ensures s == before + Trim(cc, s) + after && AllWhitespace(cc, before) && AllWhitespace(cc, after)
    ensures var t := Trim(cc, s); t != [] ==> !cc.isWhitespace(t[0]) && !cc.isWhitespace(t[|t| - 1])
  {
    before := TrimStartMeaning(cc, s);
    after := TrimEndMeaning(cc, TrimStart(cc, s));
    var t := Trim(cc, s);
    assert t == TrimEnd(cc, TrimStart(cc, s));
    hide TrimStart, TrimEnd, Trim, AllWhitespace;
    assert before + (t + after) == before + t + after;
  }

  lemma {:induction false} TrimStartMeaning(cc: CharClass, s: string) returns (before: string)
    ensures s == before + TrimStart(cc, s) && AllWhitespace(cc, before)
    ensures TrimStart(cc, s) != [] ==> !cc.isWhitespace(TrimStart(cc, s)[0])
  {
    if s != [] && cc.isWhitespace(s[0]) {
      before := TrimStartMeaning(cc, s[1..]);
      before := [s[0]] + before;
      assert s == [s[0]] + s[1..];
    } else {
      before := [];
    }
  }

  lemma {:induction false} TrimEndMeaning(cc: CharClass, s: string) returns (after: string)
    ensures s == TrimEnd(cc, s) + after && AllWhitespace(cc, after)
    ensures var t := TrimEnd(cc, s); t != [] ==> t[0] == s[0] && !cc.isWhitespace(t[|t| - 1])
  {
    if s != [] && cc.isWhitespace(s[|s| - 1]) {
      after := TrimEndMeaning(cc, s[..|s| - 1]);
      after := after + [s[|s| - 1]];
      assert s == s[..|s| - 1] + [s[|s| - 1]];
    } else {
      after := [];
    }
  }

  /** A line without one final carriage return. */
  function StripCr(line: string): string {
    if line != [] && line[|line| - 1] == '\r' then line[..|line| - 1] else line
  }

  /** The order of `str::cmp`: lexicographic. */
  predicate StrLe(a: string, b: string) {
    a == [] || (b != [] && (a[0] < b[0] || (a[0] == b[0] && StrLe(a[1..], b[1..]))))
  }

  /** The first character in which the two differ is `k`, and it is smaller in `a`. */
  predicate SmallerAt(a: string, b: string, k: nat) {
    k < |a| && k < |b| && a[..k] == b[..k] && a[k] < b[k]
  }

  /** A prefix comes first, and otherwise the first character that differs decides. */
  lemma {:induction false} StrLeMeaning(a: string, b: string)
    ensures StrLe(a, b) <==> a <= b || exists k: nat :: SmallerAt(a, b, k)
  {
    if a != [] && b != [] {
      StrLeMeaning(a[1..], b[1..]);
      PrefixHead(a, b);
      forall k: nat ensures SmallerAt(a, b, k) <==> if k == 0 then a[0] < b[0]
                                                     else a[0] == b[0] && SmallerAt(a[1..], b[1..], k - 1)
      {
        SmallerHead(a, b, k);
      }
      hide SmallerAt;
      if k: nat :| SmallerAt(a[1..], b[1..], k) {
        assert a[0] == b[0] ==> SmallerAt(a, b, k + 1);
      }
      assert a[0] < b[0] ==> SmallerAt(a, b, 0);
    }
  }

  lemma {:induction false} PrefixHead(a: string, b: string)
    requires a != [] && b != []
    ensures a <= b <==> a[0] == b[0] && a[1..] <= b[1..]
  {
    assert a == [a[0]] + a[1..] && b == [b[0]] + b[1..];
    if a[0] == b[0] && a[1..] <= b[1..] {
      forall i | 0 <= i < |a| ensures a[i] == b[i] {
        if i > 0 {
          assert a[1..][i - 1] == b[1..][i - 1];
        }
      }
    }
  }

  lemma {:induction false} SmallerHead(a: string, b: string, k: nat)
    requires a != [] && b != []
    ensures SmallerAt(a, b, k) <==> if k == 0 then a[0] < b[0]
                                    else a[0] == b[0] && SmallerAt(a[1..], b[1..], k - 1)
  {
    if 0 < k < |a| && k < |b| {
      assert a[..k] == [a[0]] + a[1..][..k - 1] && b[..k] == [b[0]] + b[1..][..k - 1];
      assert a[..k] == b[..k] ==> a[..k][0] == b[..k][0] && a[..k][1..] == b[..k][1..];
      assert a[..k][1..] == a[1..][..k - 1] && b[..k][1..] == b[1..][..k - 1];
    }
  }

  lemma {:induction false} StrLeReflexive(a: string)
    ensures StrLe(a, a)
  {
    if a != [] {
      StrLeReflexive(a[1..]);
    }
  }

  lemma {:induction false} StrLeTotal(a: string, b: string)
    ensures StrLe(a, b) || StrLe(b, a)
  {
    if a != [] && b != [] {
      StrLeTotal(a[1..], b[1..]);
    }
  }

  lemma {:induction false} StrLeAntisymmetric(a: string, b: string)
    requires StrLe(a, b) && StrLe(b, a)
    ensures a == b
  {
    if a != [] && b != [] {
      StrLeAntisymmetric(a[1..], b[1..]);
      assert a == [a[0]] + a[1..] && b == [b[0]] + b[1..];
    }
  }

  lemma {:induction false} StrLeTransitive(a: string, b: string, c: string)
    requires StrLe(a, b) && StrLe(b, c)
    ensures StrLe(a, c)
  {
    if a != [] && a[0] == b[0] && b[0] == c[0] {
      StrLeTransitive(a[1..], b[1..], c[1..]);
    }
  }

  function Concat(ss: seq<string>): string {
    if ss == [] then [] else ss[0] + Concat(ss[1..])
  }

  lemma {:induction false} ConcatAppend(a: seq<string>, b: seq<string>)
    ensures Concat(a + b) == Concat(a) + Concat(b)
  {
    if a == [] {
      assert a + b == b;
    } else {
      assert (a + b)[1..] == a[1..] + b;
      ConcatAppend(a[1..], b);
    }
  }
}
