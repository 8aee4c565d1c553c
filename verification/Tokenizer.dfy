/** The code-aware tokenizer behind token-aligned diffs. */
module Tokenizer {
  import opened Prelude

  datatype Token = Token(lexeme: string, start: nat, end: nat)

  predicate IsAsciiDigit(c: char) { '0' <= c <= '9' }

  predicate IsAsciiAlphanumeric(c: char) {
    IsAsciiDigit(c) || 'a' <= c <= 'z' || 'A' <= c <= 'Z'
  }

  predicate IsQuote(c: char) { c == '"' || c == '\'' || c == '`' }

  predicate IsOperatorOrDelimiter(c: char) {
    c in "+-*/%=<>!&|^~?@;,.:(){}[]"
  }

  const MULTI_CHAR_OPS: seq<string> := [
    "==", "!=", "<=", ">=", "&&", "||", "::", "->", "=>", "..", "++", "--",
    "+=", "-=", "*=", "/=", "%=", "&=", "|=", "^=", "<<", ">>"]

  /** `try_match_multi_char_op`. */
  function TryMatchMultiCharOp(c: char, peek: Option<char>): (op: Option<string>)
    ensures op.Some? ==> peek.Some? && op.value == [c, peek.value]
  {
    if peek.Some? && [c, peek.value] in MULTI_CHAR_OPS then Some([c, peek.value]) else None
  }

  predicate StartsNumber(c: string, i: nat, end: nat)
    requires i < end <= |c|
  {
    IsAsciiDigit(c[i]) || (c[i] == '.' && i + 1 < end && IsAsciiDigit(c[i + 1]))
  }

  predicate HasRadixPrefix(c: string, i: nat, end: nat)
    requires i < end <= |c|
  {
    c[i] == '0' && i + 1 < end && c[i + 1] in "xXoObB"
  }

  /** First position at or after `i` whose character is not in `inClass`. */
  function RunEnd(c: string, i: nat, end: nat, inClass: char -> bool): (e: nat)
    requires i <= end <= |c|
    ensures i <= e <= end
    ensures forall k | i <= k < e :: inClass(c[k])
    ensures e < end ==> !inClass(c[e])
    decreases end - i
  {
    if i < end && inClass(c[i]) then RunEnd(c, i + 1, end, inClass) else i
  }

  /** After the closing quote, or `end` for an unterminated literal. */
  function StringEnd(c: string, i: nat, end: nat, quote: char, escaped: bool): (e: nat)
    requires i <= end <= |c|
    ensures i <= e <= end
    decreases end - i
  {
    if i == end then end
    else if escaped then StringEnd(c, i + 1, end, quote, false)
    else if c[i] == '\\' then StringEnd(c, i + 1, end, quote, true)
    else if c[i] == quote then i + 1
    else StringEnd(c, i + 1, end, quote, false)
  }

  /** Digits, dots and underscores; an exponent mark that is not the last character takes a sign with it. */
  function NumberEnd(c: string, i: nat, end: nat): (e: nat)
    requires i <= end <= |c|
    ensures i <= e <= end
    decreases end - i
  {
    if i == end then i
    else if IsAsciiDigit(c[i]) || c[i] == '.' || c[i] == '_' then NumberEnd(c, i + 1, end)
    else if (c[i] == 'e' || c[i] == 'E') && i + 1 < end then
      if c[i + 1] == '+' || c[i + 1] == '-' then NumberEnd(c, i + 2, end) else NumberEnd(c, i + 1, end)
    else i
  }

  predicate IsRadixDigit(c: char) { IsAsciiAlphanumeric(c) || c == '_' }

  predicate IsIdentifierChar(cc: CharClass, c: char) { cc.isAlphanumeric(c) || c == '_' }

  function IdentifierEnd(cc: CharClass, c: string, i: nat, end: nat): (e: nat)
    requires i <= end <= |c|
    ensures i <= e <= end
    ensures i < end && IsIdentifierChar(cc, c[i]) ==> i < e
  {
    RunEnd(c, i, end, ch => IsIdentifierChar(cc, ch))
  }

  function Peek(c: string, i: nat, end: nat): Option<char>
    requires i < end <= |c|
  {
    if i + 1 < end then Some(c[i + 1]) else None
  }

  /** End of the token that starts at the non-blank position `i`. */
  function TokenEnd(cc: CharClass, c: string, i: nat, end: nat): (e: nat)
    requires i < end <= |c|
    ensures i < e <= end
  {
    if TryMatchMultiCharOp(c[i], Peek(c, i, end)).Some? then i + 2
    else if IsQuote(c[i]) then StringEnd(c, i + 1, end, c[i], false)
    else if StartsNumber(c, i, end) then
      if HasRadixPrefix(c, i, end) then RunEnd(c, i + 2, end, IsRadixDigit) else NumberEnd(c, i, end)
    else if cc.isAlphabetic(c[i]) || c[i] == '_' then IdentifierEnd(cc, c, i, end)
    else i + 1
  }

  ghost function Tokens(cc: CharClass, c: string, i: nat, end: nat): seq<Token>
    requires end <= |c|
    decreases if i < end then end - i else 0
  {
    if i >= end then []
    else if cc.isWhitespace(c[i]) then Tokens(cc, c, i + 1, end)
    else
      var e := TokenEnd(cc, c, i, end);
      [Token(c[i..e], i, e)] + Tokens(cc, c, e, end)
  }

  // ----- What a token list guarantees -----

  predicate Blank(cc: CharClass, c: string, i: nat, j: nat)
    requires j <= |c|
  {
    forall p | i <= p < j :: cc.isWhitespace(c[p])
  }

  /** Ordered, disjoint, non-empty pieces of `c[i..end]` with their own text, and only blanks between them. */
  ghost predicate Tokenizes(cc: CharClass, c: string, ts: seq<Token>, i: nat, end: nat)
    requires end <= |c|
    decreases ts
  {
    if ts == [] then Blank(cc, c, i, end) else
    var t := ts[0];
    && i <= t.start < t.end <= end
    && t.lexeme == c[t.start..t.end]
    && !cc.isWhitespace(c[t.start])
    && Blank(cc, c, i, t.start)
    && Tokenizes(cc, c, ts[1..], t.end, end)
  }

  lemma {:induction false} TokensTokenize(cc: CharClass, c: string, i: nat, end: nat)
    requires end <= |c|
    ensures Tokenizes(cc, c, Tokens(cc, c, i, end), i, end)
    decreases if i < end then end - i else 0
  {
    hide TokenEnd;
    if i >= end {
    } else if cc.isWhitespace(c[i]) {
      TokensTokenize(cc, c, i + 1, end);
    } else {
      var e := TokenEnd(cc, c, i, end);
      TokensTokenize(cc, c, e, end);
      assert Tokens(cc, c, i, end)[1..] == Tokens(cc, c, e, end);
    }
  }

  /** Tokens by index: bounds, text, order. */
  ghost predicate OrderedTokens(c: string, ts: seq<Token>, i: nat, end: nat) {
    && (forall k | 0 <= k < |ts| :: i <= ts[k].start < ts[k].end <= end <= |c|)
    && (forall k | 0 <= k < |ts| :: ts[k].lexeme == c[ts[k].start..ts[k].end])
    && (forall k, m | 0 <= k < m < |ts| :: ts[k].end <= ts[m].start)
  }

  lemma {:induction false} TokenizesOrdered(cc: CharClass, c: string, ts: seq<Token>, i: nat, end: nat)
    requires end <= |c| && Tokenizes(cc, c, ts, i, end)
    ensures OrderedTokens(c, ts, i, end)
  {
    if ts != [] {
      TokenizesOrdered(cc, c, ts[1..], ts[0].end, end);
      assert ts == [ts[0]] + ts[1..];
    }
  }

  /** Between two tokens, and after the last one, there are only blanks. */
  lemma {:induction false} BlankAfterToken(cc: CharClass, c: string, ts: seq<Token>, i: nat, end: nat, k: nat)
    requires end <= |c| && Tokenizes(cc, c, ts, i, end) && k < |ts|
    ensures k + 1 < |ts| ==> ts[k + 1].start <= |c| && Blank(cc, c, ts[k].end, ts[k + 1].start)
    ensures k + 1 == |ts| ==> Blank(cc, c, ts[k].end, end)
    decreases k
  {
    if k > 0 {
      BlankAfterToken(cc, c, ts[1..], ts[0].end, end, k - 1);
    } else if |ts| > 1 {
      assert ts[1..][0] == ts[1];
    } else {
      assert ts[1..] == [];
    }
  }

  /** Every non-blank character of the range lies in a token. */
  lemma {:induction false} NonBlankIsInToken(cc: CharClass, c: string, ts: seq<Token>, i: nat, end: nat, p: nat)
    requires end <= |c| && Tokenizes(cc, c, ts, i, end)
    requires i <= p < end && !cc.isWhitespace(c[p])
    ensures exists k :: 0 <= k < |ts| && ts[k].start <= p < ts[k].end
  {
    if ts[0].end <= p {
      NonBlankIsInToken(cc, c, ts[1..], ts[0].end, end, p);
      var k :| 0 <= k < |ts[1..]| && ts[1..][k].start <= p < ts[1..][k].end;
      assert ts[k + 1] == ts[1..][k];
    } else {
      assert ts[0].start <= p;
    }
  }

  /** Character `k` is escaped when an unescaped backslash comes before it; `escaped` says so for `i`. */
  predicate EscapedAt(c: string, i: nat, k: nat, escaped: bool)
    requires i <= k <= |c|
    decreases k
  {
    if k == i then escaped else c[k - 1] == '\\' && !EscapedAt(c, i, k - 1, escaped)
  }

  predicate Closes(c: string, i: nat, k: nat, quote: char, escaped: bool)
    requires i <= k < |c|
  {
    c[k] == quote && !EscapedAt(c, i, k, escaped)
  }

  /** A string literal ends right after its first unescaped closing quote, or at the end of the range. */
  lemma {:induction false} StringEndIsFirstClosingQuote(c: string, i: nat, end: nat, quote: char, escaped: bool)
    requires i <= end <= |c| && quote != '\\'
    ensures var e := StringEnd(c, i, end, quote, escaped);
            && (forall k | i <= k < e - 1 :: !Closes(c, i, k, quote, escaped))
            && (e < end ==> i < e && Closes(c, i, e - 1, quote, escaped))
    decreases end - i
  {
    if i < end && !Closes(c, i, i, quote, escaped) {
      var escaped' := !escaped && c[i] == '\\';
      StringEndIsFirstClosingQuote(c, i + 1, end, quote, escaped');
      var e := StringEnd(c, i, end, quote, escaped);
      forall k | i < k < end
        ensures EscapedAt(c, i, k, escaped) == EscapedAt(c, i + 1, k, escaped')
      {
        EscapedFromNext(c, i, k, escaped);
      }
      forall k | i <= k < e - 1
        ensures !Closes(c, i, k, quote, escaped)
      {
        if k > i {
          assert !Closes(c, i + 1, k, quote, escaped');
        }
      }
    }
  }

  lemma {:induction false} EscapedFromNext(c: string, i: nat, k: nat, escaped: bool)
    requires i < k <= |c|
    ensures EscapedAt(c, i, k, escaped) == EscapedAt(c, i + 1, k, !escaped && c[i] == '\\')
    decreases k
  {
    if k > i + 1 {
      EscapedFromNext(c, i, k - 1, escaped);
    } else {
      assert EscapedAt(c, i, i, escaped) == escaped;
    }
  }

  // ----- Where each kind of token ends -----

  /** `e` is the first position from `from` on that does not go on, or the end. */
  ghost predicate StopsAt(from: nat, e: nat, end: nat, goesOn: int -> bool) {
    from <= e <= end && (forall k | from <= k < e :: goesOn(k)) && (e < end ==> !goesOn(e))
  }

  /** The operators of two characters. */
  predicate IsOperatorPair(a: char, b: char) {
    || (b == '=' && a in "=!<>+-*/%&|^")
    || (a == b && a in "&|:.+-<>")
    || (b == '>' && a in "-=")
  }

  lemma {:induction false} PairIff(a: char, b: char)
    ensures [a, b] in MULTI_CHAR_OPS <==> IsOperatorPair(a, b)
  {
    assert [a, b][0] == a && [a, b][1] == b;
    var ops := MULTI_CHAR_OPS;
    if [a, b] in ops {
      var k :| 0 <= k < |ops| && ops[k] == [a, b];
      assert ops[k][0] == a && ops[k][1] == b;
    }
    PairsEqual(a, b);
    PairsDouble(a, b);
  }

  lemma {:induction false} PairsEqual(a: char, b: char)
    ensures (b == '=' && a in "=!<>+-*/%&|^") || (b == '>' && a in "-=") ==> [a, b] in MULTI_CHAR_OPS
  {
    var ops := MULTI_CHAR_OPS;
    assert ops[0] == ['=', '='] && ops[1] == ['!', '='] && ops[2] == ['<', '='] && ops[3] == ['>', '='];
    assert ops[7] == ['-', '>'] && ops[8] == ['=', '>'];
    assert ops[12] == ['+', '='] && ops[13] == ['-', '='] && ops[14] == ['*', '='] && ops[15] == ['/', '='];
    assert ops[16] == ['%', '='] && ops[17] == ['&', '='] && ops[18] == ['|', '='] && ops[19] == ['^', '='];
  }

  lemma {:induction false} PairsDouble(a: char, b: char)
    ensures a == b && a in "&|:.+-<>" ==> [a, b] in MULTI_CHAR_OPS
  {
    var ops := MULTI_CHAR_OPS;
    assert ops[4] == ['&', '&'] && ops[5] == ['|', '|'] && ops[6] == [':', ':'] && ops[9] == ['.', '.'];
    assert ops[10] == ['+', '+'] && ops[11] == ['-', '-'] && ops[20] == ['<', '<'] && ops[21] == ['>', '>'];
  }

  /**
   * Position `k` belongs to the decimal number that starts at `start`: a digit, dot or underscore, an exponent mark
   * that is not the last character, or a sign right after an exponent mark.
   */
  predicate InNumber(c: string, start: nat, k: int, end: nat) {
    && 0 <= k < |c|
    && (|| '0' <= c[k] <= '9' || c[k] == '.' || c[k] == '_'
        || ((c[k] == 'e' || c[k] == 'E') && k + 1 < end)
        || ((c[k] == '+' || c[k] == '-') && k > start && (c[k - 1] == 'e' || c[k - 1] == 'E')))
  }

  lemma {:induction false} NumberEndStops(c: string, start: nat, i: nat, end: nat)
    requires start <= i <= end <= |c|
    requires start < i < end && (c[i] == '+' || c[i] == '-') ==> c[i - 1] != 'e' && c[i - 1] != 'E'
    ensures StopsAt(i, NumberEnd(c, i, end), end, k => InNumber(c, start, k, end))
    decreases end - i
  {
    if i < end {
      if IsAsciiDigit(c[i]) || c[i] == '.' || c[i] == '_' {
        NumberEndStops(c, start, i + 1, end);
      } else if (c[i] == 'e' || c[i] == 'E') && i + 1 < end {
        if c[i + 1] == '+' || c[i + 1] == '-' {
          NumberEndStops(c, start, i + 2, end);
        } else {
          NumberEndStops(c, start, i + 1, end);
        }
      }
    }
  }

  lemma {:induction false} RunEndStops(c: string, i: nat, end: nat, inClass: char -> bool)
    requires i <= end <= |c|
    ensures StopsAt(i, RunEnd(c, i, end, inClass), end, k => 0 <= k < |c| && inClass(c[k]))
  {
  }

  /** A number with a radix prefix goes on with ASCII letters, digits and underscores. */
  predicate InRadixNumber(c: string, k: int) {
    && 0 <= k < |c|
    && ('0' <= c[k] <= '9' || 'a' <= c[k] <= 'z' || 'A' <= c[k] <= 'Z' || c[k] == '_')
  }

  predicate InIdentifier(cc: CharClass, c: string, k: int) {
    0 <= k < |c| && (cc.isAlphanumeric(c[k]) || c[k] == '_')
  }

  /** The end of a quoted text: right after the first quote that is not escaped, or the end. */
  ghost predicate ClosedAt(c: string, from: nat, quote: char, e: nat, end: nat)
    requires from <= e <= end <= |c|
  {
    && (forall k | from <= k < e - 1 :: !Closes(c, from, k, quote, false))
    && (e < end ==> from < e && Closes(c, from, e - 1, quote, false))
  }

  /** What ends the token that starts at `i`, by what starts it. */
  lemma {:induction false} TokenEndMeaning(cc: CharClass, c: string, i: nat, end: nat)
    requires i < end <= |c|
    ensures var e := TokenEnd(cc, c, i, end);
            && i < e <= end
            && if i + 1 < end && IsOperatorPair(c[i], c[i + 1]) then e == i + 2
               else if c[i] == '"' || c[i] == '\'' || c[i] == '`' then ClosedAt(c, i + 1, c[i], e, end)
               else if '0' <= c[i] <= '9' || (c[i] == '.' && i + 1 < end && '0' <= c[i + 1] <= '9') then
                 if c[i] == '0' && i + 1 < end && c[i + 1] in "xXoObB" then
                   StopsAt(i + 2, e, end, k => InRadixNumber(c, k))
                 else StopsAt(i, e, end, k => InNumber(c, i, k, end))
               else if cc.isAlphabetic(c[i]) || c[i] == '_' then StopsAt(i, e, end, k => InIdentifier(cc, c, k))
               else e == i + 1
  {
    if i + 1 < end {
      PairIff(c[i], c[i + 1]);
    }
    hide MULTI_CHAR_OPS, NumberEnd, RunEnd, StringEnd, IsOperatorPair, Closes;
    if i + 1 < end && IsOperatorPair(c[i], c[i + 1]) {
    } else if IsQuote(c[i]) {
      StringEndIsFirstClosingQuote(c, i + 1, end, c[i], false);
    } else if StartsNumber(c, i, end) {
      if HasRadixPrefix(c, i, end) {
        RunEndStops(c, i + 2, end, IsRadixDigit);
      } else {
        NumberEndStops(c, i, i, end);
      }
    } else if cc.isAlphabetic(c[i]) || c[i] == '_' {
      RunEndStops(c, i, end, ch => IsIdentifierChar(cc, ch));
    }
  }

  // ----- The loops -----

  method ScanString(content: string, start: nat, end: nat) returns (lexeme: string, i: nat)
    requires start < end <= |content|
    ensures i == StringEnd(content, start + 1, end, content[start], false) && lexeme == content[start..i]
  {
    var quote, escaped := content[start], false;
    lexeme, i := [quote], start + 1;
    while i < end
      invariant start < i <= end && lexeme == content[start..i]
      invariant StringEnd(content, i, end, quote, escaped) == StringEnd(content, start + 1, end, quote, false)
    {
      var ch := content[i];
      lexeme := lexeme + [ch];
      if escaped {
        escaped := false;
      } else if ch == '\\' {
        escaped := true;
      } else if ch == quote {
        i := i + 1;
        return;
      }
      i := i + 1;
    }
  }

  method ScanRadixNumber(content: string, start: nat, end: nat) returns (lexeme: string, i: nat)
    requires start < end <= |content| && HasRadixPrefix(content, start, end)
    ensures i == RunEnd(content, start + 2, end, IsRadixDigit) && lexeme == content[start..i]
  {
    lexeme, i := [content[start], content[start + 1]], start + 2;
    while i < end
      invariant start + 2 <= i <= end && lexeme == content[start..i]
      invariant RunEnd(content, i, end, IsRadixDigit) == RunEnd(content, start + 2, end, IsRadixDigit)
    {
      var ch := content[i];
      if IsAsciiAlphanumeric(ch) || ch == '_' {
        lexeme, i := lexeme + [ch], i + 1;
      } else {
        break;
      }
    }
  }

  method ScanNumber(content: string, start: nat, end: nat) returns (lexeme: string, i: nat)
    requires start < end <= |content|
    ensures i == NumberEnd(content, start, end) && lexeme == content[start..i]
  {
    lexeme, i := "", start;
    while i < end
      invariant start <= i <= end && lexeme == content[start..i]
      invariant NumberEnd(content, i, end) == NumberEnd(content, start, end)
    {
      var ch := content[i];
      if IsAsciiDigit(ch) || ch == '.' || ch == '_' {
        lexeme, i := lexeme + [ch], i + 1;
      } else if (ch == 'e' || ch == 'E') && i + 1 < end {
        lexeme, i := lexeme + [ch], i + 1;
        if i < end {
          var sign := content[i];
          if sign == '+' || sign == '-' {
            lexeme, i := lexeme + [sign], i + 1;
          }
        }
      } else {
        break;
      }
    }
  }

  method ScanIdentifier(cc: CharClass, content: string, start: nat, end: nat) returns (lexeme: string, i: nat)
    requires start < end <= |content|
    ensures i == IdentifierEnd(cc, content, start, end) && lexeme == content[start..i]
  {
    lexeme, i := "", start;
    while i < end
      invariant start <= i <= end && lexeme == content[start..i]
      invariant IdentifierEnd(cc, content, i, end) == IdentifierEnd(cc, content, start, end)
    {
      var ch := content[i];
      if cc.isAlphanumeric(ch) || ch == '_' {
        lexeme, i := lexeme + [ch], i + 1;
      } else {
        break;
      }
    }
  }

  lemma {:induction false} SkipBlank(cc: CharClass, c: string, i: nat, end: nat)
    requires end <= |c|
    ensures i >= end ==> Tokens(cc, c, i, end) == []
    ensures i < end && cc.isWhitespace(c[i]) ==> Tokens(cc, c, i, end) == Tokens(cc, c, i + 1, end)
  {
  }

  /** The next token is `[i, e)`. */
  lemma {:induction false} TakeToken(cc: CharClass, c: string, done: seq<Token>, i: nat, end: nat)
    requires i < end <= |c| && !cc.isWhitespace(c[i])
    ensures var e := TokenEnd(cc, c, i, end);
            done + Tokens(cc, c, i, end) == (done + [Token(c[i..e], i, e)]) + Tokens(cc, c, e, end)
  {
  }

  /** The token at `i`: an operator, a string, a number, an identifier or a single character. */
  method NextToken(cc: CharClass, content: string, i: nat, end: nat) returns (token: Token)
    requires i < end <= |content| && !cc.isWhitespace(content[i])
    ensures var e := TokenEnd(cc, content, i, end); token == Token(content[i..e], i, e)
  {
    hide StringEnd, NumberEnd, RunEnd, IdentifierEnd, TryMatchMultiCharOp, StartsNumber, HasRadixPrefix,
         IsOperatorOrDelimiter;
    var ch := content[i];
    var peek := if i + 1 < end then Some(content[i + 1]) else None;
    var op := TryMatchMultiCharOp(ch, peek);
    if op.Some? {
      assert op.value == content[i..i + 2];
      return Token(op.value, i, i + |op.value|);
    }
    if ch == '"' || ch == '\'' || ch == '`' {
      var lexeme, e := ScanString(content, i, end);
      return Token(lexeme, i, e);
    }
    if StartsNumber(content, i, end) {
      var lexeme, e;
      if HasRadixPrefix(content, i, end) {
        lexeme, e := ScanRadixNumber(content, i, end);
      } else {
        lexeme, e := ScanNumber(content, i, end);
      }
      return Token(lexeme, i, e);
    }
    if cc.isAlphabetic(ch) || ch == '_' {
      var lexeme, e := ScanIdentifier(cc, content, i, end);
      return Token(lexeme, i, e);
    }
    assert [ch] == content[i..i + 1];
    if IsOperatorOrDelimiter(ch) {
      return Token([ch], i, i + 1);
    }
    return Token([ch], i, i + 1);
  }

  /** `tokenize_non_whitespace`. */
  method TokenizeNonWhitespace(cc: CharClass, content: string, start: nat, end: nat) returns (tokens: seq<Token>)
    requires end <= |content|
    ensures tokens == Tokens(cc, content, start, end)
  {
    hide Tokens, TokenEnd;
    tokens := [];
    var i := start;
    while i < end
      invariant start <= i && (start < end ==> i <= end)
      invariant tokens + Tokens(cc, content, i, end) == Tokens(cc, content, start, end)
    {
      var ch := content[i];
      if cc.isWhitespace(ch) {
        SkipBlank(cc, content, i, end);
        i := i + 1;
        continue;
      }
      TakeToken(cc, content, tokens, i, end);
      var token := NextToken(cc, content, i, end);
      tokens := tokens + [token];
      i := token.end;
    }
    SkipBlank(cc, content, i, end);
  }
}
