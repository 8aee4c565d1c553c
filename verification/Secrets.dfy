/**
 * Secret redaction (`extract_tokens`, `redact_secret`, `redact_secrets_in_text`).  The statistical
 * test `is_random` is an arbitrary predicate on the token.  A secret character is ASCII, so a token
 * has as many characters as bytes.
 */
module Secrets {

  const MIN_SECRET_LENGTH := 15
  const MAX_SECRET_LENGTH := 90
  const REDACT_VISIBLE_CHARS := 4
  const STARS := "********"

  type Predicate = string -> bool

  datatype Span = Span(start: nat, end: nat)

  predicate IsSecretChar(c: char) {
    'a' <= c <= 'z' || 'A' <= c <= 'Z' || '0' <= c <= '9' || c in "+/_-.~"
  }

  lemma {:induction false} StarIsNotSecret()
    ensures !IsSecretChar('*') && forall i | 0 <= i < |STARS| :: STARS[i] == '*'
  {
  }

  /** The letters, the digits and six more characters. */
  lemma {:induction false} SecretAlphabet(c: char)
    ensures IsSecretChar(c) <==> || c in "abcdefghijklm" || c in "nopqrstuvwxyz" || c in "ABCDEFGHIJKLM"
                                 || c in "NOPQRSTUVWXYZ" || c in "0123456789" || c in "+/_-.~"
  {
    hide *;
    LetterRow('a', "abcdefghijklm", c);
    LetterRow('n', "nopqrstuvwxyz", c);
    LetterRow('A', "ABCDEFGHIJKLM", c);
    LetterRow('N', "NOPQRSTUVWXYZ", c);
    LetterRow('0', "0123456789", c);
    SecretRanges(c);
  }

  lemma {:induction false} SecretRanges(c: char)
    ensures IsSecretChar(c) <==> 'a' <= c <= 'm' || 'n' <= c <= 'z' || 'A' <= c <= 'M' || 'N' <= c <= 'Z'
                                 || '0' <= c <= '9' || c in "+/_-.~"
  {
  }

  lemma {:induction false} LetterRow(first: char, row: string, c: char)
    requires row != [] && first as int + |row| <= 0x7F && forall i | 0 <= i < |row| :: row[i] == first + i as char
    ensures c in row <==> first <= c <= row[|row| - 1]
  {
    if first <= c <= row[|row| - 1] {
      assert row[c as int - first as int] == c;
    }
  }

  // ----- What counts as a secret -----

  ghost predicate SecretChars(s: string, a: nat, b: nat) {
    a <= b <= |s| && forall i | a <= i < b :: IsSecretChar(s[i])
  }

  /** A run of secret characters that cannot be extended on either side. */
  ghost predicate MaximalRun(s: string, a: nat, b: nat) {
    && a < b && SecretChars(s, a, b)
    && (a == 0 || !IsSecretChar(s[a - 1]))
    && (b == |s| || !IsSecretChar(s[b]))
  }

  ghost predicate Token(s: string, a: nat, b: nat) {
    MaximalRun(s, a, b) && 15 <= b - a <= 90
  }

  ghost predicate Secret(isRandom: Predicate, s: string, a: nat, b: nat) {
    Token(s, a, b) && isRandom(s[a..b])
  }

  ghost predicate Increasing(spans: seq<Span>) {
    forall i, j | 0 <= i < j < |spans| :: spans[i].end < spans[j].start
  }

  /** Exactly the tokens of `s`, in order. */
  ghost predicate Tokens(s: string, spans: seq<Span>) {
    && Increasing(spans)
    && (forall k | 0 <= k < |spans| :: Token(s, spans[k].start, spans[k].end))
    && (forall a: nat, b: nat | Token(s, a, b) :: Span(a, b) in spans)
  }

  /** Exactly the secrets of `s` that start at or after `from`, in order. */
  ghost predicate SecretsFrom(isRandom: Predicate, s: string, spans: seq<Span>, from: nat) {
    && Increasing(spans)
    && (forall k | 0 <= k < |spans| :: from <= spans[k].start && Secret(isRandom, s, spans[k].start, spans[k].end))
    && (forall a: nat, b: nat | Secret(isRandom, s, a, b) && from <= a :: Span(a, b) in spans)
  }

  ghost predicate NoSecrets(isRandom: Predicate, s: string) {
    forall a: nat, b: nat :: !Secret(isRandom, s, a, b)
  }

  // ----- Extraction -----

  /** No run crosses position `i`. */
  ghost predicate Boundary(s: string, i: nat) {
    i <= |s| && (i == 0 || i == |s| || !IsSecretChar(s[i - 1]) || !IsSecretChar(s[i]))
  }

  /** The tokens that end at or before `i`, in order. */
  ghost predicate TokensUpTo(s: string, spans: seq<Span>, i: nat) {
    && Increasing(spans)
    && (forall k | 0 <= k < |spans| :: Token(s, spans[k].start, spans[k].end) && spans[k].end <= i)
    && (forall a: nat, b: nat | Token(s, a, b) && b <= i :: Span(a, b) in spans)
  }

  /** Two maximal runs with a common position are the same. */
  lemma {:induction false} RunsCoincide(s: string, a: nat, b: nat, c: nat, d: nat)
    requires MaximalRun(s, a, b) && MaximalRun(s, c, d) && a < d && c < b
    ensures a == c && b == d
  {
  }

  lemma {:induction false} SkipNonSecret(s: string, spans: seq<Span>, i: nat)
    requires i < |s| && !IsSecretChar(s[i]) && TokensUpTo(s, spans, i)
    ensures TokensUpTo(s, spans, i + 1) && Boundary(s, i + 1)
  {
    forall a: nat, b: nat | Token(s, a, b) && b <= i + 1 ensures Span(a, b) in spans {
    }
  }

  lemma {:induction false} TakeRun(s: string, spans: seq<Span>, start: nat, i: nat)
    requires MaximalRun(s, start, i) && TokensUpTo(s, spans, start)
    ensures TokensUpTo(s,
                       if MIN_SECRET_LENGTH <= i - start <= MAX_SECRET_LENGTH then spans + [Span(start, i)] else spans,
                       i)
  {
    var next := if MIN_SECRET_LENGTH <= i - start <= MAX_SECRET_LENGTH then spans + [Span(start, i)] else spans;
    forall a: nat, b: nat | Token(s, a, b) && b <= i ensures Span(a, b) in next {
      if b > start {
        RunsCoincide(s, a, b, start, i);
        assert next[|spans|] == Span(start, i);
      } else {
        assert Span(a, b) in spans;
      }
    }
    forall k | 0 <= k < |spans| && |next| > |spans| ensures spans[k].end < start {
      assert Token(s, spans[k].start, spans[k].end);
    }
  }

  /** `extract_tokens`. */
  method ExtractTokens(text: string) returns (tokens: seq<Span>)
    ensures Tokens(text, tokens)
  {
    tokens := [];
    var i: nat := 0;
    while i < |text|
      invariant Boundary(text, i) && TokensUpTo(text, tokens, i)
    {
      if !IsSecretChar(text[i]) {
        SkipNonSecret(text, tokens, i);
        i := i + 1;
        continue;
      }
      var start := i;
      while i < |text| && IsSecretChar(text[i])
        invariant start <= i <= |text| && SecretChars(text, start, i)
      {
        i := i + 1;
      }
      assert MaximalRun(text, start, i);
      TakeRun(text, tokens, start, i);
      if MIN_SECRET_LENGTH <= i - start <= MAX_SECRET_LENGTH {
        tokens := tokens + [Span(start, i)];
      }
    }
  }

  // ----- Redaction -----

  /** `redact_secret`. */
  function RedactSecret(secret: string): (r: string)
    ensures |r| == if |secret| <= 8 then |secret| else 16
    ensures forall i | REDACT_VISIBLE_CHARS <= i < 12 && |secret| > 8 :: r[i] == '*'
  {
    if |secret| <= REDACT_VISIBLE_CHARS * 2 then seq(|secret|, i => '*')
    else secret[..REDACT_VISIBLE_CHARS] + STARS + secret[|secret| - REDACT_VISIBLE_CHARS..]
  }

  ghost predicate Inside(text: string, spans: seq<Span>, from: nat) {
    && from <= |text| && Increasing(spans)
    && (forall k | 0 <= k < |spans| ::
          from <= spans[k].start && spans[k].start + MIN_SECRET_LENGTH <= spans[k].end <= |text|)
  }

  lemma {:induction false} InsideTail(text: string, spans: seq<Span>, from: nat)
    requires Inside(text, spans, from) && spans != []
    ensures Inside(text, spans[1..], spans[0].end)
    ensures from <= spans[0].start < spans[0].end <= |text|
  {
    forall k | 0 <= k < |spans[1..]| ensures spans[0].end <= spans[1..][k].start && spans[1..][k] == spans[k + 1] {
      assert spans[1..][k] == spans[k + 1];
    }
  }

  /** The text from `from` on with each span masked. */
  ghost function Redacted(text: string, spans: seq<Span>, from: nat): string
    requires Inside(text, spans, from)
    decreases |spans|
  {
    if spans == [] then text[from..]
    else
      InsideTail(text, spans, from);
      text[from..spans[0].start] + RedactSecret(text[spans[0].start..spans[0].end])
      + Redacted(text, spans[1..], spans[0].end)
  }

  /** The tokens that pass the test. */
  function Randoms(isRandom: Predicate, text: string, tokens: seq<Span>): seq<Span>
    requires forall k | 0 <= k < |tokens| :: tokens[k].start <= tokens[k].end <= |text|
  {
    if tokens == [] then []
    else
      (if isRandom(text[tokens[0].start..tokens[0].end]) then [tokens[0]] else [])
      + Randoms(isRandom, text, tokens[1..])
  }

  lemma {:induction false} RandomsMembers(isRandom: Predicate, text: string, tokens: seq<Span>)
    requires Increasing(tokens) && forall k | 0 <= k < |tokens| :: tokens[k].start <= tokens[k].end <= |text|
    ensures Increasing(Randoms(isRandom, text, tokens))
    ensures forall t :: t in Randoms(isRandom, text, tokens) <==>
                        t in tokens && t.start <= t.end <= |text| && isRandom(text[t.start..t.end])
  {
    if tokens != [] {
      var rest := Randoms(isRandom, text, tokens[1..]);
      RandomsMembers(isRandom, text, tokens[1..]);
      forall k | 0 <= k < |rest| ensures tokens[0].end < rest[k].start {
        assert rest[k] in tokens[1..];
      }
      assert forall t :: t in tokens <==> t == tokens[0] || t in tokens[1..];
    }
  }

  lemma {:induction false} RandomTokensAreSecrets(isRandom: Predicate, text: string, tokens: seq<Span>,
                                                  secrets: seq<Span>)
    requires Tokens(text, tokens)
    requires forall k | 0 <= k < |tokens| :: tokens[k].start <= tokens[k].end <= |text|
    requires secrets == Randoms(isRandom, text, tokens)
    ensures SecretsFrom(isRandom, text, secrets, 0) && Inside(text, secrets, 0)
  {
    RandomsMembers(isRandom, text, tokens);
    forall k | 0 <= k < |secrets| ensures Secret(isRandom, text, secrets[k].start, secrets[k].end) {
      assert secrets[k] in secrets;
    }
  }

  lemma {:induction false} RedactedStep(text: string, spans: seq<Span>, i: nat, from: nat)
    requires i < |spans| && Inside(text, spans[i..], from)
    ensures Inside(text, spans[i + 1..], spans[i].end) && from <= spans[i].start < spans[i].end <= |text|
    ensures Redacted(text, spans[i..], from)
         == text[from..spans[i].start] + RedactSecret(text[spans[i].start..spans[i].end])
            + Redacted(text, spans[i + 1..], spans[i].end)
  {
    InsideTail(text, spans[i..], from);
    assert spans[i..][1..] == spans[i + 1..];
  }

  /** The rebuild loop. */
  method Rebuild(text: string, secrets: seq<Span>) returns (result: string)
    requires Inside(text, secrets, 0)
    ensures result == Redacted(text, secrets, 0)
  {
    hide *;
    result := "";
    var prevEnd: nat := 0;
    var i: nat := 0;
    assert secrets[0..] == secrets;
    while i < |secrets|
      invariant i <= |secrets| && Inside(text, secrets[i..], prevEnd)
      invariant result + Redacted(text, secrets[i..], prevEnd) == Redacted(text, secrets, 0)
    {
      RedactedStep(text, secrets, i, prevEnd);
      var before := text[prevEnd..secrets[i].start];
      var mask := RedactSecret(text[secrets[i].start..secrets[i].end]);
      Regroup(result, before, mask, Redacted(text, secrets[i + 1..], secrets[i].end));
      result := result + before + mask;
      prevEnd := secrets[i].end;
      i := i + 1;
    }
    assert secrets[i..] == [];
    InsideBound(text, secrets[i..], prevEnd);
    RestOfText(text, prevEnd);
    result := result + text[prevEnd..];
  }

  lemma {:induction false} Glue(a: string, b: string, c: string)
    ensures a + (b + c) == a + b + c
  {
  }

  lemma {:induction false} Regroup(a: string, b: string, c: string, d: string)
    ensures a + (b + c + d) == a + b + c + d
  {
  }

  /** `result` is the text with exactly its secrets masked, and `count` says how many there are. */
  ghost predicate Redaction(isRandom: Predicate, text: string, secrets: seq<Span>, result: string, count: nat) {
    && SecretsFrom(isRandom, text, secrets, 0) && Inside(text, secrets, 0)
    && result == Redacted(text, secrets, 0) && count == |secrets|
  }

  /** A text has only one list of secrets, so only one redaction. */
  lemma {:induction false} SecretsUnique(isRandom: Predicate, text: string, a: seq<Span>, b: seq<Span>)
    requires SecretsFrom(isRandom, text, a, 0) && SecretsFrom(isRandom, text, b, 0)
    ensures a == b
  {
    SameMembers(isRandom, text, a, b);
    IncreasingUnique(a, b);
  }

  lemma {:induction false} SameMembers(isRandom: Predicate, text: string, a: seq<Span>, b: seq<Span>)
    requires SecretsFrom(isRandom, text, a, 0) && SecretsFrom(isRandom, text, b, 0)
    ensures forall x :: x in a <==> x in b
    ensures forall k | 0 <= k < |a| :: a[k].start < a[k].end
    ensures forall k | 0 <= k < |b| :: b[k].start < b[k].end
  {
    forall x ensures x in a <==> x in b {
      assert x == Span(x.start, x.end);
      if x in a {
        assert Secret(isRandom, text, x.start, x.end);
      }
      if x in b {
        assert Secret(isRandom, text, x.start, x.end);
      }
    }
  }

  lemma {:induction false} IncreasingUnique(a: seq<Span>, b: seq<Span>)
    requires Increasing(a) && Increasing(b) && forall x :: x in a <==> x in b
    requires forall k | 0 <= k < |a| :: a[k].start < a[k].end
    requires forall k | 0 <= k < |b| :: b[k].start < b[k].end
    ensures a == b
  {
    assert b != [] ==> b[0] in b;
    assert a != [] ==> a[0] in a;
    if a != [] && b != [] {
      assert a[0] in b && b[0] in a;
      assert a[0] == b[0];
      TailMembers(a);
      TailMembers(b);
      IncreasingUnique(a[1..], b[1..]);
      assert a == [a[0]] + a[1..] && b == [b[0]] + b[1..];
    }
  }

  lemma {:induction false} TailMembers(a: seq<Span>)
    requires a != [] && Increasing(a) && forall k | 0 <= k < |a| :: a[k].start < a[k].end
    ensures forall x :: x in a[1..] <==> x in a && x != a[0]
  {
    assert a == [a[0]] + a[1..];
  }

  /** `redact_secrets_in_text`: the text with every secret masked, and how many there were. */
  method RedactSecretsInText(isRandom: Predicate, text: string) returns (result: string, count: nat)
    ensures exists secrets :: Redaction(isRandom, text, secrets, result, count)
  {
    var tokens := ExtractTokens(text);
    var secrets := Randoms(isRandom, text, tokens);
    RandomTokensAreSecrets(isRandom, text, tokens, secrets);
    count := |secrets|;
    if secrets == [] {
      NothingToRedact(text);
      result := text;
    } else {
      result := Rebuild(text, secrets);
    }
    hide SecretsFrom, Inside, Redacted;
    assert Redaction(isRandom, text, secrets, result, count);
  }

  lemma {:induction false} InsideBound(text: string, spans: seq<Span>, from: nat)
    requires Inside(text, spans, from)
    ensures from <= |text|
  {
  }

  lemma {:induction false} RestOfText(text: string, from: nat)
    requires from <= |text|
    ensures Inside(text, [], from) && Redacted(text, [], from) == text[from..]
  {
  }

  lemma {:induction false} NothingToRedact(text: string)
    ensures Inside(text, [], 0) && Redacted(text, [], 0) == text
  {
  }

  // ----- Where the characters go -----

  /** How much longer the text before `p` becomes: 16 for each masked secret, less its length. */
  ghost function Growth(spans: seq<Span>, p: nat): int {
    if spans == [] || p < spans[0].end then 0 else 16 - (spans[0].end - spans[0].start) + Growth(spans[1..], p)
  }

  lemma {:induction false} RedactedLength(text: string, spans: seq<Span>, from: nat)
    requires Inside(text, spans, from)
    ensures |Redacted(text, spans, from)| == |text| - from + Growth(spans, |text|)
    decreases |spans|
  {
    if spans != [] {
      InsideTail(text, spans, from);
      RedactedLength(text, spans[1..], spans[0].end);
    }
  }

  /** A character outside every secret is kept, moved by the growth before it. */
  lemma {:induction false} OutsideIsKept(text: string, spans: seq<Span>, from: nat, p: nat)
    requires Inside(text, spans, from) && from <= p < |text|
    requires forall k | 0 <= k < |spans| :: p < spans[k].start || spans[k].end <= p
    ensures 0 <= p - from + Growth(spans, p) < |Redacted(text, spans, from)|
    ensures Redacted(text, spans, from)[p - from + Growth(spans, p)] == text[p]
    decreases |spans|
  {
    if spans != [] {
      InsideTail(text, spans, from);
      FrontAndRest(text, spans, from);
      FrontSize(text, spans, from);
      var front, rest := Front(text, spans, from), Redacted(text, spans[1..], spans[0].end);
      hide Redacted, Front, Inside;
      if p >= spans[0].end {
        OutsideTail(spans, p);
        OutsideIsKept(text, spans[1..], spans[0].end, p);
        assert (front + rest)[|front| + (p - spans[0].end + Growth(spans[1..], p))] == text[p];
      } else {
        assert (front + rest)[p - from] == front[p - from];
      }
    }
  }

  lemma {:induction false} OutsideTail(spans: seq<Span>, p: nat)
    requires spans != [] && forall k | 0 <= k < |spans| :: p < spans[k].start || spans[k].end <= p
    ensures forall k | 0 <= k < |spans[1..]| :: p < spans[1..][k].start || spans[1..][k].end <= p
  {
    assert forall k | 0 <= k < |spans[1..]| :: spans[1..][k] == spans[k + 1];
  }

  lemma {:induction false} FrontSize(text: string, spans: seq<Span>, from: nat)
    requires Inside(text, spans, from) && spans != []
    ensures from <= spans[0].start < spans[0].end <= |text|
    ensures |Front(text, spans, from)| == spans[0].start - from + 16
    ensures forall q | from <= q < spans[0].start :: Front(text, spans, from)[q - from] == text[q]
    ensures MaskAt(Front(text, spans, from), spans[0].start - from, text[spans[0].start..spans[0].end])
  {
    InsideTail(text, spans, from);
  }

  /** The mask of `secret` stands at position `at`. */
  ghost predicate MaskAt(s: string, at: int, secret: string) {
    && 0 <= at && at + 16 <= |s| && |secret| > 8
    && s[at..at + 4] == secret[..4] && s[at + 4..at + 12] == "********"
    && s[at + 12..at + 16] == secret[|secret| - 4..]
  }

  /** The mask of a secret stands where the growth before the secret puts it. */
  lemma {:induction false} SecretIsMasked(text: string, spans: seq<Span>, from: nat, k: nat)
    requires Inside(text, spans, from) && k < |spans|
    ensures spans[k].start < spans[k].end <= |text|
    ensures MaskAt(Redacted(text, spans, from), spans[k].start - from + Growth(spans, spans[k].start),
                   text[spans[k].start..spans[k].end])
    decreases |spans|
  {
    hide *;
    FrontAndRest(text, spans, from);
    FrontSize(text, spans, from);
    var front, rest := Front(text, spans, from), Redacted(text, spans[1..], spans[0].end);
    if k == 0 {
      NoGrowth(spans);
      MaskInFront(front, rest, spans[0].start - from, text[spans[0].start..spans[0].end]);
    } else {
      SecretIsMasked(text, spans[1..], spans[0].end, k - 1);
      GrowthTail(text, spans, from, k);
      MaskInRest(front, rest, spans[k].start - spans[0].end + Growth(spans[1..], spans[k].start),
                 text[spans[k].start..spans[k].end]);
    }
  }

  lemma {:induction false} NoGrowth(spans: seq<Span>)
    requires spans != [] && spans[0].start < spans[0].end
    ensures Growth(spans, spans[0].start) == 0
  {
  }

  lemma {:induction false} GrowthTail(text: string, spans: seq<Span>, from: nat, k: nat)
    requires Inside(text, spans, from) && 0 < k < |spans|
    ensures spans[1..][k - 1] == spans[k] && from <= spans[0].start < spans[0].end < spans[k].start
    ensures Growth(spans, spans[k].start) == 16 - (spans[0].end - spans[0].start) + Growth(spans[1..], spans[k].start)
  {
    InsideTail(text, spans, from);
  }

  lemma {:induction false} MaskInFront(front: string, rest: string, at: int, secret: string)
    requires MaskAt(front, at, secret)
    ensures MaskAt(front + rest, at, secret)
  {
    forall i: int, j | 0 <= i <= j <= |front| ensures (front + rest)[i..j] == front[i..j] {
    }
  }

  lemma {:induction false} MaskInRest(front: string, rest: string, at: int, secret: string)
    requires MaskAt(rest, at, secret)
    ensures MaskAt(front + rest, |front| + at, secret)
  {
    assert (front + rest)[|front| + at..|front| + at + 16] == rest[at..at + 16];
  }

  // ----- A second pass finds nothing -----

  /** A text too short to hold a token. */
  lemma {:induction false} ShortHasNone(isRandom: Predicate, s: string)
    requires |s| < MIN_SECRET_LENGTH
    ensures NoSecrets(isRandom, s)
  {
  }

  lemma {:induction false} LeftRun(x: string, c: char, y: string, a: nat, b: nat)
    requires !IsSecretChar(c) && MaximalRun(x + [c] + y, a, b) && a < |x|
    ensures b <= |x| && MaximalRun(x, a, b) && (x + [c] + y)[a..b] == x[a..b]
  {
    var s := x + [c] + y;
    assert s[|x|] == c;
    assert forall i | 0 <= i < |x| :: s[i] == x[i];
  }

  lemma {:induction false} SuffixRun(s: string, n: nat, a: nat, b: nat)
    requires n <= a && n <= |s| && MaximalRun(s, a, b)
    ensures MaximalRun(s[n..], a - n, b - n) && s[a..b] == s[n..][a - n..b - n]
  {
  }

  lemma {:induction false} RightRun(x: string, c: char, y: string, a: nat, b: nat)
    requires !IsSecretChar(c) && MaximalRun(x + [c] + y, a, b) && a >= |x|
    ensures a > |x| && MaximalRun(y, a - |x| - 1, b - |x| - 1)
    ensures (x + [c] + y)[a..b] == y[a - |x| - 1..b - |x| - 1]
  {
    var s, n := x + [c] + y, |x| + 1;
    assert s[|x|] == c && s[n..] == y;
    assert a > |x|;
    hide MaximalRun;
    SuffixRun(s, n, a, b);
  }

  /** A character that is no secret character separates runs. */
  lemma {:induction false} Join(isRandom: Predicate, x: string, c: char, y: string)
    requires NoSecrets(isRandom, x) && NoSecrets(isRandom, y) && !IsSecretChar(c)
    ensures NoSecrets(isRandom, x + [c] + y)
  {
    forall a: nat, b: nat ensures !Secret(isRandom, x + [c] + y, a, b) {
      if Secret(isRandom, x + [c] + y, a, b) {
        if a < |x| {
          LeftRun(x, c, y, a, b);
          assert Secret(isRandom, x, a, b);
        } else {
          RightRun(x, c, y, a, b);
          assert Secret(isRandom, y, a - |x| - 1, b - |x| - 1);
        }
      }
    }
  }

  lemma {:induction false} SecretOfGap(isRandom: Predicate, text: string, from: nat, to: nat, a: nat, b: nat)
    requires from <= to <= |text| && Secret(isRandom, text[from..to], a, b)
    requires from == 0 || !IsSecretChar(text[from - 1])
    requires to == |text| || !IsSecretChar(text[to])
    ensures a < b <= to - from && Secret(isRandom, text, from + a, from + b)
  {
    var gap := text[from..to];
    assert forall i | 0 <= i < |gap| :: gap[i] == text[from + i];
    assert forall i | from <= i < to :: text[i] == gap[i - from];
    assert MaximalRun(text, from + a, from + b);
    assert gap[a..b] == text[from + a..from + b];
  }

  /** A stretch between separators that reaches no secret of the list holds none. */
  lemma {:induction false} GapHasNone(isRandom: Predicate, text: string, spans: seq<Span>, from: nat, to: nat)
    requires from <= to <= |text| && SecretsFrom(isRandom, text, spans, from)
    requires from == 0 || !IsSecretChar(text[from - 1])
    requires to == |text| || !IsSecretChar(text[to])
    requires forall k | 0 <= k < |spans| :: to <= spans[k].start
    ensures NoSecrets(isRandom, text[from..to])
  {
    forall a: nat, b: nat ensures !Secret(isRandom, text[from..to], a, b) {
      if Secret(isRandom, text[from..to], a, b) {
        SecretOfGap(isRandom, text, from, to, a, b);
      }
    }
  }

  lemma {:induction false} MaskHasNone(isRandom: Predicate, text: string, spans: seq<Span>, from: nat)
    requires SecretsFrom(isRandom, text, spans, from) && Inside(text, spans, from) && spans != []
    requires from == 0 || !IsSecretChar(text[from - 1])
    ensures from <= spans[0].start < spans[0].end <= |text|
    ensures NoSecrets(isRandom, text[from..spans[0].start] + RedactSecret(text[spans[0].start..spans[0].end]))
  {
    hide *;
    InsideTail(text, spans, from);
    StarIsNotSecret();
    FirstBounds(isRandom, text, spans, from);
    var (a, b) := (spans[0].start, spans[0].end);
    var secret := text[a..b];
    var pre, post := MaskParts(secret);
    ShortHasNone(isRandom, pre);
    ShortHasNone(isRandom, post);
    if from < a {
      GapHasNone(isRandom, text, spans, from, a - 1);
      Join(isRandom, text[from..a - 1], text[a - 1], pre);
      Join(isRandom, text[from..a - 1] + [text[a - 1]] + pre, '*', post);
      assert text[from..a] + RedactSecret(secret) == text[from..a - 1] + [text[a - 1]] + pre + ['*'] + post;
    } else {
      Join(isRandom, pre, '*', post);
      assert text[from..a] + RedactSecret(secret) == pre + ['*'] + post;
    }
  }

  lemma {:induction false} FirstBounds(isRandom: Predicate, text: string, spans: seq<Span>, from: nat)
    requires SecretsFrom(isRandom, text, spans, from) && spans != []
    ensures spans[0].start + 15 <= spans[0].end <= |text|
    ensures spans[0].start > 0 ==> !IsSecretChar(text[spans[0].start - 1])
  {
    assert Secret(isRandom, text, spans[0].start, spans[0].end);
    hide IsSecretChar;
  }

  lemma {:induction false} MaskParts(secret: string) returns (pre: string, post: string)
    requires |secret| >= 15
    ensures RedactSecret(secret) == pre + ['*'] + post && |pre| < MIN_SECRET_LENGTH && |post| < MIN_SECRET_LENGTH
  {
    pre, post := secret[..4], STARS[1..] + secret[|secret| - 4..];
  }

  lemma {:induction false} SecretsAfter(isRandom: Predicate, text: string, spans: seq<Span>, from: nat)
    requires SecretsFrom(isRandom, text, spans, from) && Inside(text, spans, from) && spans != []
    ensures spans[0].end < |text| ==>
              !IsSecretChar(text[spans[0].end]) && SecretsFrom(isRandom, text, spans[1..], spans[0].end + 1)
              && Inside(text, spans[1..], spans[0].end + 1)
    ensures spans[0].end == |text| ==> spans[1..] == []
  {
    var b := spans[0].end;
    assert Secret(isRandom, text, spans[0].start, b);
    assert forall k | 0 <= k < |spans[1..]| :: spans[1..][k] == spans[k + 1];
    assert |spans| > 1 ==> b < spans[1].start < |text|;
    if b < |text| {
      forall c: nat, d: nat | Secret(isRandom, text, c, d) && b + 1 <= c ensures Span(c, d) in spans[1..] {
        assert Span(c, d) in spans && Span(c, d) != spans[0];
      }
    }
  }

  lemma {:induction false} RedactedSkip(text: string, spans: seq<Span>, from: nat)
    requires from < |text| && Inside(text, spans, from + 1)
    ensures Inside(text, spans, from) && Redacted(text, spans, from) == [text[from]] + Redacted(text, spans, from + 1)
  {
    if spans != [] {
      InsideTail(text, spans, from);
      assert text[from..spans[0].start] == [text[from]] + text[from + 1..spans[0].start];
    }
  }

  lemma {:induction false} NoSpansLeft(isRandom: Predicate, text: string, from: nat)
    requires SecretsFrom(isRandom, text, [], from) && from <= |text|
    requires from == 0 || !IsSecretChar(text[from - 1])
    ensures Inside(text, [], from) && NoSecrets(isRandom, Redacted(text, [], from))
  {
    GapHasNone(isRandom, text, [], from, |text|);
    assert text[from..] == text[from..|text|];
  }

  /** The part of the redacted text that comes from before the end of the first secret. */
  ghost function Front(text: string, spans: seq<Span>, from: nat): string
    requires Inside(text, spans, from) && spans != []
  {
    InsideTail(text, spans, from);
    text[from..spans[0].start] + RedactSecret(text[spans[0].start..spans[0].end])
  }

  lemma {:induction false} FrontHasNone(isRandom: Predicate, text: string, spans: seq<Span>, from: nat)
    requires SecretsFrom(isRandom, text, spans, from) && Inside(text, spans, from) && spans != []
    requires from == 0 || !IsSecretChar(text[from - 1])
    ensures NoSecrets(isRandom, Front(text, spans, from)) && from <= spans[0].start < spans[0].end <= |text|
  {
    hide SecretsFrom, NoSecrets;
    MaskHasNone(isRandom, text, spans, from);
  }

  lemma {:induction false} FrontAndRest(text: string, spans: seq<Span>, from: nat)
    requires Inside(text, spans, from) && spans != []
    ensures Inside(text, spans[1..], spans[0].end)
    ensures Redacted(text, spans, from) == Front(text, spans, from) + Redacted(text, spans[1..], spans[0].end)
    ensures spans[0].end == |text| && spans[1..] == [] ==> Redacted(text, spans, from) == Front(text, spans, from)
  {
    InsideTail(text, spans, from);
  }

  /** Redacted text holds no secret, whatever the test is. */
  lemma {:induction false} RedactedHasNone(isRandom: Predicate, text: string, spans: seq<Span>, from: nat)
    requires SecretsFrom(isRandom, text, spans, from) && Inside(text, spans, from)
    requires from == 0 || (from <= |text| && !IsSecretChar(text[from - 1]))
    ensures NoSecrets(isRandom, Redacted(text, spans, from))
    decreases |spans|
  {
    hide *;
    InsideBound(text, spans, from);
    if spans == [] {
      NoSpansLeft(isRandom, text, from);
    } else {
      FrontHasNone(isRandom, text, spans, from);
      SecretsAfter(isRandom, text, spans, from);
      FrontAndRest(text, spans, from);
      var b := spans[0].end;
      if b < |text| {
        RedactedSkip(text, spans[1..], b);
        RedactedHasNone(isRandom, text, spans[1..], b + 1);
        Join(isRandom, Front(text, spans, from), text[b], Redacted(text, spans[1..], b + 1));
        Glue(Front(text, spans, from), [text[b]], Redacted(text, spans[1..], b + 1));
      }
    }
  }

  lemma {:induction false} NoSpans(isRandom: Predicate, s: string, spans: seq<Span>)
    requires NoSecrets(isRandom, s) && SecretsFrom(isRandom, s, spans, 0)
    ensures spans == []
  {
    FirstIsSecret(isRandom, s, spans);
  }

  lemma {:induction false} FirstIsSecret(isRandom: Predicate, s: string, spans: seq<Span>)
    requires SecretsFrom(isRandom, s, spans, 0)
    ensures spans != [] ==> Secret(isRandom, s, spans[0].start, spans[0].end)
  {
  }

  /** Redacting a redacted text finds no secret and changes nothing. */
  method RedactTwice(isRandom: Predicate, text: string) returns (once: string, twice: string, found: nat)
    ensures NoSecrets(isRandom, once) && twice == once && found == 0
  {
    var count;
    once, count := RedactSecretsInText(isRandom, text);
    ghost var secrets :| Redaction(isRandom, text, secrets, once, count);
    RedactedHasNone(isRandom, text, secrets, 0);
    twice, found := RedactSecretsInText(isRandom, once);
    ghost var again :| Redaction(isRandom, once, again, twice, found);
    NoSpans(isRandom, once, again);
    NothingToRedact(once);
  }
}
