/**
 * Unpadded base64url (RFC 4648, section 5) three times over: the pagination codec, the encoder of
 * the PKCE challenge and the lenient decoder of identity tokens.  Shifts and masks are written as
 * division and remainder by powers of two, and u32 wrap-around as remainder by 2^32.
 */
module Base64Url {
  import opened Prelude

  type Byte = n: int | 0 <= n < 256

  const U32_RANGE := 0x1_0000_0000
  const TABLE := "ABCDEFGHIJKLM" + "NOPQRSTUVWXYZ" + "abcdefghijklm" + "nopqrstuvwxyz" + "0123456789-_"
  const INVALID_CURSOR := "Invalid pagination cursor"

  /** The six bits a letter stands for. */
  function Sextet(c: char): (r: Option<nat>)
    ensures r.Some? ==> r.value < 64
  {
    if 'A' <= c <= 'Z' then Some(c as int - 'A' as int)
    else if 'a' <= c <= 'z' then Some(c as int - 'a' as int + 26)
    else if '0' <= c <= '9' then Some(c as int - '0' as int + 52)
    else if c == '-' then Some(62)
    else if c == '_' then Some(63)
    else None
  }

  lemma {:induction false} TablePart(v: nat)
    requires v < 13
    ensures "ABCDEFGHIJKLM"[v] == 'A' + v as char && "NOPQRSTUVWXYZ"[v] == 'N' + v as char
    ensures "abcdefghijklm"[v] == 'a' + v as char && "nopqrstuvwxyz"[v] == 'n' + v as char
    ensures v < 12 ==> "0123456789-_"[v] == if v < 10 then '0' + v as char else if v == 10 then '-' else '_'
  {
  }

  lemma {:induction false} TableParts(v: nat)
    requires v < 64
    ensures |TABLE| == 64
    ensures TABLE[v] == if v < 13 then "ABCDEFGHIJKLM"[v] else if v < 26 then "NOPQRSTUVWXYZ"[v - 13]
                        else if v < 39 then "abcdefghijklm"[v - 26] else if v < 52 then "nopqrstuvwxyz"[v - 39]
                        else "0123456789-_"[v - 52]
  {
  }

  function Letter(v: nat): char
    requires v < 64
  {
    if v < 26 then 'A' + v as char else if v < 52 then 'a' + (v - 26) as char
    else if v < 62 then '0' + (v - 52) as char else if v == 62 then '-' else '_'
  }

  lemma {:induction false} TableIsLetter(v: nat)
    requires v < 64
    ensures |TABLE| == 64 && TABLE[v] == Letter(v)
  {
    hide TABLE;
    TableParts(v);
    TablePart(if v < 13 then v else if v < 26 then v - 13 else if v < 39 then v - 26
              else if v < 52 then v - 39 else v - 52);
  }

  lemma {:induction false} TableLetters(v: nat)
    requires v < 64
    ensures |TABLE| == 64 && Sextet(TABLE[v]) == Some(v)
  {
    hide TABLE;
    TableIsLetter(v);
  }

  lemma {:induction false} SextetInjective(c: char, d: char)
    requires Sextet(c).Some? && Sextet(c) == Sextet(d)
    ensures c == d
  {
  }

  predicate Alphabetic(s: string) {
    forall i | 0 <= i < |s| :: Sextet(s[i]).Some?
  }

  lemma {:induction false} AtLeast(k: int, d: nat)
    requires k >= 1
    ensures k * d >= d
  {
  }

  /** Quotient and remainder are unique. */
  lemma {:induction false} DivMod(n: nat, d: nat, q: nat, r: nat)
    requires n == q * d + r && r < d
    ensures d > 0
    ensures n / d == q && n % d == r
  {
    assert n == (n / d) * d + n % d;
    assert (n / d - q) * d == r - n % d;
    if n / d > q {
      AtLeast(n / d - q, d);
    } else if n / d < q {
      AtLeast(q - n / d, d);
    }
  }

  // ----- The reference: both texts are the same number -----

  /** The bytes read as one big-endian number. */
  ghost function BytesNumber(bs: seq<Byte>): nat {
    if bs == [] then 0 else BytesNumber(bs[..|bs| - 1]) * 256 + bs[|bs| - 1]
  }

  /** The letters read as one number in base 64. */
  ghost function TextNumber(s: string): nat
    requires Alphabetic(s)
  {
    if s == [] then 0 else TextNumber(s[..|s| - 1]) * 64 + Sextet(s[|s| - 1]).value
  }

  /** 2 to the power `bits`, for the numbers of bits that can be left over. */
  function Power(bits: nat): (p: nat)
    requires bits in {0, 2, 4, 6}
    ensures p > 0
  {
    if bits == 0 then 1 else if bits == 2 then 4 else if bits == 4 then 16 else 64
  }

  function PadBits(n: nat): (bits: nat)
    ensures bits in {0, 2, 4} && 6 * ((8 * n + 5) / 6) == 8 * n + bits
  {
    var k := n / 3;
    assert n == 3 * k + n % 3;
    assert 8 * n + 5 == 24 * k + (8 * (n % 3) + 5);
    if n % 3 == 0 then 0 else if n % 3 == 1 then 4 else 2
  }

  /**
   * Sections 3.5 and 5 of RFC 4648: as many letters as needed, no padding characters, and the bits
   * left over in the last letter are zero.
   */
  ghost predicate IsEncoding(bs: seq<Byte>, s: string) {
    && |s| == (8 * |bs| + 5) / 6
    && Alphabetic(s)
    && TextNumber(s) == BytesNumber(bs) * Power(PadBits(|bs|))
  }

  /** Test vectors, with the two letters that differ from plain base64. */
  lemma {:induction false} Vectors()
    ensures IsEncoding([102, 111], ['Z', 'm', '8']) && IsEncoding([251, 255], ['-', '_', '8'])
    ensures IsEncoding([0, 0], ['A', 'A', 'A']) && IsEncoding([105, 183], ['a', 'b', 'c'])
  {
    hide IsEncoding;
    TwoBytes(102, 111, 'Z', 'm', '8');
    TwoBytes(251, 255, '-', '_', '8');
    TwoBytes(0, 0, 'A', 'A', 'A');
    TwoBytes(105, 183, 'a', 'b', 'c');
  }

  lemma {:induction false} ThreeLetters(x: char, y: char, z: char)
    requires Sextet(x).Some? && Sextet(y).Some? && Sextet(z).Some?
    ensures Alphabetic([x, y, z])
    ensures TextNumber([x, y, z]) == (Sextet(x).value * 64 + Sextet(y).value) * 64 + Sextet(z).value
  {
    TextNumberSnoc([], x);
    TextNumberSnoc([x], y);
    TextNumberSnoc([x, y], z);
    assert [] + [x] == [x] && [x] + [y] == [x, y] && [x, y] + [z] == [x, y, z];
  }

  lemma {:induction false} TwoBytes(a: Byte, b: Byte, x: char, y: char, z: char)
    requires Sextet(x).Some? && Sextet(y).Some? && Sextet(z).Some?
    requires (Sextet(x).value * 64 + Sextet(y).value) * 64 + Sextet(z).value == (a * 256 + b) * 4
    ensures IsEncoding([a, b], [x, y, z])
  {
    ThreeLetters(x, y, z);
    BytesNumberSnoc([], a);
    BytesNumberSnoc([a], b);
    assert [] + [a] == [a] && [a] + [b] == [a, b];
  }

  lemma {:induction false} TextNumberSnoc(s: string, c: char)
    requires Alphabetic(s) && Sextet(c).Some?
    ensures Alphabetic(s + [c]) && TextNumber(s + [c]) == TextNumber(s) * 64 + Sextet(c).value
  {
    assert (s + [c])[..|s|] == s;
  }

  lemma {:induction false} BytesNumberSnoc(bs: seq<Byte>, b: Byte)
    ensures BytesNumber(bs + [b]) == BytesNumber(bs) * 256 + b
  {
    assert (bs + [b])[..|bs|] == bs;
  }

  lemma {:induction false} TextNumberUnique(s: string, t: string)
    requires Alphabetic(s) && Alphabetic(t) && |s| == |t| && TextNumber(s) == TextNumber(t)
    ensures s == t
  {
    if s != [] {
      var n := |s| - 1;
      DivMod(TextNumber(s), 64, TextNumber(s[..n]), Sextet(s[n]).value);
      DivMod(TextNumber(t), 64, TextNumber(t[..n]), Sextet(t[n]).value);
      SextetInjective(s[n], t[n]);
      TextNumberUnique(s[..n], t[..n]);
      assert s == s[..n] + [s[n]] && t == t[..n] + [t[n]];
    }
  }

  lemma {:induction false} BytesNumberUnique(a: seq<Byte>, b: seq<Byte>)
    requires |a| == |b| && BytesNumber(a) == BytesNumber(b)
    ensures a == b
  {
    if a != [] {
      var n := |a| - 1;
      DivMod(BytesNumber(a), 256, BytesNumber(a[..n]), a[n]);
      DivMod(BytesNumber(b), 256, BytesNumber(b[..n]), b[n]);
      BytesNumberUnique(a[..n], b[..n]);
      assert a == a[..n] + [a[n]] && b == b[..n] + [b[n]];
    }
  }

  /** Bytes have at most one encoding. */
  lemma {:induction false} EncodingUnique(bs: seq<Byte>, s: string, t: string)
    requires IsEncoding(bs, s) && IsEncoding(bs, t)
    ensures s == t
  {
    TextNumberUnique(s, t);
  }

  lemma {:induction false} CancelPower(x: nat, y: nat, bits: nat)
    requires bits in {0, 2, 4, 6} && x * Power(bits) == y * Power(bits)
    ensures x == y
  {
  }

  lemma {:induction false} EncodingLength(n: nat, m: nat)
    requires (8 * n + 5) / 6 == (8 * m + 5) / 6
    ensures n == m
  {
  }

  /** A text encodes at most one byte string. */
  lemma {:induction false} DecodingUnique(a: seq<Byte>, b: seq<Byte>, s: string)
    requires IsEncoding(a, s) && IsEncoding(b, s)
    ensures a == b
  {
    EncodingLength(|a|, |b|);
    CancelPower(BytesNumber(a), BytesNumber(b), PadBits(|a|));
    BytesNumberUnique(a, b);
  }

  // ----- Groups of three bytes -----

  function Group(b0: nat, b1: nat, b2: nat): nat {
    b0 * 65536 + b1 * 256 + b2
  }

  /** The 24 bits of a chunk, with zeros for missing bytes. */
  function ChunkBits(chunk: seq<Byte>): nat {
    Group(if |chunk| > 0 then chunk[0] else 0, if |chunk| > 1 then chunk[1] else 0, if |chunk| > 2 then chunk[2] else 0)
  }

  /** `r` is `s` followed by the letters of one chunk. */
  ghost predicate Appended(s: string, chunk: seq<Byte>, r: string)
    requires Alphabetic(s) && 1 <= |chunk| <= 3
  {
    && |r| == |s| + |chunk| + 1 && Alphabetic(r)
    && TextNumber(r) == if |chunk| == 1 then TextNumber(s) * 4096 + ChunkBits(chunk) / 4096
                        else if |chunk| == 2 then TextNumber(s) * 262144 + ChunkBits(chunk) / 64
                        else TextNumber(s) * 16777216 + ChunkBits(chunk)
  }

  lemma {:induction false} ChunkNumber(bs: seq<Byte>, chunk: seq<Byte>)
    requires 1 <= |chunk| <= 3
    ensures |chunk| == 1 ==> BytesNumber(bs + chunk) == BytesNumber(bs) * 256 + ChunkBits(chunk) / 65536
    ensures |chunk| == 2 ==> BytesNumber(bs + chunk) == BytesNumber(bs) * 65536 + ChunkBits(chunk) / 256
    ensures |chunk| == 3 ==> BytesNumber(bs + chunk) == BytesNumber(bs) * 16777216 + ChunkBits(chunk)
  {
    BytesNumberSnoc(bs, chunk[0]);
    assert bs + chunk[..1] == bs + [chunk[0]];
    if |chunk| == 1 {
      assert chunk == chunk[..1];
    } else {
      BytesNumberSnoc(bs + chunk[..1], chunk[1]);
      assert bs + chunk[..1] + [chunk[1]] == bs + chunk[..2];
      if |chunk| == 2 {
        assert chunk == chunk[..2];
      } else {
        BytesNumberSnoc(bs + chunk[..2], chunk[2]);
        assert bs + chunk[..2] + [chunk[2]] == bs + chunk;
      }
    }
  }

  lemma {:induction false} PadOf(k: nat)
    ensures PadBits(3 * k) == 0 && PadBits(3 * k + 1) == 4 && PadBits(3 * k + 2) == 2 && PadBits(3 * k + 3) == 0
  {
    DivMod(3 * k, 3, k, 0);
    DivMod(3 * k + 1, 3, k, 1);
    DivMod(3 * k + 2, 3, k, 2);
    DivMod(3 * k + 3, 3, k + 1, 0);
  }

  lemma {:induction false} TextLength(k: nat)
    ensures (8 * (3 * k) + 5) / 6 == 4 * k && (8 * (3 * k + 1) + 5) / 6 == 4 * k + 2
    ensures (8 * (3 * k + 2) + 5) / 6 == 4 * k + 3 && (8 * (3 * k + 3) + 5) / 6 == 4 * k + 4
  {
    DivMod(24 * k + 5, 6, 4 * k, 5);
    DivMod(24 * k + 13, 6, 4 * k + 2, 1);
    DivMod(24 * k + 21, 6, 4 * k + 3, 3);
    DivMod(24 * k + 29, 6, 4 * k + 4, 5);
  }

  lemma {:induction false} ChunkLength(n: nat, size: nat)
    requires n % 3 == 0 && 1 <= size <= 3
    ensures (8 * (n + size) + 5) / 6 == (8 * n + 5) / 6 + size + 1
    ensures Power(PadBits(n)) == 1
    ensures Power(PadBits(n + size)) == if size == 1 then 16 else if size == 2 then 4 else 1
  {
    hide PadBits;
    var k := n / 3;
    assert n == 3 * k;
    PadOf(k);
    TextLength(k);
    assert size == 1 || size == 2 || size == 3;
  }

  lemma {:induction false} AppendedNumber(bytes: nat, text: nat, chunk: seq<Byte>, bytes': nat, text': nat)
    requires text == bytes * 1 && 1 <= |chunk| <= 3
    requires |chunk| == 1 ==> text' == text * 4096 + ChunkBits(chunk) / 4096
    requires |chunk| == 2 ==> text' == text * 262144 + ChunkBits(chunk) / 64
    requires |chunk| == 3 ==> text' == text * 16777216 + ChunkBits(chunk)
    requires |chunk| == 1 ==> bytes' == bytes * 256 + ChunkBits(chunk) / 65536
    requires |chunk| == 2 ==> bytes' == bytes * 65536 + ChunkBits(chunk) / 256
    requires |chunk| == 3 ==> bytes' == bytes * 16777216 + ChunkBits(chunk)
    ensures text' == bytes' * if |chunk| == 1 then 16 else if |chunk| == 2 then 4 else 1
  {
    ChunkShift(chunk);
    hide ChunkBits;
  }

  /** Whole groups encode independently, so a chunk can be appended. */
  lemma {:induction false} AppendChunk(bs: seq<Byte>, s: string, chunk: seq<Byte>, r: string)
    requires IsEncoding(bs, s) && |bs| % 3 == 0 && 1 <= |chunk| <= 3 && Appended(s, chunk, r)
    ensures IsEncoding(bs + chunk, r)
  {
    hide PadBits, Power, TextNumber, BytesNumber, ChunkBits, Alphabetic;
    ChunkLength(|bs|, |chunk|);
    ChunkNumber(bs, chunk);
    AppendedNumber(BytesNumber(bs), TextNumber(s), chunk, BytesNumber(bs + chunk), TextNumber(r));
    assert |bs + chunk| == |bs| + |chunk|;
  }

  lemma {:induction false} ChunkShift(chunk: seq<Byte>)
    requires 1 <= |chunk| <= 3
    ensures |chunk| == 1 ==> ChunkBits(chunk) / 4096 == ChunkBits(chunk) / 65536 * 16
    ensures |chunk| == 2 ==> ChunkBits(chunk) / 64 == ChunkBits(chunk) / 256 * 4
  {
  }

  /** One letter more: `v` is the next six bits. */
  lemma {:induction false} PushLetter(out: string, v: nat)
    requires Alphabetic(out) && v < 64
    ensures |TABLE| == 64 && Alphabetic(out + [TABLE[v]])
    ensures TextNumber(out + [TABLE[v]]) == TextNumber(out) * 64 + v
  {
    TableLetters(v);
    TextNumberSnoc(out, TABLE[v]);
  }

  /** The four sextets of a group put it together again. */
  lemma {:induction false} Sextets(n: nat)
    requires n < 0x100_0000
    ensures n / 262144 % 64 == n / 262144
    ensures n / 4096 == n / 262144 * 64 + n / 4096 % 64
    ensures n / 64 == n / 4096 * 64 + n / 64 % 64
    ensures n == n / 64 * 64 + n % 64
  {
    var a, b, c, d := n / 64, n % 64, n / 64 / 64, n / 64 % 64;
    var e, f := c / 64, c % 64;
    assert n == a * 64 + b && a == c * 64 + d && c == e * 64 + f;
    DivMod(n, 4096, c, d * 64 + b);
    DivMod(n, 262144, e, f * 4096 + d * 64 + b);
    DivMod(e, 64, 0, e);
  }

  lemma {:induction false} AppendedIntro(s: string, chunk: seq<Byte>, r: string, n: nat)
    requires Alphabetic(s) && Alphabetic(r) && 1 <= |chunk| <= 3 && n == ChunkBits(chunk) && |r| == |s| + |chunk| + 1
    requires |chunk| == 1 ==> TextNumber(r) == TextNumber(s) * 4096 + n / 4096
    requires |chunk| == 2 ==> TextNumber(r) == TextNumber(s) * 262144 + n / 64
    requires |chunk| == 3 ==> TextNumber(r) == TextNumber(s) * 16777216 + n
    ensures Appended(s, chunk, r)
  {
  }

  lemma {:induction false} ChunkBound(chunk: seq<Byte>)
    ensures ChunkBits(chunk) < 0x100_0000
    ensures |chunk| == 1 ==> ChunkBits(chunk) == Group(chunk[0], 0, 0)
    ensures |chunk| == 2 ==> ChunkBits(chunk) == Group(chunk[0], chunk[1], 0)
    ensures |chunk| == 3 ==> ChunkBits(chunk) == Group(chunk[0], chunk[1], chunk[2])
  {
  }

  /** The first two letters of a group. */
  lemma {:induction false} TwoLetters(text: nat, n: nat)
    requires n < 0x100_0000
    ensures (text * 64 + n / 262144 % 64) * 64 + n / 4096 % 64 == text * 4096 + n / 4096
  {
    Sextets(n);
  }

  lemma {:induction false} ThirdLetter(text: nat, n: nat)
    requires n < 0x100_0000
    ensures (text * 4096 + n / 4096) * 64 + n / 64 % 64 == text * 262144 + n / 64
    ensures (text * 262144 + n / 64) * 64 + n % 64 == text * 16777216 + n
  {
    Sextets(n);
  }

  // ----- The pagination encoder -----

  method PushGroup(out: string, chunk: seq<Byte>) returns (r: string)
    requires Alphabetic(out) && |chunk| == 3
    ensures Appended(out, chunk, r)
  {
    hide *;
    ChunkBound(chunk);
    var n: nat := Group(chunk[0], chunk[1], chunk[2]);
    PushLetter(out, n / 262144 % 64);
    r := out + [TABLE[n / 262144 % 64]];
    PushLetter(r, n / 4096 % 64);
    r := r + [TABLE[n / 4096 % 64]];
    TwoLetters(TextNumber(out), n);
    PushLetter(r, n / 64 % 64);
    r := r + [TABLE[n / 64 % 64]];
    PushLetter(r, n % 64);
    r := r + [TABLE[n % 64]];
    ThirdLetter(TextNumber(out), n);
    AppendedIntro(out, chunk, r, n);
  }

  /** Two and three letters are the leading bits of one and two bytes. */
  lemma {:induction false} TailLetters(text: nat, a: nat, b: nat)
    requires a < 256 && b < 256
    ensures (text * 64 + a / 4) * 64 + a % 4 * 16 == text * 4096 + Group(a, 0, 0) / 4096
    ensures ((text * 64 + a / 4) * 64 + (a % 4 * 16 + b / 16)) * 64 + b % 16 * 4 == text * 262144 + Group(a, b, 0) / 64
  {
    DivMod(a * 65536, 4096, a * 16, 0);
    DivMod(a * 65536 + b * 256, 64, a * 1024 + b * 4, 0);
    assert a == a / 4 * 4 + a % 4 && b == b / 16 * 16 + b % 16;
  }

  method PushOne(out: string, chunk: seq<Byte>) returns (r: string)
    requires Alphabetic(out) && |chunk| == 1
    ensures Appended(out, chunk, r)
  {
    hide *;
    ChunkBound(chunk);
    var a: nat := chunk[0];
    PushLetter(out, a / 4);
    r := out + [TABLE[a / 4]];
    PushLetter(r, a % 4 * 16);
    r := r + [TABLE[a % 4 * 16]];
    TailLetters(TextNumber(out), a, 0);
    AppendedIntro(out, chunk, r, Group(a, 0, 0));
  }

  method PushTwo(out: string, chunk: seq<Byte>) returns (r: string)
    requires Alphabetic(out) && |chunk| == 2
    ensures Appended(out, chunk, r)
  {
    hide *;
    ChunkBound(chunk);
    var a: nat := chunk[0];
    var b: nat := chunk[1];
    PushLetter(out, a / 4);
    r := out + [TABLE[a / 4]];
    PushLetter(r, a % 4 * 16 + b / 16);
    r := r + [TABLE[a % 4 * 16 + b / 16]];
    PushLetter(r, b % 16 * 4);
    r := r + [TABLE[b % 16 * 4]];
    TailLetters(TextNumber(out), a, b);
    AppendedIntro(out, chunk, r, Group(a, b, 0));
  }

  /** `base64url_encode`: the loop over exact chunks of three and the remainder. */
  method Encode(bytes: seq<Byte>) returns (out: string)
    ensures IsEncoding(bytes, out)
  {
    out := "";
    var i: nat := 0;
    while i + 3 <= |bytes|
      invariant i <= |bytes| && i % 3 == 0 && IsEncoding(bytes[..i], out)
    {
      var r := PushGroup(out, bytes[i..i + 3]);
      AppendChunk(bytes[..i], out, bytes[i..i + 3], r);
      assert bytes[..i + 3] == bytes[..i] + bytes[i..i + 3];
      out := r;
      i := i + 3;
    }
    assert bytes == bytes[..i] + bytes[i..];
    if |bytes| - i == 1 {
      var r := PushOne(out, bytes[i..]);
      AppendChunk(bytes[..i], out, bytes[i..], r);
      out := r;
    } else if |bytes| - i == 2 {
      var r := PushTwo(out, bytes[i..]);
      AppendChunk(bytes[..i], out, bytes[i..], r);
      out := r;
    } else {
      assert bytes[..i] == bytes;
    }
  }

  // ----- The PKCE encoder -----

  method PushChunk(encoded: string, chunk: seq<Byte>) returns (r: string)
    requires Alphabetic(encoded) && 1 <= |chunk| <= 3
    ensures Appended(encoded, chunk, r)
  {
    hide *;
    ChunkBound(chunk);
    var b0: nat := chunk[0];
    var b1: nat := if |chunk| > 1 then chunk[1] else 0;
    var b2: nat := if |chunk| > 2 then chunk[2] else 0;
    var value: nat := Group(b0, b1, b2);
    PushLetter(encoded, value / 262144 % 64);
    r := encoded + [TABLE[value / 262144 % 64]];
    PushLetter(r, value / 4096 % 64);
    r := r + [TABLE[value / 4096 % 64]];
    TwoLetters(TextNumber(encoded), value);
    ThirdLetter(TextNumber(encoded), value);
    if |chunk| > 1 {
      PushLetter(r, value / 64 % 64);
      r := r + [TABLE[value / 64 % 64]];
    }
    if |chunk| > 2 {
      PushLetter(r, value % 64);
      r := r + [TABLE[value % 64]];
    }
    AppendedIntro(encoded, chunk, r, value);
  }

  /** `base64url_no_pad`: missing bytes of the last chunk count as zero and their letters are left out. */
  method EncodeNoPad(bytes: seq<Byte>) returns (encoded: string)
    ensures IsEncoding(bytes, encoded)
  {
    encoded := "";
    var i: nat := 0;
    while i < |bytes|
      invariant i <= |bytes| && (i % 3 == 0 || i == |bytes|) && IsEncoding(bytes[..i], encoded)
    {
      var size: nat := Min(3, |bytes| - i);
      var r := PushChunk(encoded, bytes[i..i + size]);
      AppendChunk(bytes[..i], encoded, bytes[i..i + size], r);
      assert bytes[..i + size] == bytes[..i] + bytes[i..i + size];
      encoded := r;
      i := i + size;
    }
    assert bytes[..i] == bytes;
  }

  // ----- The strict decoder -----

  lemma {:induction false} NextLetter(s: string, i: nat)
    requires i < |s| && Alphabetic(s[..i]) && Sextet(s[i]).Some?
    ensures Alphabetic(s[..i + 1]) && TextNumber(s[..i + 1]) == TextNumber(s[..i]) * 64 + Sextet(s[i]).value
  {
    assert s[..i + 1] == s[..i] + [s[i]];
    TextNumberSnoc(s[..i], s[i]);
  }

  /** The decoder has split the number read so far into whole bytes and `bits` remaining bits. */
  ghost predicate Split(number: nat, out: seq<Byte>, buffer: nat, bits: nat) {
    bits in {0, 2, 4, 6} && buffer < Power(bits) && number == BytesNumber(out) * Power(bits) + buffer
  }

  lemma {:induction false} SplitGrows(number: nat, out: seq<Byte>, buffer: nat, v: nat)
    requires Split(number, out, buffer, 0) && v < 64
    ensures Split(number * 64 + v, out, buffer * 64 + v, 6)
  {
  }

  /** The leading eight of the bits that are in the buffer make a byte. */
  lemma {:induction false} TakeByte(bytes: nat, buffer: nat, bits: nat, v: nat)
    requires bits in {2, 4, 6} && buffer < Power(bits) && v < 64
    ensures (buffer * 64 + v) / Power(bits - 2) < 256 && (buffer * 64 + v) % Power(bits - 2) < Power(bits - 2)
    ensures (bytes * Power(bits) + buffer) * 64 + v
         == (bytes * 256 + (buffer * 64 + v) / Power(bits - 2)) * Power(bits - 2) + (buffer * 64 + v) % Power(bits - 2)
  {
    var next := buffer * 64 + v;
    if bits == 2 {
      assert next < 256;
    } else if bits == 4 {
      assert next == next / 4 * 4 + next % 4;
    } else {
      assert next == next / 16 * 16 + next % 16;
    }
  }

  lemma {:induction false} SplitPushes(number: nat, out: seq<Byte>, buffer: nat, bits: nat, v: nat)
    requires Split(number, out, buffer, bits) && bits > 0 && v < 64
    ensures Split(number * 64 + v, out + [(buffer * 64 + v) / Power(bits - 2) % 256],
                  (buffer * 64 + v) % Power(bits - 2), bits - 2)
  {
    var byte: nat := (buffer * 64 + v) / Power(bits - 2);
    SplitParts(number, out, buffer, bits);
    hide *;
    TakeByte(BytesNumber(out), buffer, bits, v);
    DivMod(byte, 256, 0, byte);
    BytesNumberSnoc(out, byte);
    SplitIntro(number * 64 + v, out + [byte], (buffer * 64 + v) % Power(bits - 2), bits - 2);
  }

  lemma {:induction false} SplitParts(number: nat, out: seq<Byte>, buffer: nat, bits: nat)
    requires Split(number, out, buffer, bits)
    ensures bits in {0, 2, 4, 6} && buffer < Power(bits) && number == BytesNumber(out) * Power(bits) + buffer
  {
  }

  lemma {:induction false} SplitIntro(number: nat, out: seq<Byte>, buffer: nat, bits: nat)
    requires bits in {0, 2, 4, 6} && buffer < Power(bits) && number == BytesNumber(out) * Power(bits) + buffer
    ensures Split(number, out, buffer, bits)
  {
  }

  /** Masking keeps the buffer so small that the shift loses nothing. */
  lemma {:induction false} NoOverflow(number: nat, out: seq<Byte>, buffer: nat, bits: nat, v: nat)
    requires Split(number, out, buffer, bits)
    ensures bits in {0, 2, 4, 6} && buffer * 64 % U32_RANGE == buffer * 64
  {
  }

  /** No non-empty byte string has the encoding `s`. */
  ghost predicate EncodesNothing(s: string) {
    forall bs: seq<Byte> | bs != [] :: !IsEncoding(bs, s)
  }

  lemma {:induction false} BadLength(s: string)
    requires s == [] || |s| % 4 == 1
    ensures EncodesNothing(s)
  {
    forall bs: seq<Byte> | bs != [] ensures |s| != (8 * |bs| + 5) / 6 {
      assert |bs| == 3 * (|bs| / 3) + |bs| % 3;
    }
  }

  lemma {:induction false} BadPadding(s: string, out: seq<Byte>, buffer: nat, bits: nat)
    requires Alphabetic(s) && Split(TextNumber(s), out, buffer, bits) && 8 * |out| + bits == 6 * |s|
    requires |s| % 4 != 1 && buffer != 0
    ensures EncodesNothing(s)
  {
    forall bs: seq<Byte> | bs != [] ensures !IsEncoding(bs, s) {
      if IsEncoding(bs, s) {
        SamePad(|s|, |bs|, |out|, bits);
        DivMod(TextNumber(s), Power(bits), BytesNumber(out), buffer);
        DivMod(TextNumber(s), Power(bits), BytesNumber(bs), 0);
      }
    }
  }

  lemma {:induction false} SamePad(k: nat, n: nat, m: nat, bits: nat)
    requires bits in {0, 2, 4, 6} && 8 * m + bits == 6 * k && k % 4 != 1 && k == (8 * n + 5) / 6
    ensures m == n && bits == PadBits(n)
  {
    assert 6 * k == 8 * n + PadBits(n);
  }

  lemma {:induction false} LengthOf(k: nat, m: nat, bits: nat)
    requires bits in {0, 2, 4, 6} && 8 * m + bits == 6 * k && k % 4 != 1
    ensures k == (8 * m + 5) / 6 && bits == PadBits(m)
  {
    assert bits != 6;
  }

  lemma {:induction false} Accepts(s: string, out: seq<Byte>, buffer: nat, bits: nat)
    requires Alphabetic(s) && Split(TextNumber(s), out, buffer, bits) && 8 * |out| + bits == 6 * |s|
    requires s != [] && |s| % 4 != 1 && (bits == 0 || buffer == 0)
    ensures out != [] && IsEncoding(out, s)
  {
    LengthOf(|s|, |out|, bits);
  }

  lemma {:induction false} BadLetter(s: string, i: nat)
    requires i < |s| && Sextet(s[i]).None?
    ensures EncodesNothing(s)
  {
  }

  lemma {:induction false} Start(s: string)
    ensures Alphabetic(s[..0]) && Split(TextNumber(s[..0]), [], 0, 0)
  {
  }

  /** One turn of the loop. */
  method DecodeLetter(ghost number: nat, out: seq<Byte>, buffer: nat, bits: nat, value: nat)
    returns (out': seq<Byte>, buffer': nat, bits': nat)
    requires Split(number, out, buffer, bits) && value < 64
    ensures Split(number * 64 + value, out', buffer', bits') && 8 * |out'| + bits' == 8 * |out| + bits + 6
  {
    NoOverflow(number, out, buffer, bits, value);
    if bits == 0 {
      SplitGrows(number, out, buffer, value);
    } else {
      SplitPushes(number, out, buffer, bits, value);
    }
    hide Split, Power;
    out' := out;
    buffer' := buffer * 64 % U32_RANGE + value;
    bits' := bits + 6;
    if bits' >= 8 {
      bits' := bits' - 8;
      out' := out' + [buffer' / Power(bits') % 256];
      buffer' := buffer' % Power(bits');
    }
  }

  /** `base64url_decode`: accepts exactly the encodings of the non-empty byte strings. */
  method Decode(input: string) returns (r: Result<seq<Byte>, string>)
    ensures r.Ok? ==> r.value != [] && IsEncoding(r.value, input)
    ensures r.Err? ==> EncodesNothing(input)
  {
    if input == "" || |input| % 4 == 1 {
      BadLength(input);
      return Err(INVALID_CURSOR);
    }
    hide *;
    var out: seq<Byte> := [];
    var buffer: nat := 0;
    var bits: nat := 0;
    Start(input);
    var i: nat := 0;
    while i < |input|
      invariant i <= |input| && Alphabetic(input[..i]) && 8 * |out| + bits == 6 * i
      invariant Split(TextNumber(input[..i]), out, buffer, bits)
    {
      var value := Sextet(input[i]);
      if value.None? {
        BadLetter(input, i);
        return Err(INVALID_CURSOR);
      }
      NextLetter(input, i);
      out, buffer, bits := DecodeLetter(TextNumber(input[..i]), out, buffer, bits, value.value);
      i := i + 1;
    }
    assert input[..i] == input;
    NoOverflow(TextNumber(input), out, buffer, bits, 0);
    if bits > 0 && buffer != 0 {
      BadPadding(input, out, buffer, bits);
      return Err(INVALID_CURSOR);
    }
    Accepts(input, out, buffer, bits);
    return Ok(out);
  }

  // ----- The lenient decoder -----

  /** The text before the first `=`. */
  function BeforeEquals(s: string): string {
    if s == [] || s[0] == '=' then [] else [s[0]] + BeforeEquals(s[1..])
  }

  /** The bits of `k` letters that do not fill a byte. */
  function LeftOver(k: nat): (bits: nat)
    ensures bits in {0, 2, 4, 6} && 8 * (6 * k / 8) + bits == 6 * k
  {
    var n, m := k / 4, k % 4;
    assert k == 4 * n + m;
    DivMod(6 * k, 8, 3 * n + 6 * m / 8, 6 * m % 8);
    6 * m % 8
  }

  /** What the lenient decoder returns: the leading whole bytes, whatever bits are left over. */
  ghost predicate LeadingBytes(s: string, out: seq<Byte>) {
    && Alphabetic(s)
    && |out| == 6 * |s| / 8
    && BytesNumber(out) == TextNumber(s) / Power(LeftOver(|s|))
  }

  lemma {:induction false} BeforeEqualsAt(s: string, i: nat)
    requires i <= |s| && '=' !in s[..i] && (i < |s| ==> s[i] == '=')
    ensures BeforeEquals(s) == s[..i]
  {
    if i > 0 {
      assert s[1..][..i - 1] == s[..i][1..];
      assert s[0] == s[..i][0];
      BeforeEqualsAt(s[1..], i - 1);
      assert s[..i] == [s[0]] + s[1..][..i - 1];
    } else {
      assert s[..0] == [];
    }
  }

  lemma {:induction false} BeforeEqualsLonger(s: string, i: nat)
    requires i < |s| && '=' !in s[..i + 1]
    ensures |BeforeEquals(s)| > i && BeforeEquals(s)[i] == s[i]
  {
    assert s[0] == s[..i + 1][0];
    if i > 0 {
      assert s[1..][..i] == s[..i + 1][1..];
      BeforeEqualsLonger(s[1..], i - 1);
    }
  }

  /** What an unmasked buffer holds after reading `number`: its low 32 bits. */
  ghost predicate Wrapped(number: nat, out: seq<Byte>, buffer: nat, bits: nat) {
    bits in {0, 2, 4, 6} && buffer == number % U32_RANGE && BytesNumber(out) == number / Power(bits)
  }

  /** The bits that wrapped away are never read: a byte ends within the low fourteen. */
  lemma {:induction false} WrappedStep(number: nat, out: seq<Byte>, buffer: nat, bits: nat, v: nat)
    requires Wrapped(number, out, buffer, bits) && v < 64
    ensures var next := buffer * 64 % U32_RANGE + v;
            && (bits == 0 ==> Wrapped(number * 64 + v, out, next, 6))
            && (bits > 0 ==> Wrapped(number * 64 + v, out + [next / Power(bits - 2) % 256], next, bits - 2))
  {
    var next := buffer * 64 % U32_RANGE + v;
    LowBits(number, v);
    if bits > 0 {
      BytesNumberSnoc(out, next / Power(bits - 2) % 256);
      ByteOfLowBits(number * 64 + v, bits - 2);
      WholeBytes(number, v, bits);
    }
  }

  lemma {:induction false} LowBits(number: nat, v: nat)
    requires v < 64
    ensures number % U32_RANGE * 64 % U32_RANGE + v == (number * 64 + v) % U32_RANGE
  {
    var q, r := number / 0x1_0000_0000, number % 0x1_0000_0000;
    var t, u := r / 0x400_0000, r % 0x400_0000;
    assert number == q * 0x1_0000_0000 + r && r == t * 0x400_0000 + u;
    DivMod(r * 64, 0x1_0000_0000, t, u * 64);
    DivMod(number * 64 + v, 0x1_0000_0000, q * 64 + t, u * 64 + v);
  }

  lemma {:induction false} ByteOfLowBits(n: nat, bits: nat)
    requires bits in {0, 2, 4}
    ensures n % U32_RANGE / Power(bits) % 256 == n / Power(bits) % 256
  {
    var q, r := n / 0x1_0000_0000, n % 0x1_0000_0000;
    assert n == q * 0x1_0000_0000 + r;
    if bits == 0 {
      SameByte(q * 0x100_0000, r);
    } else if bits == 2 {
      assert r == r / 4 * 4 + r % 4;
      DivMod(n, 4, q * 0x4000_0000 + r / 4, r % 4);
      SameByte(q * 0x40_0000, r / 4);
    } else {
      assert r == r / 16 * 16 + r % 16;
      DivMod(n, 16, q * 0x1000_0000 + r / 16, r % 16);
      SameByte(q * 0x10_0000, r / 16);
    }
  }

  lemma {:induction false} SameByte(q: nat, r: nat)
    ensures (q * 256 + r) % 256 == r % 256
  {
    assert r == r / 256 * 256 + r % 256;
    DivMod(q * 256 + r, 256, q + r / 256, r % 256);
  }

  lemma {:induction false} WholeBytes(number: nat, v: nat, bits: nat)
    requires bits in {2, 4, 6} && v < 64
    ensures number / Power(bits) * 256 + (number * 64 + v) / Power(bits - 2) % 256
         == (number * 64 + v) / Power(bits - 2)
  {
    var q, buffer := number / Power(bits), number % Power(bits);
    Divides(number, bits);
    TakeByte(q, buffer, bits, v);
    hide Power;
    var byte := (buffer * 64 + v) / Power(bits - 2);
    DivMod(number * 64 + v, Power(bits - 2), q * 256 + byte, (buffer * 64 + v) % Power(bits - 2));
    DivMod(q * 256 + byte, 256, q, byte);
  }

  lemma {:induction false} Divides(number: nat, bits: nat)
    requires bits in {0, 2, 4, 6}
    ensures number == number / Power(bits) * Power(bits) + number % Power(bits) && number % Power(bits) < Power(bits)
  {
  }

  /** `decode_base64_url`: stops at `=`, takes any length and ignores left-over bits. */
  method DecodeLenient(input: string) returns (r: Result<seq<Byte>, char>)
    ensures r.Ok? <==> Alphabetic(BeforeEquals(input))
    ensures r.Ok? ==> LeadingBytes(BeforeEquals(input), r.value)
  {
    hide *;
    var bytes: seq<Byte> := [];
    var buffer: nat := 0;
    var bitCount: nat := 0;
    var i: nat := 0;
    StartWrapped(input);
    while i < |input| && input[i] != '='
      invariant i <= |input| && '=' !in input[..i] && Alphabetic(input[..i]) && 8 * |bytes| + bitCount == 6 * i
      invariant Wrapped(TextNumber(input[..i]), bytes, buffer, bitCount)
    {
      var value := Sextet(input[i]);
      assert input[..i + 1] == input[..i] + [input[i]];
      if value.None? {
        BeforeEqualsLonger(input, i);
        BadPrefix(BeforeEquals(input), i);
        return Err(input[i]);
      }
      NextLetter(input, i);
      bytes, buffer, bitCount := TakeLetter(TextNumber(input[..i]), bytes, buffer, bitCount, value.value);
      i := i + 1;
    }
    BeforeEqualsAt(input, i);
    WrappedEnd(input[..i], bytes, buffer, bitCount);
    return Ok(bytes);
  }

  lemma {:induction false} StartWrapped(s: string)
    ensures Alphabetic(s[..0]) && Wrapped(TextNumber(s[..0]), [], 0, 0) && '=' !in s[..0]
  {
  }

  lemma {:induction false} BadPrefix(s: string, i: nat)
    requires i < |s| && Sextet(s[i]).None?
    ensures !Alphabetic(s)
  {
  }

  lemma {:induction false} WrappedEnd(s: string, bytes: seq<Byte>, buffer: nat, bitCount: nat)
    requires Alphabetic(s) && Wrapped(TextNumber(s), bytes, buffer, bitCount) && 8 * |bytes| + bitCount == 6 * |s|
    ensures LeadingBytes(s, bytes)
  {
    DivMod(6 * |s|, 8, |bytes|, bitCount);
  }

  lemma {:induction false} WrappedBits(number: nat, out: seq<Byte>, buffer: nat, bits: nat)
    requires Wrapped(number, out, buffer, bits)
    ensures bits in {0, 2, 4, 6}
  {
  }

  /** One turn of the loop. */
  method TakeLetter(ghost number: nat, bytes: seq<Byte>, buffer: nat, bitCount: nat, value: nat)
    returns (bytes': seq<Byte>, buffer': nat, bitCount': nat)
    requires Wrapped(number, bytes, buffer, bitCount) && value < 64
    ensures Wrapped(number * 64 + value, bytes', buffer', bitCount')
            && 8 * |bytes'| + bitCount' == 8 * |bytes| + bitCount + 6
  {
    hide Wrapped, Power, BytesNumber;
    WrappedBits(number, bytes, buffer, bitCount);
    WrappedStep(number, bytes, buffer, bitCount, value);
    bytes' := bytes;
    buffer' := buffer * 64 % U32_RANGE + value;
    bitCount' := bitCount + 6;
    while bitCount' >= 8
      invariant bitCount' == bitCount + 6 || (bitCount > 0 && bitCount' == bitCount - 2)
      invariant bytes' == if bitCount' == bitCount + 6 then bytes else bytes + [buffer' / Power(bitCount') % 256]
      decreases bitCount'
    {
      bitCount' := bitCount' - 8;
      bytes' := bytes' + [buffer' / Power(bitCount') % 256];
    }
  }

  // ----- The codecs together -----

  lemma {:induction false} NoEquals(s: string)
    requires Alphabetic(s)
    ensures BeforeEquals(s) == s
  {
    assert s[..|s|] == s;
    BeforeEqualsAt(s, |s|);
  }

  lemma {:induction false} EncodingBytes(bs: seq<Byte>, s: string, out: seq<Byte>)
    requires IsEncoding(bs, s) && LeadingBytes(s, out)
    ensures out == bs
  {
    DivMod(6 * |s|, 8, |bs|, PadBits(|bs|));
    DivMod(TextNumber(s), Power(PadBits(|bs|)), BytesNumber(bs), 0);
    BytesNumberUnique(out, bs);
  }

  /** Decoding an encoding gives the bytes back. */
  method DecodeEncoded(bytes: seq<Byte>) returns (r: Result<seq<Byte>, string>, lenient: Result<seq<Byte>, char>)
    requires bytes != []
    ensures r == Ok(bytes) && lenient == Ok(bytes)
  {
    var text := Encode(bytes);
    r := Decode(text);
    if r.Ok? {
      DecodingUnique(r.value, bytes, text);
    }
    NoEquals(text);
    lenient := DecodeLenient(text);
    EncodingBytes(bytes, text, lenient.value);
  }

  /** Encoding what the strict decoder accepts gives the text back. */
  method EncodeDecoded(text: string) returns (r: Result<string, string>)
    ensures r.Ok? ==> r.value == text
    ensures r.Err? ==> EncodesNothing(text)
  {
    var bytes := Decode(text);
    if bytes.Err? {
      return Err(bytes.error);
    }
    var again := Encode(bytes.value);
    EncodingUnique(bytes.value, again, text);
    return Ok(again);
  }

  method EncodersAgree(bytes: seq<Byte>) returns (a: string, b: string)
    ensures a == b && IsEncoding(bytes, a)
  {
    a := Encode(bytes);
    b := EncodeNoPad(bytes);
    EncodingUnique(bytes, a, b);
  }

  /** Where the strict decoder accepts, the lenient one returns the same bytes. */
  method DecodersAgree(text: string) returns (strict: Result<seq<Byte>, string>, lenient: Result<seq<Byte>, char>)
    ensures strict.Ok? ==> lenient == Ok(strict.value)
    ensures strict.Err? ==> EncodesNothing(text)
  {
    strict := Decode(text);
    lenient := DecodeLenient(text);
    if strict.Ok? {
      NoEquals(text);
      EncodingBytes(strict.value, text, lenient.value);
    }
  }
}
