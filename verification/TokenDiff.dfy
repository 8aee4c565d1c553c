/** Token-aligned byte diffs inside one changed hunk (`build_token_aligned_diffs`). */
module TokenDiff {
  import opened Prelude
  import opened EditScript
  import opened Ranges
  import opened Tokenizer
  import D = DiffOps

  function Lexemes(ts: seq<Token>): (ls: seq<string>)
    ensures |ls| == |ts|
    ensures forall k | 0 <= k < |ls| :: ls[k] == ts[k].lexeme
  {
    if ts == [] then [] else Lexemes(ts[..|ts| - 1]) + [ts[|ts| - 1].lexeme]
  }

  /** No position of `[lo, hi)` is copied from the old text. */
  ghost predicate Inserted(ds: seq<ByteDiff>, a: nat, b: nat, lo: nat, hi: nat) {
    forall p: nat | lo <= p < hi :: SourceAt(ds, p, a, b) == None
  }

  /** `[lo, hi)` is copied from the old text starting at `src`. */
  ghost predicate Copied(ds: seq<ByteDiff>, a: nat, b: nat, lo: nat, hi: nat, src: nat) {
    forall p: nat | lo <= p < hi :: SourceAt(ds, p, a, b) == Some(src + (p - lo))
  }

  /** Every range is inserted text inside `[b, b')`. */
  ghost predicate InsertedRanges(ds: seq<ByteDiff>, a: nat, b: nat, b': nat, rs: seq<Range>) {
    forall r | r in rs :: b <= r.0 < r.1 <= b' && Inserted(ds, a, b, r.0, r.1)
  }

  /**
   * What a hunk's diff says about a new token.  Paired with old token `o` it is copied from
   * that token; otherwise it was inserted or replaced and a substantive range covers it.
   */
  ghost predicate TokenAccounted(ds: seq<ByteDiff>, a: nat, b: nat, rs: seq<Range>,
                                 oldToks: seq<Token>, t: Token, source: Option<nat>) {
    match source
    case Some(o) => o < |oldToks| && Copied(ds, a, b, t.start, t.end, oldToks[o].start)
    case None => CoveredBy(rs, t.start, t.end)
  }

  /** The account for a whole hunk, with the pairing read off the library's hunks. */
  ghost predicate TokenHunkAccounted(differ: D.Differ, ds: seq<ByteDiff>, a: nat, b: nat, rs: seq<Range>,
                                     oldToks: seq<Token>, newToks: seq<Token>) {
    var hunks := differ(Lexemes(oldToks), Lexemes(newToks));
    forall k | 0 <= k < |newToks| ::
      TokenAccounted(ds, a, b, rs, oldToks, newToks[k], D.Counterpart(hunks, k))
  }

  // ----- The state of the loop -----

  /** The hunk at work: its start in both texts, the tokens and the token ops. */
  datatype Work = Work(olds: string, a: nat, a': nat, news: string, b: nat, b': nat,
                       oldToks: seq<Token>, newToks: seq<Token>, ops: seq<D.DiffOp>)

  ghost predicate ValidWork(w: Work) {
    && w.a <= w.a' <= |w.olds| && w.b <= w.b' <= |w.news|
    && OrderedTokens(w.olds, w.oldToks, w.a, w.a')
    && OrderedTokens(w.news, w.newToks, w.b, w.b')
  }

  /** The diffs so far cover old text up to `m` and new text up to `n`; new tokens before `j` are accounted for. */
  ghost predicate Progress(w: Work, ds: seq<ByteDiff>, m: nat, n: nat, rs: seq<Range>, j: nat) {
    && Rewrites(ds, w.olds, w.a, m, w.news, w.b, n)
    && InsertedRanges(ds, w.a, w.b, n, rs)
    && j <= |w.newToks|
    && (forall k | 0 <= k < j ::
          TokenAccounted(ds, w.a, w.b, rs, w.oldToks, w.newToks[k], D.OpCounterpart(w.ops, k)))
    && (forall k | 0 <= k < j :: w.b <= w.newToks[k].start && w.newToks[k].end <= n)
    && NoEmpty(ds)
  }

  lemma {:induction false} Begin(w: Work)
    requires ValidWork(w)
    ensures Progress(w, [], w.a, w.b, [], 0)
  {
  }

  /** Later diffs take nothing back. */
  lemma {:induction false} Extend(w: Work, ds: seq<ByteDiff>, m: nat, n: nat, rs: seq<Range>, j: nat,
                                  y: seq<ByteDiff>, m': nat, n': nat)
    requires Progress(w, ds, m, n, rs, j) && Rewrites(y, w.olds, m, m', w.news, n, n') && NoEmpty(y)
    ensures Progress(w, ds + y, m', n', rs, j)
    ensures forall p: nat | n <= p :: SourceAt(ds + y, p, w.a, w.b) == SourceAt(y, p, m, n)
  {
    RewritesAppend(ds, y, w.olds, w.a, m, m', w.news, w.b, n, n');
    forall r | r in rs
      ensures w.b <= r.0 < r.1 <= n' && Inserted(ds + y, w.a, w.b, r.0, r.1)
    {
      assert Inserted(ds, w.a, w.b, r.0, r.1);
    }
    forall k | 0 <= k < j
      ensures TokenAccounted(ds + y, w.a, w.b, rs, w.oldToks, w.newToks[k], D.OpCounterpart(w.ops, k))
    {
      assert TokenAccounted(ds, w.a, w.b, rs, w.oldToks, w.newToks[k], D.OpCounterpart(w.ops, k));
    }
  }

  /** `append_range_diffs` up to the next token, or to the end. */
  lemma {:induction false} PushGap(w: Work, ds: seq<ByteDiff>, m: nat, n: nat, rs: seq<Range>, j: nat,
                                   m': nat, n': nat, forceSplit: bool)
    requires ValidWork(w) && Progress(w, ds, m, n, rs, j) && m <= m' <= w.a' && n <= n' <= w.b'
    ensures Progress(w, ds + RangeDiffs(w.olds, w.news, m, m', n, n', forceSplit), m', n', rs, j)
  {
    RangeRewrites(w.olds, w.news, m, m', n, n', forceSplit);
    hide RangeDiffs;
    Extend(w, ds, m, n, rs, j, RangeDiffs(w.olds, w.news, m, m', n, n', forceSplit), m', n');
  }

  lemma {:induction false} PushDelete(w: Work, ds: seq<ByteDiff>, m: nat, n: nat, rs: seq<Range>, j: nat, m': nat)
    requires ValidWork(w) && Progress(w, ds, m, n, rs, j) && m < m' <= w.a'
    ensures Progress(w, ds + [ByteDiff(Delete, w.olds[m..m'])], m', n, rs, j)
  {
    var d := ByteDiff(Delete, w.olds[m..m']);
    OneRewrites(d, w.olds, m, m', w.news, n, n);
    Extend(w, ds, m, n, rs, j, [d], m', n);
  }

  /** Inserted tokens `j..j'` and the text between them get one Insert diff and one substantive range. */
  lemma {:induction false} PushInsert(w: Work, ds: seq<ByteDiff>, m: nat, n: nat, rs: seq<Range>, j: nat, j': nat)
    requires ValidWork(w) && Progress(w, ds, m, n, rs, j)
    requires j < j' <= |w.newToks| && w.newToks[j].start == n
    requires forall k | j <= k < j' :: D.OpCounterpart(w.ops, k) == None
    ensures var end := w.newToks[j' - 1].end;
            && n < end <= w.b'
            && Progress(w, ds + [ByteDiff(Insert, w.news[n..end])], m, end, rs + [(n, end)], j')
  {
    var end := w.newToks[j' - 1].end;
    InsertedEnds(w, ds, m, n, rs, j, j');
    var d := ByteDiff(Insert, w.news[n..end]);
    hide Progress, Rewrites, ValidWork, TokenAccounted;
    OneRewrites(d, w.olds, m, m, w.news, n, end);
    Extend(w, ds, m, n, rs, j, [d], m, end);
    assert Inserted(ds + [d], w.a, w.b, n, end);
    AccountInserted(w, ds + [d], m, end, rs, j, j');
  }

  lemma {:induction false} InsertedEnds(w: Work, ds: seq<ByteDiff>, m: nat, n: nat, rs: seq<Range>, j: nat, j': nat)
    requires ValidWork(w) && Progress(w, ds, m, n, rs, j)
    requires j < j' <= |w.newToks| && w.newToks[j].start == n
    ensures m <= |w.olds| && n < w.newToks[j' - 1].end <= w.b' <= |w.news|
  {
    assert j < j' - 1 ==> w.newToks[j].end <= w.newToks[j' - 1].start;
    hide TokenAccounted, InsertedRanges;
  }

  /** One range accounts for all the inserted tokens `j..j'`. */
  lemma {:induction false} AccountInserted(w: Work, ds: seq<ByteDiff>, m: nat, n: nat, rs: seq<Range>, j: nat, j': nat)
    requires ValidWork(w) && Progress(w, ds, m, n, rs, j)
    requires j < j' <= |w.newToks| && w.newToks[j' - 1].end == n
    requires Inserted(ds, w.a, w.b, w.newToks[j].start, n)
    requires forall k | j <= k < j' :: D.OpCounterpart(w.ops, k) == None
    ensures Progress(w, ds, m, n, rs + [(w.newToks[j].start, n)], j')
  {
    var ts := w.newToks;
    var rs' := rs + [(ts[j].start, n)];
    assert rs'[|rs|] == (ts[j].start, n);
    forall r | r in rs'
      ensures w.b <= r.0 < r.1 <= n && Inserted(ds, w.a, w.b, r.0, r.1)
    {
      if r !in rs {
        assert r == (ts[j].start, n);
        assert j < j' - 1 ==> ts[j].end <= ts[j' - 1].start;
      }
    }
    forall k | 0 <= k < j'
      ensures TokenAccounted(ds, w.a, w.b, rs', w.oldToks, ts[k], D.OpCounterpart(w.ops, k))
      ensures w.b <= ts[k].start && ts[k].end <= n
    {
      if k < j {
        assert TokenAccounted(ds, w.a, w.b, rs, w.oldToks, ts[k], D.OpCounterpart(w.ops, k));
        if D.OpCounterpart(w.ops, k).None? {
          var r :| r in rs && r.0 <= ts[k].start && ts[k].end <= r.1;
          assert r in rs';
        }
      } else {
        assert k < j' - 1 ==> ts[k].end <= ts[j' - 1].start;
        assert j < k ==> ts[j].end <= ts[k].start;
        assert rs'[|rs|] in rs';
      }
    }
  }

  /** A paired token gets one Equal diff. */
  lemma {:induction false} PushEqual(w: Work, ds: seq<ByteDiff>, m: nat, n: nat, rs: seq<Range>, i: nat, j: nat)
    requires ValidWork(w) && Progress(w, ds, m, n, rs, j)
    requires i < |w.oldToks| && j < |w.newToks|
    requires w.oldToks[i].start == m && w.newToks[j].start == n && w.oldToks[i].lexeme == w.newToks[j].lexeme
    requires D.OpCounterpart(w.ops, j) == Some(i)
    ensures Progress(w, ds + [ByteDiff(Equal, w.news[n..w.newToks[j].end])], w.oldToks[i].end, w.newToks[j].end,
                     rs, j + 1)
  {
    var m', n' := w.oldToks[i].end, w.newToks[j].end;
    var d := ByteDiff(Equal, w.news[n..n']);
    assert w.olds[m..m'] == w.news[n..n'];
    OneRewrites(d, w.olds, m, m', w.news, n, n');
    Extend(w, ds, m, n, rs, j, [d], m', n');
    assert Copied(ds + [d], w.a, w.b, n, n', m);
    hide *;
    AccountCopied(w, ds + [d], m', n', rs, i, j);
  }

  lemma {:induction false} AccountCopied(w: Work, ds: seq<ByteDiff>, m: nat, n: nat, rs: seq<Range>, i: nat, j: nat)
    requires ValidWork(w) && Progress(w, ds, m, n, rs, j)
    requires i < |w.oldToks| && j < |w.newToks| && w.newToks[j].end == n
    requires Copied(ds, w.a, w.b, w.newToks[j].start, n, w.oldToks[i].start)
    requires D.OpCounterpart(w.ops, j) == Some(i)
    ensures Progress(w, ds, m, n, rs, j + 1)
  {
    forall k | 0 <= k < j + 1
      ensures TokenAccounted(ds, w.a, w.b, rs, w.oldToks, w.newToks[k], D.OpCounterpart(w.ops, k))
    {
      if k < j {
        assert TokenAccounted(ds, w.a, w.b, rs, w.oldToks, w.newToks[k], D.OpCounterpart(w.ops, k));
      }
    }
  }

  lemma {:induction false} CursorBeforeToken(c: string, ts: seq<Token>, from: nat, end: nat, i: nat)
    requires OrderedTokens(c, ts, from, end) && i <= |ts| && from <= end
    ensures from <= GapStart(ts, from, i) <= end
    ensures forall k | i <= k < |ts| :: GapStart(ts, from, i) <= ts[k].start < ts[k].end <= end
    ensures forall k, k' | i <= k <= k' < |ts| :: ts[k].start < ts[k'].end
  {
    assert forall k, k' | i <= k < k' < |ts| :: ts[k].end <= ts[k'].start;
  }

  /** The tokens an Equal op pairs have the same text. */
  lemma {:induction false} PairedLexemes(w: Work, op: D.DiffOp, i: nat, j: nat, k: nat)
    requires D.OpFits(Lexemes(w.oldToks), Lexemes(w.newToks), op, i, j) && op.Equal? && k < op.len
    ensures i + k < |w.oldToks| && j + k < |w.newToks|
    ensures w.oldToks[i + k].lexeme == w.newToks[j + k].lexeme
  {
    var os, ns := Lexemes(w.oldToks), Lexemes(w.newToks);
    assert os[i..i + op.len][k] == ns[j..j + op.len][k];
  }

  // ----- The text between the tokens -----

  /** Where the cursor stands when the first `i` tokens are done. */
  function GapStart(ts: seq<Token>, from: nat, i: nat): nat {
    if 0 < i <= |ts| then ts[i - 1].end else from
  }

  function GapEnd(ts: seq<Token>, to: nat, i: nat): nat {
    if i < |ts| then ts[i].start else to
  }

  /**
   * The old token before which the diff stands at new token `k` of `n`, if it comes there straight from a pair of
   * equal tokens, or from the start, and goes on on both sides: `before` is the partner of token `k - 1`.
   */
  function PassesAt(k: nat, n: nat, m: nat, before: Option<nat>, role: D.Role): Option<nat> {
    var here := if k == 0 then Some(0) else if before.Some? then Some(before.value + 1) else None;
    var there :=
      if k == n then Some(m)
      else match role case Paired(o) => Some(o) case Starts(o) => o case Continues => None;
    if here.Some? && here == there then here else None
  }

  predicate SameText(olds: string, a: nat, a': nat, news: string, b: nat, b': nat) {
    a <= a' <= |olds| && b <= b' <= |news| && olds[a..a'] == news[b..b']
  }

  /**
   * The text before new token `k`, or after the last one.  Between two pairs, and before a replacement after a
   * pair, it is copied if it is the same on both sides.  Otherwise it is inserted: inside a changed stretch it is
   * substantive with it, and elsewhere it is one insertion of its own that is not substantive.
   */
  ghost predicate GapAccounted(w: Work, ds: seq<ByteDiff>, da: nat, db: nat, rs: seq<Range>, k: nat,
                               before: Option<nat>, role: D.Role)
  {
    var lo, hi := GapStart(w.newToks, w.b, k), GapEnd(w.newToks, w.b', k);
    var i := PassesAt(k, |w.newToks|, |w.oldToks|, before, role);
    if i.Some? && SameText(w.olds, GapStart(w.oldToks, w.a, i.value), GapEnd(w.oldToks, w.a', i.value),
                           w.news, lo, hi)
    then Copied(ds, da, db, lo, hi, GapStart(w.oldToks, w.a, i.value))
    else
      && Inserted(ds, da, db, lo, hi)
      && if k < |w.newToks| && role.Continues? then lo < hi ==> CoveredBy(rs, lo, hi)
         else
           && lo <= hi <= |w.news|
           && PlainInsertion(ds, da, db, rs, lo, hi, w.news[lo..hi],
                             if i.Some? then Some(GapEnd(w.oldToks, w.a', i.value)) else None)
  }

  /**
   * `[lo, hi)` is what one Insert diff writes, after the old text up to `from` is read, and no substantive range
   * has a part of it.
   */
  ghost predicate PlainInsertion(ds: seq<ByteDiff>, da: nat, db: nat, rs: seq<Range>, lo: nat, hi: nat, text: string,
                                 from: Option<nat>) {
    forall p: nat | lo <= p < hi ::
      && !InSome(rs, p)
      && InsertAt(ds, p, da, db).Some?
      && var s := InsertAt(ds, p, da, db).value;
         s.start == lo && s.data == text && (from.Some? ==> s.from == from.value)
  }

  /** All of them, with the pairing read off the library's hunks. */
  ghost predicate GapsAccounted(w: Work, differ: D.Differ, ds: seq<ByteDiff>, da: nat, db: nat, rs: seq<Range>) {
    var hunks := differ(Lexemes(w.oldToks), Lexemes(w.newToks));
    forall k: nat | k <= |w.newToks| ::
      GapAccounted(w, ds, da, db, rs, k, PartnerBefore(hunks, k), RoleAt(hunks, |w.newToks|, k))
  }

  function PartnerBefore(hunks: seq<D.Hunk>, k: nat): Option<nat> {
    if k == 0 then None else D.Counterpart(hunks, k - 1)
  }

  function RoleAt(hunks: seq<D.Hunk>, n: nat, k: nat): D.Role {
    if k < n then D.RoleOf(hunks, k) else D.Continues
  }

  ghost function OpBefore(w: Work, k: nat): Option<nat> {
    if k == 0 then None else D.OpCounterpart(w.ops, k - 1)
  }

  ghost function RoleHere(w: Work, k: nat): D.Role {
    if k < |w.newToks| then D.OpRole(w.ops, k) else D.Continues
  }

  /** The text before each of the first `j` new tokens. */
  ghost predicate Gaps(w: Work, ds: seq<ByteDiff>, rs: seq<Range>, j: nat) {
    forall k | 0 <= k < j :: GapAccounted(w, ds, w.a, w.b, rs, k, OpBefore(w, k), RoleHere(w, k))
  }

  /** Nothing that is said of the text before `n` changes. */
  ghost predicate Unchanged(w: Work, ds: seq<ByteDiff>, rs: seq<Range>, ds': seq<ByteDiff>, rs': seq<Range>, n: nat) {
    && (forall p: nat | w.b <= p < n ::
          && SourceAt(ds', p, w.a, w.b) == SourceAt(ds, p, w.a, w.b)
          && InsertAt(ds', p, w.a, w.b) == InsertAt(ds, p, w.a, w.b)
          && (InSome(rs', p) <==> InSome(rs, p)))
    && forall lo: nat, hi: nat | CoveredBy(rs, lo, hi) :: CoveredBy(rs', lo, hi)
  }

  lemma {:induction false} GapKept(w: Work, ds: seq<ByteDiff>, rs: seq<Range>, ds': seq<ByteDiff>, rs': seq<Range>,
                                   n: nat, k: nat, before: Option<nat>, role: D.Role)
    requires Unchanged(w, ds, rs, ds', rs', n) && GapAccounted(w, ds, w.a, w.b, rs, k, before, role)
    requires w.b <= GapStart(w.newToks, w.b, k) && GapEnd(w.newToks, w.b', k) <= n
    ensures GapAccounted(w, ds', w.a, w.b, rs', k, before, role)
  {
    hide SourceAt, InsertAt, InSome, CoveredBy, SameText, PassesAt;
  }

  lemma {:induction false} GapsKept(w: Work, ds: seq<ByteDiff>, rs: seq<Range>, ds': seq<ByteDiff>, rs': seq<Range>,
                                    n: nat, j: nat)
    requires Unchanged(w, ds, rs, ds', rs', n) && Gaps(w, ds, rs, j) && ValidWork(w)
    requires j <= |w.newToks| && (j > 0 ==> w.newToks[j - 1].start <= n)
    ensures Gaps(w, ds', rs', j)
  {
    hide Unchanged, GapAccounted, OpBefore, RoleHere, ValidWork;
    forall k | 0 <= k < j ensures GapAccounted(w, ds', w.a, w.b, rs', k, OpBefore(w, k), RoleHere(w, k)) {
      GapIsBefore(w, k, j);
      GapKept(w, ds, rs, ds', rs', n, k, OpBefore(w, k), RoleHere(w, k));
    }
  }

  lemma {:induction false} GapIsBefore(w: Work, k: nat, j: nat)
    requires ValidWork(w) && k < j <= |w.newToks|
    ensures w.b <= GapStart(w.newToks, w.b, k) && GapEnd(w.newToks, w.b', k) <= w.newToks[j - 1].start
  {
    assert k < j - 1 ==> w.newToks[k].end <= w.newToks[j - 1].start;
  }

  /** Later diffs change nothing before them. */
  lemma {:induction false} ExtendUnchanged(w: Work, ds: seq<ByteDiff>, m: nat, n: nat, rs: seq<Range>,
                                           y: seq<ByteDiff>, m': nat, n': nat)
    requires Rewrites(ds, w.olds, w.a, m, w.news, w.b, n) && Rewrites(y, w.olds, m, m', w.news, n, n')
    ensures Unchanged(w, ds, rs, ds + y, rs, n)
    ensures forall p: nat | n <= p ::
              && SourceAt(ds + y, p, w.a, w.b) == SourceAt(y, p, m, n)
              && InsertAt(ds + y, p, w.a, w.b) == InsertAt(y, p, m, n)
  {
    RewritesAppend(ds, y, w.olds, w.a, m, m', w.news, w.b, n, n');
  }

  /** The diff comes to old token `i` and new token `j` straight from a pair, or from the start. */
  ghost predicate Straight(w: Work, i: nat, j: nat) {
    (i == 0 && j == 0) || (i > 0 && j > 0 && D.OpCounterpart(w.ops, j - 1) == Some(i - 1))
  }

  /** The text before new token `j` is pushed, up to old position `m'`. */
  lemma {:induction false} GapPushed(w: Work, ds: seq<ByteDiff>, rs: seq<Range>, i: nat, j: nat, m': nat,
                                     changed: bool, piece: seq<ByteDiff>)
    requires i <= |w.oldToks| && j <= |w.newToks|
    requires var m, n := GapStart(w.oldToks, w.a, i), GapStart(w.newToks, w.b, j);
             && Rewrites(ds, w.olds, w.a, m, w.news, w.b, n) && InsertedRanges(ds, w.a, w.b, n, rs)
             && SplitsRange(piece, w.olds, m, m', w.news, n, GapEnd(w.newToks, w.b', j), changed)
             && match PassesAt(j, |w.newToks|, |w.oldToks|, OpBefore(w, j), RoleHere(w, j))
                case Some(o) => o == i && !changed && m' == GapEnd(w.oldToks, w.a', i)
                case None => changed || m' == m
    requires j < |w.newToks| ==> !RoleHere(w, j).Continues?
    ensures GapAccounted(w, ds + piece, w.a, w.b, rs, j, OpBefore(w, j), RoleHere(w, j))
  {
    var m, n := GapStart(w.oldToks, w.a, i), GapStart(w.newToks, w.b, j);
    hide *;
    GapPoints(w, ds, rs, m, n, m', GapEnd(w.newToks, w.b', j), changed, piece);
    GapFromPoints(w, ds + piece, rs, i, j, m', changed, OpBefore(w, j), RoleHere(w, j));
  }

  /** What the pushed text is, position by position. */
  ghost predicate PointsAre(w: Work, ds: seq<ByteDiff>, rs: seq<Range>, m: nat, n: nat, m': nat, n': nat,
                            copied: bool) {
    && m <= m' <= |w.olds| && n <= n' <= |w.news|
    && forall p: nat | n <= p < n' ::
         if copied then SourceAt(ds, p, w.a, w.b) == Some(m + (p - n))
         else
           && SourceAt(ds, p, w.a, w.b) == None && !InSome(rs, p)
           && InsertAt(ds, p, w.a, w.b) == Some(Insertion(n, m', w.news[n..n']))
  }

  lemma {:induction false} GapPoints(w: Work, ds: seq<ByteDiff>, rs: seq<Range>, m: nat, n: nat, m': nat, n': nat,
                                     changed: bool, piece: seq<ByteDiff>)
    requires Rewrites(ds, w.olds, w.a, m, w.news, w.b, n) && InsertedRanges(ds, w.a, w.b, n, rs)
    requires SplitsRange(piece, w.olds, m, m', w.news, n, n', changed)
    ensures m <= m' <= |w.olds| && n <= n' <= |w.news|
    ensures PointsAre(w, ds + piece, rs, m, n, m', n', !changed && w.olds[m..m'] == w.news[n..n'])
  {
    ExtendUnchanged(w, ds, m, n, rs, piece, m', n');
    hide SourceAt, InsertAt, Unchanged, InSome;
    forall p: nat | n <= p ensures !InSome(rs, p) {
      NotInRanges(ds, w.a, w.b, n, rs, p);
    }
  }

  lemma {:induction false} GapFromPoints(w: Work, ds: seq<ByteDiff>, rs: seq<Range>, i: nat, j: nat, m': nat,
                                         changed: bool, before: Option<nat>, role: D.Role)
    requires i <= |w.oldToks| && j <= |w.newToks| && (j < |w.newToks| ==> !role.Continues?)
    requires var m, n, n' := GapStart(w.oldToks, w.a, i), GapStart(w.newToks, w.b, j), GapEnd(w.newToks, w.b', j);
             && m <= m' <= |w.olds| && n <= n' <= |w.news|
             && PointsAre(w, ds, rs, m, n, m', n', !changed && w.olds[m..m'] == w.news[n..n'])
             && match PassesAt(j, |w.newToks|, |w.oldToks|, before, role)
                case Some(o) => o == i && !changed && m' == GapEnd(w.oldToks, w.a', i)
                case None => changed || m' == m
    ensures GapAccounted(w, ds, w.a, w.b, rs, j, before, role)
  {
    hide SourceAt, InsertAt, InSome, PassesAt;
  }

  lemma {:induction false} NotInRanges(ds: seq<ByteDiff>, a: nat, b: nat, n: nat, rs: seq<Range>, p: nat)
    requires InsertedRanges(ds, a, b, n, rs) && n <= p
    ensures !InSome(rs, p)
  {
  }

  /** The cursors stand after old token `i - 1` and new token `j - 1`, and all before them is done. */
  ghost predicate Done(w: Work, st: TokenState, i: nat, j: nat) {
    && ValidWork(w) && i <= |w.oldToks| && j <= |w.newToks|
    && st.m == GapStart(w.oldToks, w.a, i) && st.n == GapStart(w.newToks, w.b, j)
    && Progress(w, st.diffs, st.m, st.n, st.ranges, j)
    && Gaps(w, st.diffs, st.ranges, j)
    && st.changed == !Straight(w, i, j)
    && PartnersBefore(w, i, j)
  }

  ghost predicate PartnersBefore(w: Work, i: nat, j: nat) {
    forall k: nat | k < j && D.OpCounterpart(w.ops, k).Some? :: D.OpCounterpart(w.ops, k).value < i
  }

  lemma {:induction false} WorkCursors(w: Work, i: nat, j: nat)
    requires ValidWork(w) && i <= |w.oldToks| && j <= |w.newToks|
    ensures w.a' <= |w.olds| && w.b' <= |w.news|
    ensures w.a <= GapStart(w.oldToks, w.a, i) <= w.a' && w.b <= GapStart(w.newToks, w.b, j) <= w.b'
    ensures forall k | i <= k < |w.oldToks| ::
              GapStart(w.oldToks, w.a, i) <= w.oldToks[k].start < w.oldToks[k].end <= w.a'
    ensures forall k | j <= k < |w.newToks| ::
              GapStart(w.newToks, w.b, j) <= w.newToks[k].start < w.newToks[k].end <= w.b'
    ensures forall k, k' | i <= k <= k' < |w.oldToks| :: w.oldToks[k].start < w.oldToks[k'].end
    ensures forall k, k' | j <= k <= k' < |w.newToks| :: w.newToks[k].start < w.newToks[k'].end
  {
    CursorBeforeToken(w.olds, w.oldToks, w.a, w.a', i);
    CursorBeforeToken(w.news, w.newToks, w.b, w.b', j);
  }

  /** The next old and new token lie ahead of the cursors. */
  lemma {:induction false} NextPair(w: Work, i: nat, j: nat)
    requires ValidWork(w) && i < |w.oldToks| && j < |w.newToks|
    ensures w.a' <= |w.olds| && w.b' <= |w.news|
    ensures GapStart(w.oldToks, w.a, i) <= w.oldToks[i].start < w.oldToks[i].end <= w.a'
    ensures GapStart(w.newToks, w.b, j) <= w.newToks[j].start < w.newToks[j].end <= w.b'
    ensures GapStart(w.oldToks, w.a, i + 1) == w.oldToks[i].end && GapStart(w.newToks, w.b, j + 1) == w.newToks[j].end
  {
    WorkCursors(w, i, j);
  }

  // ----- The loop as a function -----

  /** What the loop has written, where its cursors stand, and whether the last thing it wrote was a change. */
  datatype TokenState = TokenState(diffs: seq<ByteDiff>, ranges: seq<Range>, m: nat, n: nat, changed: bool)

  function Slice(c: string, i: nat, j: nat): string {
    if i <= j <= |c| then c[i..j] else []
  }

  /** The text between the cursors and the next tokens, or the ends. */
  function GapDiffs(w: Work, st: TokenState, m: nat, n: nat): seq<ByteDiff> {
    if st.m <= m <= |w.olds| && st.n <= n <= |w.news| then
      RangeDiffs(w.olds, w.news, st.m, m, st.n, n, st.changed)
    else []
  }

  function TokenStart(ts: seq<Token>, i: nat, cursor: nat): nat {
    if i < |ts| then ts[i].start else cursor
  }

  /** The end of the last of `n` tokens from number `i` on. */
  function TokensEnd(ts: seq<Token>, i: nat, n: nat, cursor: nat): nat {
    if 0 < n && i + n <= |ts| then ts[i + n - 1].end else cursor
  }

  function AfterPairs(w: Work, st: TokenState, i: nat, j: nat, len: nat): TokenState {
    if len == 0 then st else AfterPair(w, AfterPairs(w, st, i, j, len - 1), i + len - 1, j + len - 1)
  }

  function AfterPair(w: Work, st: TokenState, i: nat, j: nat): TokenState {
    var m, n := TokenStart(w.oldToks, i, st.m), TokenStart(w.newToks, j, st.n);
    var m', n' := TokensEnd(w.oldToks, i, 1, st.m), TokensEnd(w.newToks, j, 1, st.n);
    TokenState((st.diffs + GapDiffs(w, st, m, n)) + [ByteDiff(Equal, Slice(w.news, n, n'))], st.ranges, m', n', false)
  }

  /** One op: the text before its tokens, and then one diff for each side that it changes. */
  function AfterOp(w: Work, st: TokenState, op: D.DiffOp): TokenState {
    match op
    case Equal(i, j, len) => AfterPairs(w, st, i, j, len)
    case Delete(i, len, _) =>
      var m, m' := TokenStart(w.oldToks, i, st.m), TokensEnd(w.oldToks, i, len, st.m);
      if len == 0 then st else
      TokenState((st.diffs + GapDiffs(w, st, m, st.n)) + [ByteDiff(Delete, Slice(w.olds, m, m'))], st.ranges, m', st.n,
                 true)
    case Insert(_, j, len) =>
      var n, n' := TokenStart(w.newToks, j, st.n), TokensEnd(w.newToks, j, len, st.n);
      if len == 0 then st else
      TokenState((st.diffs + GapDiffs(w, st, st.m, n)) + [ByteDiff(Insert, Slice(w.news, n, n'))],
                 st.ranges + [(n, n')], st.m, n', true)
    case Replace(i, oldLen, j, newLen) =>
      var m, n := TokenStart(w.oldToks, i, st.m), TokenStart(w.newToks, j, st.n);
      var m', n' := TokensEnd(w.oldToks, i, oldLen, m), TokensEnd(w.newToks, j, newLen, n);
      var gone := if oldLen > 0 then [ByteDiff(Delete, Slice(w.olds, m, m'))] else [];
      var come := if newLen > 0 then [ByteDiff(Insert, Slice(w.news, n, n'))] else [];
      TokenState(((st.diffs + GapDiffs(w, st, m, n)) + gone) + come,
                 st.ranges + (if newLen > 0 then [(n, n')] else []), m', n', true)
  }

  function AfterOps(w: Work, t: nat): TokenState
    requires t <= |w.ops|
  {
    if t == 0 then TokenState([], [], w.a, w.b, false) else AfterOp(w, AfterOps(w, t - 1), w.ops[t - 1])
  }

  ghost function WorkOf(cc: CharClass, differ: D.Differ, olds: string, a: nat, a': nat, news: string, b: nat,
                        b': nat): Work
    requires D.HonestDiffer(differ) && a' <= |olds| && b' <= |news|
  {
    var oldToks, newToks := Tokens(cc, olds, a, a'), Tokens(cc, news, b, b');
    Work(olds, a, a', news, b, b', oldToks, newToks, D.DiffSpec(differ, Lexemes(oldToks), Lexemes(newToks)))
  }

  /** The texts and the tokens of a hunk alone. */
  ghost function HunkTexts(cc: CharClass, olds: string, a: nat, a': nat, news: string, b: nat, b': nat): Work
    requires a' <= |olds| && b' <= |news|
  {
    Work(olds, a, a', news, b, b', Tokens(cc, olds, a, a'), Tokens(cc, news, b, b'), [])
  }

  lemma {:induction false} GapsOfTexts(w: Work, differ: D.Differ, ds: seq<ByteDiff>, da: nat, db: nat, rs: seq<Range>)
    requires GapsAccounted(w, differ, ds, da, db, rs)
    ensures GapsAccounted(w.(ops := []), differ, ds, da, db, rs)
  {
    var w' := w.(ops := []);
    var hunks := differ(Lexemes(w.oldToks), Lexemes(w.newToks));
    hide Lexemes, SourceAt, InsertAt, InSome, CoveredBy, SameText, PassesAt, PartnerBefore, RoleAt;
    forall k: nat | k <= |w.newToks|
      ensures GapAccounted(w', ds, da, db, rs, k, PartnerBefore(hunks, k), RoleAt(hunks, |w.newToks|, k))
    {
      assert GapAccounted(w, ds, da, db, rs, k, PartnerBefore(hunks, k), RoleAt(hunks, |w.newToks|, k));
    }
  }

  /** The diffs of a hunk with these tokens and ops, and its substantive ranges. */
  function TokenDiffs(w: Work): seq<ByteDiff> {
    var st := if w.oldToks == w.newToks == [] then AfterOps(w, 0) else AfterOps(w, |w.ops|);
    st.diffs + GapDiffs(w, st, w.a', w.b')
  }

  function TokenRanges(w: Work): seq<Range> {
    if w.oldToks == w.newToks == [] then [] else AfterOps(w, |w.ops|).ranges
  }

  lemma {:induction false} PairPushed(w: Work, st: TokenState, i: nat, j: nat)
    requires i < |w.oldToks| && j < |w.newToks|
    requires st.m <= w.oldToks[i].start <= |w.olds| && st.n <= w.newToks[j].start <= w.newToks[j].end <= |w.news|
    ensures AfterPair(w, st, i, j)
         == TokenState((st.diffs + RangeDiffs(w.olds, w.news, st.m, w.oldToks[i].start, st.n, w.newToks[j].start,
                                              st.changed))
                       + [ByteDiff(Equal, w.news[w.newToks[j].start..w.newToks[j].end])],
                       st.ranges, w.oldToks[i].end, w.newToks[j].end, false)
  {
    hide RangeDiffs;
  }

  // ----- What each op keeps -----

  /** The text before new token `j` is done with it. */
  lemma {:induction false} GapStep(w: Work, st: TokenState, i: nat, j: nat, m': nat)
    requires Done(w, st, i, j) && st.m <= m' <= w.a' && st.n <= GapEnd(w.newToks, w.b', j) <= w.b'
    requires j < |w.newToks| ==> !RoleHere(w, j).Continues?
    requires match PassesAt(j, |w.newToks|, |w.oldToks|, OpBefore(w, j), RoleHere(w, j))
             case Some(o) => o == i && !st.changed && m' == GapEnd(w.oldToks, w.a', i)
             case None => st.changed || m' == st.m
    ensures m' <= |w.olds| && GapEnd(w.newToks, w.b', j) <= |w.news|
    ensures var ds := st.diffs + RangeDiffs(w.olds, w.news, st.m, m', st.n, GapEnd(w.newToks, w.b', j), st.changed);
            Progress(w, ds, m', GapEnd(w.newToks, w.b', j), st.ranges, j) && Gaps(w, ds, st.ranges, j + 1)
  {
    var n' := GapEnd(w.newToks, w.b', j);
    WorkCursors(w, i, j);
    ProgressParts(w, st.diffs, st.m, st.n, st.ranges, j);
    var piece := RangeDiffs(w.olds, w.news, st.m, m', st.n, n', st.changed);
    RangeRewrites(w.olds, w.news, st.m, m', st.n, n', st.changed);
    SplitRewrites(piece, w.olds, st.m, m', w.news, st.n, n', st.changed);
    hide RangeDiffs, Progress, Rewrites, SplitsRange, InsertedRanges, GapAccounted, PassesAt, ValidWork, Straight;
    hide PartnersBefore, OpBefore, RoleHere, Unchanged;
    PushGap(w, st.diffs, st.m, st.n, st.ranges, j, m', n', st.changed);
    GapPushed(w, st.diffs, st.ranges, i, j, m', st.changed, piece);
    ExtendUnchanged(w, st.diffs, st.m, st.n, st.ranges, piece, m', n');
    LastEndsBefore(w, j);
    GapsKept(w, st.diffs, st.ranges, st.diffs + piece, st.ranges, st.n, j);
  }

  lemma {:induction false} ProgressParts(w: Work, ds: seq<ByteDiff>, m: nat, n: nat, rs: seq<Range>, j: nat)
    requires Progress(w, ds, m, n, rs, j)
    ensures Rewrites(ds, w.olds, w.a, m, w.news, w.b, n) && InsertedRanges(ds, w.a, w.b, n, rs) && NoEmpty(ds)
  {
  }

  lemma {:induction false} SplitRewrites(ds: seq<ByteDiff>, olds: string, a: nat, a': nat, news: string, b: nat,
                                         b': nat, forceSplit: bool)
    requires SplitsRange(ds, olds, a, a', news, b, b', forceSplit)
    ensures Rewrites(ds, olds, a, a', news, b, b')
  {
  }

  lemma {:induction false} LastEndsBefore(w: Work, j: nat)
    requires ValidWork(w) && j <= |w.newToks|
    ensures j > 0 ==> w.newToks[j - 1].start <= GapStart(w.newToks, w.b, j)
  {
  }

  /** One more diff after the first `j` gaps. */
  lemma {:induction false} GapsExtend(w: Work, ds: seq<ByteDiff>, rs: seq<Range>, j: nat, m: nat, n: nat,
                                      d: ByteDiff, m': nat, n': nat)
    requires ValidWork(w) && Gaps(w, ds, rs, j) && j <= |w.newToks| && (j > 0 ==> w.newToks[j - 1].start <= n)
    requires Rewrites(ds, w.olds, w.a, m, w.news, w.b, n) && Rewrites([d], w.olds, m, m', w.news, n, n')
    ensures Gaps(w, ds + [d], rs, j)
  {
    hide Rewrites, Gaps, ValidWork, Unchanged;
    ExtendUnchanged(w, ds, m, n, rs, [d], m', n');
    GapsKept(w, ds, rs, ds + [d], rs, n, j);
  }

  lemma {:induction false} PairStep(w: Work, st: TokenState, i: nat, j: nat)
    requires Done(w, st, i, j) && i < |w.oldToks| && j < |w.newToks|
    requires w.oldToks[i].lexeme == w.newToks[j].lexeme
    requires D.OpCounterpart(w.ops, j) == Some(i) && D.OpRole(w.ops, j) == D.Paired(i)
    ensures Done(w, AfterPair(w, st, i, j), i + 1, j + 1)
  {
    NextPair(w, i, j);
    PairPushed(w, st, i, j);
    PairPasses(w, st, i, j);
    StraightAfterPair(w, i, j);
    var m, n, n' := w.oldToks[i].start, w.newToks[j].start, w.newToks[j].end;
    hide AfterPair, PassesAt, Straight, PartnersBefore, ValidWork, RangeDiffs, Progress, Gaps;
    GapStep(w, st, i, j, m);
    var ds := st.diffs + RangeDiffs(w.olds, w.news, st.m, m, st.n, n, st.changed);
    PushEqual(w, ds, m, n, st.ranges, i, j);
    ProgressParts(w, ds, m, n, st.ranges, j);
    PairRewrites(w, i, j);
    GapsExtend(w, ds, st.ranges, j + 1, m, n, ByteDiff(Equal, w.news[n..n']), w.oldToks[i].end, n');
  }

  lemma {:induction false} PairRewrites(w: Work, i: nat, j: nat)
    requires ValidWork(w) && i < |w.oldToks| && j < |w.newToks| && w.oldToks[i].lexeme == w.newToks[j].lexeme
    requires w.a' <= |w.olds| && w.b' <= |w.news|
    requires w.oldToks[i].start < w.oldToks[i].end <= w.a' && w.newToks[j].start < w.newToks[j].end <= w.b'
    ensures Rewrites([ByteDiff(Equal, w.news[w.newToks[j].start..w.newToks[j].end])], w.olds, w.oldToks[i].start,
                     w.oldToks[i].end, w.news, w.newToks[j].start, w.newToks[j].end)
  {
    var m, m', n, n' := w.oldToks[i].start, w.oldToks[i].end, w.newToks[j].start, w.newToks[j].end;
    assert w.olds[m..m'] == w.news[n..n'];
    OneRewrites(ByteDiff(Equal, w.news[n..n']), w.olds, m, m', w.news, n, n');
  }

  lemma {:induction false} PairPasses(w: Work, st: TokenState, i: nat, j: nat)
    requires i < |w.oldToks| && j < |w.newToks| && D.OpRole(w.ops, j) == D.Paired(i) && st.changed == !Straight(w, i, j)
    ensures match PassesAt(j, |w.newToks|, |w.oldToks|, OpBefore(w, j), RoleHere(w, j))
            case Some(o) => o == i && !st.changed
            case None => st.changed
    ensures !RoleHere(w, j).Continues?
  {
  }

  lemma {:induction false} StraightAfterPair(w: Work, i: nat, j: nat)
    requires D.OpCounterpart(w.ops, j) == Some(i) && PartnersBefore(w, i, j)
    ensures Straight(w, i + 1, j + 1) && PartnersBefore(w, i + 1, j + 1)
  {
  }

  lemma {:induction false} PairsStep(w: Work, st: TokenState, op: D.DiffOp, i: nat, j: nat, k: nat)
    requires Done(w, st, i, j) && op.Equal? && D.OpFits(Lexemes(w.oldToks), Lexemes(w.newToks), op, i, j) && k <= op.len
    requires forall l: nat | j <= l < j + op.len ::
               D.OpCounterpart(w.ops, l) == Some(i + (l - j)) && D.OpRole(w.ops, l) == D.Paired(i + (l - j))
    ensures Done(w, AfterPairs(w, st, i, j, k), i + k, j + k)
    decreases k
  {
    hide *;
    NextPairs(w, st, i, j, k);
    if k > 0 {
      PairsStep(w, st, op, i, j, k - 1);
      PairedLexemes(w, op, i, j, k - 1);
      PairStep(w, AfterPairs(w, st, i, j, k - 1), i + (k - 1), j + (k - 1));
    }
  }

  lemma {:induction false} NextPairs(w: Work, st: TokenState, i: nat, j: nat, k: nat)
    ensures AfterPairs(w, st, i, j, k)
         == if k == 0 then st else AfterPair(w, AfterPairs(w, st, i, j, k - 1), i + (k - 1), j + (k - 1))
  {
    hide AfterPair;
  }

  lemma {:induction false} ChangedAfterDelete(w: Work, i: nat, j: nat, len: nat)
    requires PartnersBefore(w, i, j) && len > 0
    ensures !Straight(w, i + len, j) && PartnersBefore(w, i + len, j)
  {
  }

  lemma {:induction false} DeleteStep(w: Work, st: TokenState, i: nat, j: nat, len: nat, at: nat)
    requires Done(w, st, i, j) && 0 < len && i + len <= |w.oldToks|
    ensures Done(w, AfterOp(w, st, D.Delete(i, len, at)), i + len, j)
  {
    hide *;
    DoneParts(w, st, i, j);
    WorkCursors(w, i, j);
    ChangedAfterDelete(w, i, j, len);
    ProgressParts(w, st.diffs, st.m, st.n, st.ranges, j);
    LastEndsBefore(w, j);
    DeleteIs(w, st, i, len, at);
    var m, m' := w.oldToks[i].start, w.oldToks[i + len - 1].end;
    var piece, d := RangeDiffs(w.olds, w.news, st.m, m, st.n, st.n, st.changed), ByteDiff(Delete, w.olds[m..m']);
    RangeRewrites(w.olds, w.news, st.m, m, st.n, st.n, st.changed);
    SplitRewrites(piece, w.olds, st.m, m, w.news, st.n, st.n, st.changed);
    DeleteRewrites(w.olds, m, m', w.news, st.n);
    PushGap(w, st.diffs, st.m, st.n, st.ranges, j, m, st.n, st.changed);
    PushDelete(w, st.diffs + piece, m, st.n, st.ranges, j, m');
    ExtendUnchanged(w, st.diffs, st.m, st.n, st.ranges, piece, m, st.n);
    GapsKept(w, st.diffs, st.ranges, st.diffs + piece, st.ranges, st.n, j);
    ProgressParts(w, st.diffs + piece, m, st.n, st.ranges, j);
    GapsExtend(w, st.diffs + piece, st.ranges, j, m, st.n, d, m', st.n);
    CursorAfter(w.oldToks, w.a, i, len);
    DoneIntro(w, AfterOp(w, st, D.Delete(i, len, at)), i + len, j);
  }

  lemma {:induction false} DeleteIs(w: Work, st: TokenState, i: nat, len: nat, at: nat)
    requires 0 < len && i + len <= |w.oldToks| && st.n <= |w.news|
    requires st.m <= w.oldToks[i].start <= w.oldToks[i + len - 1].end <= |w.olds|
    ensures var m, m' := w.oldToks[i].start, w.oldToks[i + len - 1].end;
            var piece := RangeDiffs(w.olds, w.news, st.m, m, st.n, st.n, st.changed);
            AfterOp(w, st, D.Delete(i, len, at))
            == TokenState((st.diffs + piece) + [ByteDiff(Delete, w.olds[m..m'])], st.ranges, m', st.n, true)
  {
    hide RangeDiffs;
  }

  /** The inserted tokens `j..j'` and the text between them. */
  lemma {:induction false} GapsInserted(w: Work, ds: seq<ByteDiff>, rs: seq<Range>, m: nat, j: nat, j': nat)
    requires ValidWork(w) && j < j' <= |w.newToks| && Gaps(w, ds, rs, j + 1) && m <= |w.olds|
    requires Rewrites(ds, w.olds, w.a, m, w.news, w.b, w.newToks[j].start)
    requires forall k: nat | j < k < j' :: D.OpRole(w.ops, k) == D.Continues
    ensures w.newToks[j].start <= w.newToks[j' - 1].end <= |w.news|
    ensures var n, end := w.newToks[j].start, w.newToks[j' - 1].end;
            Gaps(w, ds + [ByteDiff(Insert, w.news[n..end])], rs + [(n, end)], j')
  {
    var n, end := w.newToks[j].start, w.newToks[j' - 1].end;
    var d, rs' := ByteDiff(Insert, w.news[w.newToks[j].start..w.newToks[j' - 1].end]), rs + [(n, end)];
    assert j < j' - 1 ==> w.newToks[j].end <= w.newToks[j' - 1].start;
    OneRewrites(d, w.olds, m, m, w.news, n, end);
    ExtendUnchanged(w, ds, m, n, rs, [d], m, end);
    MoreRanges(w, ds, rs, ds + [d], n, end);
    hide Rewrites, Unchanged, SourceAt, InsertAt, GapAccounted, RoleHere, OpBefore;
    GapsKept(w, ds, rs, ds + [d], rs', n, j + 1);
    forall k | j < k < j' ensures GapAccounted(w, ds + [d], w.a, w.b, rs', k, OpBefore(w, k), RoleHere(w, k)) {
      InsideInserted(w, ds + [d], rs', j, j', k);
    }
  }

  lemma {:induction false} MoreRanges(w: Work, ds: seq<ByteDiff>, rs: seq<Range>, ds': seq<ByteDiff>, n: nat, end: nat)
    requires Unchanged(w, ds, rs, ds', rs, n)
    ensures Unchanged(w, ds, rs, ds', rs + [(n, end)], n)
    ensures CoveredBy(rs + [(n, end)], n, end)
  {
    var rs' := rs + [(n, end)];
    assert rs'[|rs|] == (n, end);
    forall lo: nat, hi: nat | CoveredBy(rs, lo, hi) ensures CoveredBy(rs', lo, hi) {
      var r :| r in rs && r.0 <= lo && hi <= r.1;
      assert r in rs';
    }
    forall p: nat | w.b <= p < n ensures InSome(rs', p) <==> InSome(rs, p) {
      if InSome(rs, p) {
        var r :| r in rs && Contains(r, p);
        assert r in rs';
      }
    }
  }

  lemma {:induction false} InsideInserted(w: Work, ds: seq<ByteDiff>, rs: seq<Range>, j: nat, j': nat, k: nat)
    requires ValidWork(w) && j < k < j' <= |w.newToks| && D.OpRole(w.ops, k) == D.Continues
    requires var n, end := w.newToks[j].start, w.newToks[j' - 1].end;
             CoveredBy(rs, n, end) && Inserted(ds, w.a, w.b, n, end)
    ensures GapAccounted(w, ds, w.a, w.b, rs, k, OpBefore(w, k), RoleHere(w, k))
  {
    assert w.newToks[j].start <= GapStart(w.newToks, w.b, k) && w.newToks[k].start <= w.newToks[j' - 1].end by {
      assert j < k - 1 ==> w.newToks[j].end <= w.newToks[k - 1].start;
      assert k < j' - 1 ==> w.newToks[k].end <= w.newToks[j' - 1].start;
    }
    hide SourceAt, InsertAt, SameText;
  }

  lemma {:induction false} InsertPasses(w: Work, i: nat, j: nat)
    requires j < |w.newToks| && D.OpRole(w.ops, j) == D.Starts(None)
    ensures PassesAt(j, |w.newToks|, |w.oldToks|, OpBefore(w, j), RoleHere(w, j)) == None
    ensures !RoleHere(w, j).Continues?
  {
  }

  lemma {:induction false} ChangedAfterInsert(w: Work, i: nat, j: nat, i': nat, j': nat)
    requires PartnersBefore(w, i, j) && j < j' && i <= i'
    requires forall k: nat | j <= k < j' :: D.OpCounterpart(w.ops, k) == None
    ensures !Straight(w, i', j') && PartnersBefore(w, i', j')
  {
  }

  lemma {:induction false} InsertStep(w: Work, st: TokenState, i: nat, j: nat, len: nat, at: nat)
    requires Done(w, st, i, j) && 0 < len && j + len <= |w.newToks|
    requires forall k: nat | j <= k < j + len :: D.OpCounterpart(w.ops, k) == None
    requires D.OpRole(w.ops, j) == D.Starts(None)
    requires forall k: nat | j < k < j + len :: D.OpRole(w.ops, k) == D.Continues
    ensures Done(w, AfterOp(w, st, D.Insert(at, j, len)), i, j + len)
  {
    hide *;
    DoneParts(w, st, i, j);
    WorkCursors(w, i, j);
    ChangedAfterInsert(w, i, j, i, j + len);
    InsertPasses(w, i, j);
    InsertIs(w, st, i, j, len, at);
    TokenGapEnd(w, j);
    var n, n' := w.newToks[j].start, w.newToks[j + len - 1].end;
    var piece, d := RangeDiffs(w.olds, w.news, st.m, st.m, st.n, n, st.changed), ByteDiff(Insert, w.news[n..n']);
    GapStep(w, st, i, j, st.m);
    PushInsert(w, st.diffs + piece, st.m, n, st.ranges, j, j + len);
    ProgressParts(w, st.diffs + piece, st.m, n, st.ranges, j);
    GapsInserted(w, st.diffs + piece, st.ranges, st.m, j, j + len);
    CursorAfter(w.newToks, w.b, j, len);
    DoneIntro(w, AfterOp(w, st, D.Insert(at, j, len)), i, j + len);
  }

  lemma {:induction false} InsertIs(w: Work, st: TokenState, i: nat, j: nat, len: nat, at: nat)
    requires 0 < len && j + len <= |w.newToks| && st.m <= |w.olds|
    requires st.n <= w.newToks[j].start <= w.newToks[j + len - 1].end <= |w.news|
    ensures var n, n' := w.newToks[j].start, w.newToks[j + len - 1].end;
            var piece := RangeDiffs(w.olds, w.news, st.m, st.m, st.n, n, st.changed);
            AfterOp(w, st, D.Insert(at, j, len))
            == TokenState((st.diffs + piece) + [ByteDiff(Insert, w.news[n..n'])], st.ranges + [(n, n')], st.m, n', true)
  {
    hide RangeDiffs;
  }

  lemma {:induction false} TokenGapEnd(w: Work, j: nat)
    requires j < |w.newToks|
    ensures GapEnd(w.newToks, w.b', j) == w.newToks[j].start
  {
  }

  lemma {:induction false} OldGapEnd(w: Work, i: nat)
    requires i < |w.oldToks|
    ensures GapEnd(w.oldToks, w.a', i) == w.oldToks[i].start
  {
  }

  lemma {:induction false} CursorAfter(ts: seq<Token>, from: nat, j: nat, len: nat)
    requires 0 < len && j + len <= |ts|
    ensures GapStart(ts, from, j + len) == ts[j + len - 1].end
  {
  }

  lemma {:induction false} DoneParts(w: Work, st: TokenState, i: nat, j: nat)
    requires Done(w, st, i, j)
    ensures ValidWork(w) && i <= |w.oldToks| && j <= |w.newToks| && PartnersBefore(w, i, j)
    ensures st.m == GapStart(w.oldToks, w.a, i) && st.n == GapStart(w.newToks, w.b, j)
    ensures Progress(w, st.diffs, st.m, st.n, st.ranges, j) && Gaps(w, st.diffs, st.ranges, j)
    ensures st.changed == !Straight(w, i, j)
  {
  }

  lemma {:induction false} DoneIntro(w: Work, st: TokenState, i: nat, j: nat)
    requires ValidWork(w) && i <= |w.oldToks| && j <= |w.newToks| && PartnersBefore(w, i, j)
    requires st.m == GapStart(w.oldToks, w.a, i) && st.n == GapStart(w.newToks, w.b, j)
    requires Progress(w, st.diffs, st.m, st.n, st.ranges, j) && Gaps(w, st.diffs, st.ranges, j)
    requires st.changed == !Straight(w, i, j)
    ensures Done(w, st, i, j)
  {
  }

  lemma {:induction false} ReplacePasses(w: Work, st: TokenState, i: nat, j: nat)
    requires j < |w.newToks| && D.OpRole(w.ops, j) == D.Starts(Some(i)) && st.changed == !Straight(w, i, j)
    ensures match PassesAt(j, |w.newToks|, |w.oldToks|, OpBefore(w, j), RoleHere(w, j))
            case Some(o) => o == i && !st.changed
            case None => st.changed
    ensures !RoleHere(w, j).Continues?
  {
  }

  lemma {:induction false} ReplaceStep(w: Work, st: TokenState, i: nat, oldLen: nat, j: nat, len: nat)
    requires Done(w, st, i, j) && 0 < oldLen && i + oldLen <= |w.oldToks| && 0 < len && j + len <= |w.newToks|
    requires forall k: nat | j <= k < j + len :: D.OpCounterpart(w.ops, k) == None
    requires D.OpRole(w.ops, j) == D.Starts(Some(i))
    requires forall k: nat | j < k < j + len :: D.OpRole(w.ops, k) == D.Continues
    ensures Done(w, AfterOp(w, st, D.Replace(i, oldLen, j, len)), i + oldLen, j + len)
  {
    hide *;
    DoneParts(w, st, i, j);
    WorkCursors(w, i, j);
    ChangedAfterInsert(w, i, j, i + oldLen, j + len);
    ReplacePasses(w, st, i, j);
    ReplaceIs(w, st, i, oldLen, j, len);
    TokenGapEnd(w, j);
    OldGapEnd(w, i);
    var m, m' := w.oldToks[i].start, w.oldToks[i + oldLen - 1].end;
    var n, n' := w.newToks[j].start, w.newToks[j + len - 1].end;
    var piece := RangeDiffs(w.olds, w.news, st.m, m, st.n, n, st.changed);
    var gone, come := ByteDiff(Delete, w.olds[m..m']), ByteDiff(Insert, w.news[n..n']);
    DeleteRewrites(w.olds, m, m', w.news, n);
    GapStep(w, st, i, j, m);
    ProgressParts(w, st.diffs + piece, m, n, st.ranges, j);
    PushDelete(w, st.diffs + piece, m, n, st.ranges, j, m');
    GapsExtend(w, st.diffs + piece, st.ranges, j + 1, m, n, gone, m', n);
    PushInsert(w, (st.diffs + piece) + [gone], m', n, st.ranges, j, j + len);
    ProgressParts(w, (st.diffs + piece) + [gone], m', n, st.ranges, j);
    GapsInserted(w, (st.diffs + piece) + [gone], st.ranges, m', j, j + len);
    CursorAfter(w.newToks, w.b, j, len);
    CursorAfter(w.oldToks, w.a, i, oldLen);
    DoneIntro(w, AfterOp(w, st, D.Replace(i, oldLen, j, len)), i + oldLen, j + len);
  }

  lemma {:induction false} DeleteRewrites(olds: string, m: nat, m': nat, news: string, n: nat)
    requires m <= m' <= |olds| && n <= |news|
    ensures Rewrites([ByteDiff(Delete, olds[m..m'])], olds, m, m', news, n, n)
  {
    OneRewrites(ByteDiff(Delete, olds[m..m']), olds, m, m', news, n, n);
  }

  lemma {:induction false} ReplaceIs(w: Work, st: TokenState, i: nat, oldLen: nat, j: nat, len: nat)
    requires 0 < oldLen && i + oldLen <= |w.oldToks| && 0 < len && j + len <= |w.newToks|
    requires st.m <= w.oldToks[i].start <= w.oldToks[i + oldLen - 1].end <= |w.olds|
    requires st.n <= w.newToks[j].start <= w.newToks[j + len - 1].end <= |w.news|
    ensures var m, m' := w.oldToks[i].start, w.oldToks[i + oldLen - 1].end;
            var n, n' := w.newToks[j].start, w.newToks[j + len - 1].end;
            var piece := RangeDiffs(w.olds, w.news, st.m, m, st.n, n, st.changed);
            var gone, come := ByteDiff(Delete, w.olds[m..m']), ByteDiff(Insert, w.news[n..n']);
            AfterOp(w, st, D.Replace(i, oldLen, j, len))
            == TokenState(((st.diffs + piece) + [gone]) + [come], st.ranges + [(n, n')], m', n', true)
  {
    hide RangeDiffs;
  }

  /** What the ops say about the new tokens that `op` spans. */
  ghost predicate RolesAre(w: Work, op: D.DiffOp, i: nat, j: nat) {
    forall k: nat | j <= k < D.SpanOf(op, false).1 ::
      && D.OpCounterpart(w.ops, k) == (if op.Equal? then Some(i + (k - j)) else None)
      && D.OpRole(w.ops, k) == D.RoleIn(op, k - j)
  }

  lemma {:induction false} RolesIntro(w: Work, op: D.DiffOp, i: nat, j: nat)
    requires forall k: nat | j <= k < D.SpanOf(op, false).1 ::
               D.OpCounterpart(w.ops, k) == if op.Equal? then Some(i + (k - j)) else None
    requires forall k: nat | j <= k < D.SpanOf(op, false).1 :: D.OpRole(w.ops, k) == D.RoleIn(op, k - j)
    ensures RolesAre(w, op, i, j)
  {
  }

  lemma {:induction false} EqualRoles(w: Work, op: D.DiffOp, i: nat, j: nat)
    requires RolesAre(w, op, i, j) && op.Equal? && op.oldIndex == i && op.newIndex == j
    ensures forall l: nat | j <= l < j + op.len ::
              D.OpCounterpart(w.ops, l) == Some(i + (l - j)) && D.OpRole(w.ops, l) == D.Paired(i + (l - j))
  {
    hide D.OpCounterpart, D.OpRole;
  }

  lemma {:induction false} ChangedRoles(w: Work, op: D.DiffOp, i: nat, j: nat, len: nat)
    requires RolesAre(w, op, i, j) && !op.Equal? && 0 < len && D.SpanOf(op, false) == (j, j + len)
    requires op.Replace? ==> op.oldIndex == i
    ensures forall k: nat | j <= k < j + len :: D.OpCounterpart(w.ops, k) == None
    ensures D.OpRole(w.ops, j) == D.Starts(if op.Replace? then Some(i) else None)
    ensures forall k: nat | j < k < j + len :: D.OpRole(w.ops, k) == D.Continues
  {
    hide D.OpCounterpart, D.OpRole;
  }

  /** Every op of the token diff. */
  lemma {:induction false} OpStep(w: Work, st: TokenState, op: D.DiffOp, i: nat, j: nat)
    requires Done(w, st, i, j) && D.OpFits(Lexemes(w.oldToks), Lexemes(w.newToks), op, i, j) && RolesAre(w, op, i, j)
    ensures Done(w, AfterOp(w, st, op), D.SpanOf(op, true).1, D.SpanOf(op, false).1)
  {
    hide *;
    OpShape(w, op, i, j);
    EqualIs(w, st, op);
    if op.Equal? {
      EqualRoles(w, op, i, j);
      PairsStep(w, st, op, i, j, op.len);
    } else if op.Delete? {
      assert op == D.Delete(i, op.oldLen, op.newIndex);
      DeleteStep(w, st, i, j, op.oldLen, op.newIndex);
    } else if op.Insert? {
      assert op == D.Insert(op.oldIndex, j, op.newLen);
      ChangedRoles(w, op, i, j, op.newLen);
      InsertStep(w, st, i, j, op.newLen, op.oldIndex);
    } else {
      assert op == D.Replace(i, op.oldLen, j, op.newLen);
      ChangedRoles(w, op, i, j, op.newLen);
      ReplaceStep(w, st, i, op.oldLen, j, op.newLen);
    }
  }

  lemma {:induction false} EqualIs(w: Work, st: TokenState, op: D.DiffOp)
    ensures op.Equal? ==> AfterOp(w, st, op) == AfterPairs(w, st, op.oldIndex, op.newIndex, op.len)
  {
    hide AfterPairs;
  }

  lemma {:induction false} OpShape(w: Work, op: D.DiffOp, i: nat, j: nat)
    requires D.OpFits(Lexemes(w.oldToks), Lexemes(w.newToks), op, i, j)
    ensures D.SpanOf(op, true)
         == (i, i + if op.Equal? then op.len else if op.Insert? then 0 else op.oldLen)
    ensures D.SpanOf(op, false)
         == (j, j + if op.Equal? then op.len else if op.Delete? then 0 else op.newLen)
    ensures (!op.Insert? ==> op.oldIndex == i) && (!op.Delete? ==> op.newIndex == j)
    ensures D.SpanOf(op, true).1 <= |w.oldToks| && D.SpanOf(op, false).1 <= |w.newToks|
    ensures (op.Delete? ==> op.oldLen > 0) && (op.Insert? ==> op.newLen > 0)
    ensures op.Replace? ==> op.oldLen > 0 && op.newLen > 0
  {
  }

  lemma {:induction false} NothingDone(w: Work)
    requires ValidWork(w)
    ensures Done(w, TokenState([], [], w.a, w.b, false), 0, 0)
  {
    Begin(w);
  }

  /** The text after the last tokens. */
  lemma {:induction false} LastGap(w: Work, st: TokenState)
    requires Done(w, st, |w.oldToks|, |w.newToks|)
    ensures var ds := st.diffs + GapDiffs(w, st, w.a', w.b');
            Progress(w, ds, w.a', w.b', st.ranges, |w.newToks|) && Gaps(w, ds, st.ranges, |w.newToks| + 1)
  {
    var i, j := |w.oldToks|, |w.newToks|;
    WorkCursors(w, i, j);
    EndPasses(w, st);
    assert GapDiffs(w, st, w.a', w.b') == RangeDiffs(w.olds, w.news, st.m, w.a', st.n, w.b', st.changed);
    hide GapDiffs, RangeDiffs, Progress, Gaps, Straight, PartnersBefore, ValidWork, PassesAt, RoleHere, OpBefore;
    GapStep(w, st, i, j, w.a');
  }

  lemma {:induction false} EndPasses(w: Work, st: TokenState)
    requires st.changed == !Straight(w, |w.oldToks|, |w.newToks|)
    ensures match PassesAt(|w.newToks|, |w.newToks|, |w.oldToks|, OpBefore(w, |w.newToks|), RoleHere(w, |w.newToks|))
            case Some(o) => o == |w.oldToks| && !st.changed
            case None => st.changed
  {
  }

  lemma {:induction false} Finish(differ: D.Differ, w: Work, ds: seq<ByteDiff>, rs: seq<Range>)
    requires D.HonestDiffer(differ) && w.ops == D.DiffSpec(differ, Lexemes(w.oldToks), Lexemes(w.newToks))
    requires Progress(w, ds, w.a', w.b', rs, |w.newToks|) && Gaps(w, ds, rs, |w.newToks| + 1)
    ensures Rewrites(ds, w.olds, w.a, w.a', w.news, w.b, w.b') && NoEmpty(ds)
    ensures InsertedRanges(ds, w.a, w.b, w.b', rs)
    ensures TokenHunkAccounted(differ, ds, w.a, w.b, rs, w.oldToks, w.newToks)
    ensures GapsAccounted(w, differ, ds, w.a, w.b, rs)
  {
    var os, ns := Lexemes(w.oldToks), Lexemes(w.newToks);
    var hunks := differ(os, ns);
    assert D.ValidHunks(os, ns, hunks) && w.ops == D.OpsOf(hunks, |os|);
    assert |ns| == |w.newToks|;
    hide *;
    forall k: nat | k < |w.newToks|
      ensures D.OpCounterpart(w.ops, k) == D.Counterpart(hunks, k) && D.OpRole(w.ops, k) == D.RoleOf(hunks, k)
    {
      D.CounterpartOfOps(os, ns, hunks, k, 0);
      D.RoleOfOps(os, ns, hunks, k, 0);
    }
    ProgressParts(w, ds, w.a', w.b', rs, |w.newToks|);
    TokensFinish(differ, w, ds, rs);
    GapsFinish(differ, w, ds, rs);
  }

  lemma {:induction false} TokensFinish(differ: D.Differ, w: Work, ds: seq<ByteDiff>, rs: seq<Range>)
    requires Progress(w, ds, w.a', w.b', rs, |w.newToks|)
    requires var hunks := differ(Lexemes(w.oldToks), Lexemes(w.newToks));
             forall k: nat | k < |w.newToks| :: D.OpCounterpart(w.ops, k) == D.Counterpart(hunks, k)
    ensures TokenHunkAccounted(differ, ds, w.a, w.b, rs, w.oldToks, w.newToks)
  {
    var hunks := differ(Lexemes(w.oldToks), Lexemes(w.newToks));
    hide D.OpCounterpart, D.Counterpart, TokenAccounted, Lexemes, Rewrites, InsertedRanges;
    forall k | 0 <= k < |w.newToks|
      ensures TokenAccounted(ds, w.a, w.b, rs, w.oldToks, w.newToks[k], D.Counterpart(hunks, k))
    {
      assert TokenAccounted(ds, w.a, w.b, rs, w.oldToks, w.newToks[k], D.OpCounterpart(w.ops, k));
    }
  }

  lemma {:induction false} GapsFinish(differ: D.Differ, w: Work, ds: seq<ByteDiff>, rs: seq<Range>)
    requires Gaps(w, ds, rs, |w.newToks| + 1)
    requires var hunks := differ(Lexemes(w.oldToks), Lexemes(w.newToks));
             forall k: nat | k < |w.newToks| ::
               D.OpCounterpart(w.ops, k) == D.Counterpart(hunks, k) && D.OpRole(w.ops, k) == D.RoleOf(hunks, k)
    ensures GapsAccounted(w, differ, ds, w.a, w.b, rs)
  {
    var hunks := differ(Lexemes(w.oldToks), Lexemes(w.newToks));
    hide GapAccounted, Lexemes;
    forall k: nat | k <= |w.newToks|
      ensures GapAccounted(w, ds, w.a, w.b, rs, k, PartnerBefore(hunks, k), RoleAt(hunks, |w.newToks|, k))
    {
      assert OpBefore(w, k) == PartnerBefore(hunks, k) && RoleHere(w, k) == RoleAt(hunks, |w.newToks|, k);
      assert GapAccounted(w, ds, w.a, w.b, rs, k, OpBefore(w, k), RoleHere(w, k));
    }
  }

  // ----- The loop, one method for each kind of op -----

  /** The inner loop over the tokens of one Equal op. */
  method PushEqualTokens(ghost w: Work, olds: string, news: string, oldToks: seq<Token>, newToks: seq<Token>,
                         op: D.DiffOp, diffs: seq<ByteDiff>, lastWasChange: bool, oldCursor: nat, newCursor: nat,
                         ghost st: TokenState, ghost i: nat, ghost j: nat)
    returns (r: seq<ByteDiff>, oldCursor': nat, newCursor': nat, lastWasChange': bool)
    requires w.olds == olds && w.news == news && w.oldToks == oldToks && w.newToks == newToks
    requires Done(w, st, i, j) && st == TokenState(diffs, st.ranges, oldCursor, newCursor, lastWasChange)
    requires D.OpFits(Lexemes(oldToks), Lexemes(newToks), op, i, j) && op.Equal?
    requires forall k: nat | j <= k < j + op.len ::
               D.OpCounterpart(w.ops, k) == Some(i + (k - j)) && D.OpRole(w.ops, k) == D.Paired(i + (k - j))
    ensures TokenState(r, st.ranges, oldCursor', newCursor', lastWasChange') == AfterOp(w, st, op)
  {
    r, oldCursor', newCursor', lastWasChange' := diffs, oldCursor, newCursor, lastWasChange;
    hide Progress, Gaps, ValidWork, OrderedTokens, Lexemes, RangeDiffs, SplitsRange, AfterPair, Straight;
    hide PartnersBefore;
    for k := 0 to op.len
      invariant TokenState(r, st.ranges, oldCursor', newCursor', lastWasChange') == AfterPairs(w, st, i, j, k)
    {
      PairsStep(w, st, op, i, j, k);
      PairedLexemes(w, op, i, j, k);
      NextPair(w, i + k, j + k);
      PairPushed(w, AfterPairs(w, st, i, j, k), i + k, j + k);
      var oldToken, newToken := oldToks[op.oldIndex + k], newToks[op.newIndex + k];
      r := AppendRangeDiffs(r, olds, news, oldCursor', oldToken.start, newCursor', newToken.start, lastWasChange');
      r := r + [ByteDiff(Equal, news[newToken.start..newToken.end])];
      oldCursor', newCursor', lastWasChange' := oldToken.end, newToken.end, false;
    }
  }

  method PushDeletedTokens(ghost w: Work, olds: string, news: string, oldToks: seq<Token>,
                           op: D.DiffOp, diffs: seq<ByteDiff>, lastWasChange: bool, oldCursor: nat, newCursor: nat,
                           ghost st: TokenState, ghost i: nat, ghost j: nat)
    returns (r: seq<ByteDiff>, oldCursor': nat, lastWasChange': bool)
    requires w.olds == olds && w.news == news && w.oldToks == oldToks
    requires Done(w, st, i, j) && st == TokenState(diffs, st.ranges, oldCursor, newCursor, lastWasChange)
    requires D.OpFits(Lexemes(oldToks), Lexemes(w.newToks), op, i, j) && op.Delete?
    ensures TokenState(r, st.ranges, oldCursor', newCursor, lastWasChange') == AfterOp(w, st, op)
  {
    r, oldCursor', lastWasChange' := diffs, oldCursor, lastWasChange;
    hide Progress, Gaps, ValidWork, OrderedTokens, Lexemes, RangeDiffs, SplitsRange, Straight, PartnersBefore;
    WorkCursors(w, i, j);
    if op.oldLen > 0 {
      var start, end := oldToks[op.oldIndex].start, oldToks[op.oldIndex + op.oldLen - 1].end;
      r := AppendRangeDiffs(r, olds, news, oldCursor, start, newCursor, newCursor, lastWasChange);
      r := r + [ByteDiff(Delete, olds[start..end])];
      oldCursor', lastWasChange' := end, true;
    }
  }

  method PushInsertedTokens(ghost w: Work, olds: string, news: string, newToks: seq<Token>,
                            op: D.DiffOp, diffs: seq<ByteDiff>, lastWasChange: bool, oldCursor: nat, newCursor: nat,
                            rs: seq<Range>, ghost st: TokenState, ghost i: nat, ghost j: nat)
    returns (r: seq<ByteDiff>, rs': seq<Range>, newCursor': nat, lastWasChange': bool)
    requires w.olds == olds && w.news == news && w.newToks == newToks
    requires Done(w, st, i, j) && st == TokenState(diffs, rs, oldCursor, newCursor, lastWasChange)
    requires D.OpFits(Lexemes(w.oldToks), Lexemes(newToks), op, i, j) && op.Insert?
    ensures TokenState(r, rs', oldCursor, newCursor', lastWasChange') == AfterOp(w, st, op)
  {
    r, rs', newCursor', lastWasChange' := diffs, rs, newCursor, lastWasChange;
    hide Progress, Gaps, ValidWork, OrderedTokens, Lexemes, RangeDiffs, SplitsRange, Straight, PartnersBefore;
    WorkCursors(w, i, j);
    if op.newLen > 0 {
      var start, end := newToks[op.newIndex].start, newToks[op.newIndex + op.newLen - 1].end;
      r := AppendRangeDiffs(r, olds, news, oldCursor, oldCursor, newCursor, start, lastWasChange);
      r := r + [ByteDiff(Insert, news[start..end])];
      rs' := rs + [(start, end)];
      newCursor', lastWasChange' := end, true;
    }
  }

  method PushReplacedTokens(ghost w: Work, olds: string, news: string, oldToks: seq<Token>, newToks: seq<Token>,
                            op: D.DiffOp, diffs: seq<ByteDiff>, lastWasChange: bool, oldCursor: nat, newCursor: nat,
                            rs: seq<Range>, ghost st: TokenState, ghost i: nat, ghost j: nat)
    returns (r: seq<ByteDiff>, rs': seq<Range>, oldCursor': nat, newCursor': nat)
    requires w.olds == olds && w.news == news && w.oldToks == oldToks && w.newToks == newToks
    requires Done(w, st, i, j) && st == TokenState(diffs, rs, oldCursor, newCursor, lastWasChange)
    requires D.OpFits(Lexemes(oldToks), Lexemes(newToks), op, i, j) && op.Replace?
    ensures TokenState(r, rs', oldCursor', newCursor', true) == AfterOp(w, st, op)
  {
    r, rs' := diffs, rs;
    hide Progress, Gaps, ValidWork, OrderedTokens, Lexemes, RangeDiffs, SplitsRange, Straight, PartnersBefore;
    WorkCursors(w, i, j);
    var oldStartPos: nat := oldCursor;
    if op.oldIndex < |oldToks| {
      oldStartPos := oldToks[op.oldIndex].start;
    }
    var newStartPos: nat := newCursor;
    if op.newIndex < |newToks| {
      newStartPos := newToks[op.newIndex].start;
    }
    r := AppendRangeDiffs(r, olds, news, oldCursor, oldStartPos, newCursor, newStartPos, lastWasChange);
    if op.oldLen > 0 {
      var oldEndPos := oldToks[op.oldIndex + op.oldLen - 1].end;
      r := r + [ByteDiff(Delete, olds[oldStartPos..oldEndPos])];
      oldCursor' := oldEndPos;
    } else {
      oldCursor' := oldStartPos;
    }
    if op.newLen > 0 {
      var newEndPos := newToks[op.newIndex + op.newLen - 1].end;
      r := r + [ByteDiff(Insert, news[newStartPos..newEndPos])];
      rs' := rs + [(newStartPos, newEndPos)];
      newCursor' := newEndPos;
    } else {
      newCursor' := newStartPos;
    }
  }

  /** One op of the token diff. */
  method PushTokenOp(ghost w: Work, olds: string, news: string, oldToks: seq<Token>, newToks: seq<Token>,
                     op: D.DiffOp, diffs: seq<ByteDiff>, lastWasChange: bool, oldCursor: nat, newCursor: nat,
                     rs: seq<Range>, ghost st: TokenState, ghost i: nat, ghost j: nat)
    returns (r: seq<ByteDiff>, rs': seq<Range>, oldCursor': nat, newCursor': nat, lastWasChange': bool)
    requires w.olds == olds && w.news == news && w.oldToks == oldToks && w.newToks == newToks
    requires Done(w, st, i, j) && st == TokenState(diffs, rs, oldCursor, newCursor, lastWasChange)
    requires D.OpFits(Lexemes(oldToks), Lexemes(newToks), op, i, j)
    requires RolesAre(w, op, i, j)
    ensures TokenState(r, rs', oldCursor', newCursor', lastWasChange') == AfterOp(w, st, op)
  {
    r, rs', oldCursor', newCursor', lastWasChange' := diffs, rs, oldCursor, newCursor, lastWasChange;
    OpShape(w, op, i, j);
    hide Done, Lexemes, D.OpCounterpart, AfterOp, D.OpFits;
    match op {
      case Equal(_, _, _) =>
        EqualRoles(w, op, i, j);
        r, oldCursor', newCursor', lastWasChange' :=
          PushEqualTokens(w, olds, news, oldToks, newToks, op, r, lastWasChange, oldCursor, newCursor, st, i, j);
      case Delete(_, _, _) =>
        r, oldCursor', lastWasChange' :=
          PushDeletedTokens(w, olds, news, oldToks, op, r, lastWasChange, oldCursor, newCursor, st, i, j);
      case Insert(_, _, _) =>
        r, rs', newCursor', lastWasChange' :=
          PushInsertedTokens(w, olds, news, newToks, op, r, lastWasChange, oldCursor, newCursor, rs, st, i, j);
      case Replace(_, _, _, _) =>
        r, rs', oldCursor', newCursor' :=
          PushReplacedTokens(w, olds, news, oldToks, newToks, op, r, lastWasChange, oldCursor, newCursor, rs, st, i, j);
        lastWasChange' := true;
    }
  }

  /** `build_token_aligned_diffs`. */
  method BuildTokenAlignedDiffs(cc: CharClass, differ: D.Differ, olds: string, news: string,
                                oldStart: nat, oldEnd: nat, newStart: nat, newEnd: nat)
    returns (diffs: seq<ByteDiff>, substantive: seq<Range>)
    requires D.HonestDiffer(differ)
    requires oldStart <= oldEnd <= |olds| && newStart <= newEnd <= |news|
    ensures Rewrites(diffs, olds, oldStart, oldEnd, news, newStart, newEnd) && NoEmpty(diffs)
    ensures InsertedRanges(diffs, oldStart, newStart, newEnd, substantive)
    ensures TokenHunkAccounted(differ, diffs, oldStart, newStart, substantive,
                               Tokens(cc, olds, oldStart, oldEnd), Tokens(cc, news, newStart, newEnd))
    ensures GapsAccounted(HunkTexts(cc, olds, oldStart, oldEnd, news, newStart, newEnd), differ, diffs, oldStart,
                          newStart, substantive)
    ensures var w := WorkOf(cc, differ, olds, oldStart, oldEnd, news, newStart, newEnd);
            diffs == TokenDiffs(w) && substantive == TokenRanges(w)
  {
    diffs, substantive := [], [];
    var oldToks := TokenizeNonWhitespace(cc, olds, oldStart, oldEnd);
    var newToks := TokenizeNonWhitespace(cc, news, newStart, newEnd);
    ghost var w := WorkOf(cc, differ, olds, oldStart, oldEnd, news, newStart, newEnd);
    WorkIsValid(cc, differ, olds, oldStart, oldEnd, news, newStart, newEnd);
    hide *;
    NothingDone(w);
    ghost var os, ns := Lexemes(oldToks), Lexemes(newToks);
    ghost var i: nat, j: nat := 0, 0;
    D.StartRemaining(differ, os, ns);

    if oldToks == [] && newToks == [] {
      TokenDiffsAre(w);
      LastGap(w, AfterOps(w, 0));
      diffs := AppendRangeDiffs(diffs, olds, news, oldStart, oldEnd, newStart, newEnd, false);
      Finish(differ, w, diffs, substantive);
      GapsOfTexts(w, differ, diffs, oldStart, newStart, substantive);
      return;
    }

    var tokenOps := D.CaptureDiffSlices(differ, Lexemes(oldToks), Lexemes(newToks));
    var oldCursor, newCursor, lastWasChange := oldStart, newStart, false;
    TokenDiffsAre(w);
    for t := 0 to |tokenOps|
      invariant D.Remaining(os, ns, w.ops, t, i, j)
      invariant TokenState(diffs, substantive, oldCursor, newCursor, lastWasChange) == AfterOps(w, t)
      invariant Done(w, AfterOps(w, t), i, j)
    {
      D.NextOp(os, ns, w.ops, t, i, j);
      var op := tokenOps[t];
      RolesIntro(w, op, i, j);
      OpStep(w, AfterOps(w, t), op, i, j);
      NextState(w, t);
      diffs, substantive, oldCursor, newCursor, lastWasChange :=
        PushTokenOp(w, olds, news, oldToks, newToks, op, diffs, lastWasChange, oldCursor, newCursor, substantive,
                    AfterOps(w, t), i, j);
      i, j := D.SpanOf(op, true).1, D.SpanOf(op, false).1;
    }

    D.NoneRemaining(os, ns, w.ops, i, j);
    LastGap(w, AfterOps(w, |w.ops|));
    LastCursors(w, AfterOps(w, |w.ops|));
    diffs := AppendRangeDiffs(diffs, olds, news, oldCursor, oldEnd, newCursor, newEnd, lastWasChange);
    Finish(differ, w, diffs, substantive);
    GapsOfTexts(w, differ, diffs, oldStart, newStart, substantive);
  }

  lemma {:induction false} WorkIsValid(cc: CharClass, differ: D.Differ, olds: string, a: nat, a': nat, news: string,
                                       b: nat, b': nat)
    requires D.HonestDiffer(differ) && a <= a' <= |olds| && b <= b' <= |news|
    ensures var w := WorkOf(cc, differ, olds, a, a', news, b, b');
            && ValidWork(w) && w.olds == olds && w.a == a && w.a' == a' && w.news == news && w.b == b && w.b' == b'
            && w.oldToks == Tokens(cc, olds, a, a') && w.newToks == Tokens(cc, news, b, b')
            && w.ops == D.DiffSpec(differ, Lexemes(w.oldToks), Lexemes(w.newToks))
            && w.(ops := []) == HunkTexts(cc, olds, a, a', news, b, b')
            && |Lexemes(w.oldToks)| == |w.oldToks| && |Lexemes(w.newToks)| == |w.newToks|
  {
    TokensTokenize(cc, olds, a, a');
    TokensTokenize(cc, news, b, b');
    TokenizesOrdered(cc, olds, Tokens(cc, olds, a, a'), a, a');
    TokenizesOrdered(cc, news, Tokens(cc, news, b, b'), b, b');
    hide Tokens, Tokenizes, D.HonestDiffer, D.DiffSpec, OrderedTokens, Lexemes;
  }

  lemma {:induction false} TokenDiffsAre(w: Work)
    ensures AfterOps(w, 0) == TokenState([], [], w.a, w.b, false)
    ensures var st := if w.oldToks == w.newToks == [] then AfterOps(w, 0) else AfterOps(w, |w.ops|);
            TokenDiffs(w) == st.diffs + GapDiffs(w, st, w.a', w.b') && TokenRanges(w) == st.ranges
  {
    hide AfterOp;
  }

  lemma {:induction false} NextState(w: Work, t: nat)
    requires t < |w.ops|
    ensures AfterOps(w, t + 1) == AfterOp(w, AfterOps(w, t), w.ops[t])
  {
    hide AfterOp;
  }

  lemma {:induction false} LastCursors(w: Work, st: TokenState)
    requires Done(w, st, |w.oldToks|, |w.newToks|)
    ensures st.m <= w.a' <= |w.olds| && st.n <= w.b' <= |w.news|
    ensures GapDiffs(w, st, w.a', w.b') == RangeDiffs(w.olds, w.news, st.m, w.a', st.n, w.b', st.changed)
  {
    WorkCursors(w, |w.oldToks|, |w.newToks|);
    hide RangeDiffs;
  }
}
