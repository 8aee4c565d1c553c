/** Byte diffs as edit scripts, and where a script says each new position comes from. */
module EditScript {
  import opened Prelude

  datatype ByteDiffOp = Equal | Delete | Insert

  datatype ByteDiff = ByteDiff(op: ByteDiffOp, data: string)

  function OldPart(d: ByteDiff): string {
    if d.op.Insert? then [] else d.data
  }

  function NewPart(d: ByteDiff): string {
    if d.op.Delete? then [] else d.data
  }

  /** Equal and Delete data: the text the script reads. */
  function OldText(ds: seq<ByteDiff>): string {
    if ds == [] then [] else OldPart(ds[0]) + OldText(ds[1..])
  }

  /** Equal and Insert data: the text the script writes. */
  function NewText(ds: seq<ByteDiff>): string {
    if ds == [] then [] else NewPart(ds[0]) + NewText(ds[1..])
  }

  /**
   * The old position that new position `p` is copied from, for a script that
   * starts at old position `a` and new position `b`; None for inserted text.
   */
  function SourceAt(ds: seq<ByteDiff>, p: nat, a: nat := 0, b: nat := 0): Option<nat> {
    if ds == [] then None else
    var n := |ds[0].data|;
    match ds[0].op
    case Equal => if b <= p < b + n then Some(a + (p - b)) else SourceAt(ds[1..], p, a + n, b + n)
    case Delete => SourceAt(ds[1..], p, a + n, b)
    case Insert => if b <= p < b + n then None else SourceAt(ds[1..], p, a, b + n)
  }

  /** An Insert diff: where it starts in the new text, how much of the old text is read before it, and its text. */
  datatype Insertion = Insertion(start: nat, from: nat, data: string)

  /** The Insert diff that writes new position `p`. */
  function InsertAt(ds: seq<ByteDiff>, p: nat, a: nat := 0, b: nat := 0): Option<Insertion> {
    if ds == [] then None else
    var n := |ds[0].data|;
    match ds[0].op
    case Delete => InsertAt(ds[1..], p, a + n, b)
    case Equal => if b <= p < b + n then None else InsertAt(ds[1..], p, a + n, b + n)
    case Insert => if b <= p < b + n then Some(Insertion(b, a, ds[0].data)) else InsertAt(ds[1..], p, a, b + n)
  }

  /** `ds` turns `olds[a..a']` into `news[b..b']`. */
  ghost predicate Rewrites(ds: seq<ByteDiff>, olds: string, a: nat, a': nat, news: string, b: nat, b': nat) {
    && a <= a' <= |olds| && b <= b' <= |news|
    && OldText(ds) == olds[a..a'] && NewText(ds) == news[b..b']
  }

  /** No diff is without text. */
  ghost predicate NoEmpty(ds: seq<ByteDiff>) {
    forall d | d in ds :: d.data != []
  }

  /** A whole script. */
  ghost predicate IsScript(ds: seq<ByteDiff>, olds: string, news: string) {
    OldText(ds) == olds && NewText(ds) == news
  }

  lemma {:induction false} RewritesAll(ds: seq<ByteDiff>, olds: string, news: string)
    ensures Rewrites(ds, olds, 0, |olds|, news, 0, |news|) <==> IsScript(ds, olds, news)
  {
    assert olds[0..|olds|] == olds && news[0..|news|] == news;
  }

  lemma {:induction false} TextUnfold(x: seq<ByteDiff>, y: seq<ByteDiff>)
    requires x != []
    ensures OldText(x + y) == OldPart(x[0]) + OldText(x[1..] + y)
    ensures NewText(x + y) == NewPart(x[0]) + NewText(x[1..] + y)
  {
    assert (x + y)[0] == x[0] && (x + y)[1..] == x[1..] + y;
  }

  lemma {:induction false} TextEmpty(y: seq<ByteDiff>)
    ensures OldText([] + y) == OldText([]) + OldText(y)
    ensures NewText([] + y) == NewText([]) + NewText(y)
  {
    assert [] + y == y;
  }

  lemma {:induction false} TextHead(x: seq<ByteDiff>)
    requires x != []
    ensures OldText(x) == OldPart(x[0]) + OldText(x[1..]) && NewText(x) == NewPart(x[0]) + NewText(x[1..])
  {
  }

  lemma {:induction false} TextAppend(x: seq<ByteDiff>, y: seq<ByteDiff>)
    ensures OldText(x + y) == OldText(x) + OldText(y)
    ensures NewText(x + y) == NewText(x) + NewText(y)
  {
    hide *;
    if x == [] {
      TextEmpty(y);
    } else {
      TextUnfold(x, y);
      TextHead(x);
      TextAppend(x[1..], y);
      Assoc(OldPart(x[0]), OldText(x[1..]), OldText(y));
      Assoc(NewPart(x[0]), NewText(x[1..]), NewText(y));
    }
  }

  lemma {:induction false} Assoc(a: string, b: string, c: string)
    ensures a + (b + c) == (a + b) + c
  {
  }

  lemma {:induction false} SourceAppend(x: seq<ByteDiff>, y: seq<ByteDiff>, p: nat, a: nat, b: nat)
    requires b <= p
    ensures SourceAt(x + y, p, a, b)
         == if p < b + |NewText(x)| then SourceAt(x, p, a, b)
            else SourceAt(y, p, a + |OldText(x)|, b + |NewText(x)|)
    decreases |x|
  {
    if x == [] {
      assert x + y == y;
    } else {
      assert (x + y)[0] == x[0] && (x + y)[1..] == x[1..] + y;
      var a', b' := a + |OldPart(x[0])|, b + |NewPart(x[0])|;
      if b' <= p {
        SourceAppend(x[1..], y, p, a', b');
      }
    }
  }

  lemma {:induction false} InsertAppend(x: seq<ByteDiff>, y: seq<ByteDiff>, p: nat, a: nat, b: nat)
    requires b <= p
    ensures InsertAt(x + y, p, a, b)
         == if p < b + |NewText(x)| then InsertAt(x, p, a, b)
            else InsertAt(y, p, a + |OldText(x)|, b + |NewText(x)|)
    decreases |x|
  {
    if x == [] {
      assert x + y == y;
    } else {
      assert (x + y)[0] == x[0] && (x + y)[1..] == x[1..] + y;
      var a', b' := a + |OldPart(x[0])|, b + |NewPart(x[0])|;
      if b' <= p {
        InsertAppend(x[1..], y, p, a', b');
      }
    }
  }

  lemma {:induction false} RewritesAppend(x: seq<ByteDiff>, y: seq<ByteDiff>, olds: string, a: nat, m: nat, a': nat,
                                          news: string, b: nat, n: nat, b': nat)
    requires Rewrites(x, olds, a, m, news, b, n) && Rewrites(y, olds, m, a', news, n, b')
    ensures Rewrites(x + y, olds, a, a', news, b, b')
    ensures forall p: nat | b <= p ::
              && SourceAt(x + y, p, a, b) == (if p < n then SourceAt(x, p, a, b) else SourceAt(y, p, m, n))
              && InsertAt(x + y, p, a, b) == (if p < n then InsertAt(x, p, a, b) else InsertAt(y, p, m, n))
  {
    RewritesParts(x, olds, a, m, news, b, n);
    RewritesParts(y, olds, m, a', news, n, b');
    forall p: nat | b <= p
      ensures SourceAt(x + y, p, a, b) == if p < n then SourceAt(x, p, a, b) else SourceAt(y, p, m, n)
      ensures InsertAt(x + y, p, a, b) == if p < n then InsertAt(x, p, a, b) else InsertAt(y, p, m, n)
    {
      SourceAppend(x, y, p, a, b);
      InsertAppend(x, y, p, a, b);
    }
    hide *;
    TextAppend(x, y);
    SliceJoin(olds, a, m, a');
    SliceJoin(news, b, n, b');
    RewritesIntro(x + y, olds, a, a', news, b, b');
  }

  lemma {:induction false} RewritesParts(ds: seq<ByteDiff>, olds: string, a: nat, a': nat, news: string, b: nat,
                                         b': nat)
    requires Rewrites(ds, olds, a, a', news, b, b')
    ensures a <= a' <= |olds| && b <= b' <= |news|
    ensures OldText(ds) == olds[a..a'] && NewText(ds) == news[b..b']
    ensures |OldText(ds)| == a' - a && |NewText(ds)| == b' - b
  {
  }

  lemma {:induction false} RewritesIntro(ds: seq<ByteDiff>, olds: string, a: nat, a': nat, news: string, b: nat,
                                         b': nat)
    requires a <= a' <= |olds| && b <= b' <= |news|
    requires OldText(ds) == olds[a..a'] && NewText(ds) == news[b..b']
    ensures Rewrites(ds, olds, a, a', news, b, b')
  {
  }

  lemma {:induction false} SliceJoin(s: string, a: nat, m: nat, a': nat)
    requires a <= m <= a' <= |s|
    ensures s[a..a'] == s[a..m] + s[m..a']
  {
  }

  lemma {:induction false} OneRewrites(d: ByteDiff, olds: string, a: nat, a': nat, news: string, b: nat, b': nat)
    requires a <= a' <= |olds| && b <= b' <= |news|
    requires OldPart(d) == olds[a..a'] && NewPart(d) == news[b..b']
    ensures Rewrites([d], olds, a, a', news, b, b')
    ensures forall p: nat | b <= p < b' ::
              && SourceAt([d], p, a, b) == (if d.op.Equal? then Some(a + (p - b)) else None)
              && (d.op.Insert? ==> InsertAt([d], p, a, b) == Some(Insertion(b, a, d.data)))
  {
    assert [d][1..] == [];
  }

  /** A copied position comes from the text the script reads. */
  lemma {:induction false} SourceInside(ds: seq<ByteDiff>, p: nat, a: nat, b: nat)
    ensures SourceAt(ds, p, a, b).Some? ==> a <= SourceAt(ds, p, a, b).value < a + |OldText(ds)|
    decreases ds
  {
    if ds != [] {
      var n := |ds[0].data|;
      match ds[0].op
      case Equal => SourceInside(ds[1..], p, a + n, b + n);
      case Delete => SourceInside(ds[1..], p, a + n, b);
      case Insert => SourceInside(ds[1..], p, a, b + n);
    }
  }

  /** What `append_range_diffs` pushes. */
  function RangeDiffs(olds: string, news: string, a: nat, a': nat, b: nat, b': nat, forceSplit: bool): seq<ByteDiff>
    requires a <= a' <= |olds| && b <= b' <= |news|
  {
    var oldSlice, newSlice := olds[a..a'], news[b..b'];
    if !forceSplit && oldSlice != [] && newSlice != [] && oldSlice == newSlice then
      [ByteDiff(Equal, newSlice)]
    else
      (if oldSlice == [] then [] else [ByteDiff(Delete, oldSlice)])
      + (if newSlice == [] then [] else [ByteDiff(Insert, newSlice)])
  }

  /**
   * `ds` turns the old slice into the new one in the only way `append_range_diffs` knows: text that is equal on
   * both sides is copied unless a split is forced; otherwise the old text goes first and the new text is one insertion.
   */
  ghost predicate SplitsRange(ds: seq<ByteDiff>, olds: string, a: nat, a': nat, news: string, b: nat, b': nat,
                              forceSplit: bool) {
    && Rewrites(ds, olds, a, a', news, b, b')
    && forall p: nat | b <= p < b' ::
         if !forceSplit && olds[a..a'] == news[b..b'] then SourceAt(ds, p, a, b) == Some(a + (p - b))
         else SourceAt(ds, p, a, b) == None && InsertAt(ds, p, a, b) == Some(Insertion(b, a', news[b..b']))
  }

  lemma {:induction false} RangeRewrites(olds: string, news: string, a: nat, a': nat, b: nat, b': nat, forceSplit: bool)
    requires a <= a' <= |olds| && b <= b' <= |news|
    ensures SplitsRange(RangeDiffs(olds, news, a, a', b, b', forceSplit), olds, a, a', news, b, b', forceSplit)
    ensures NoEmpty(RangeDiffs(olds, news, a, a', b, b', forceSplit))
  {
    var oldSlice, newSlice := olds[a..a'], news[b..b'];
    var ds := RangeDiffs(olds, news, a, a', b, b', forceSplit);
    if ds == [ByteDiff(Equal, newSlice)] && oldSlice == newSlice {
      OneRewrites(ds[0], olds, a, a', news, b, b');
    } else {
      var x := if oldSlice == [] then [] else [ByteDiff(Delete, oldSlice)];
      var y := if newSlice == [] then [] else [ByteDiff(Insert, newSlice)];
      assert ds == x + y;
      assert Rewrites(x, olds, a, a', news, b, b) by {
        if x != [] {
          OneRewrites(x[0], olds, a, a', news, b, b);
        }
      }
      assert Rewrites(y, olds, a', a', news, b, b') by {
        if y != [] {
          OneRewrites(y[0], olds, a', a', news, b, b');
        }
      }
      if y != [] {
        OneRewrites(y[0], olds, a', a', news, b, b');
      }
      RewritesAppend(x, y, olds, a, a', a', news, b, b, b');
    }
  }

  /** `append_range_diffs`. */
  method AppendRangeDiffs(diffs: seq<ByteDiff>, olds: string, news: string, a: nat, a': nat, b: nat, b': nat,
                          forceSplit: bool)
    returns (r: seq<ByteDiff>)
    requires a <= a' <= |olds| && b <= b' <= |news|
    ensures r == diffs + RangeDiffs(olds, news, a, a', b, b', forceSplit)
    ensures SplitsRange(r[|diffs|..], olds, a, a', news, b, b', forceSplit)
  {
    RangeRewrites(olds, news, a, a', b, b', forceSplit);
    hide SplitsRange;
    ghost var pushed := diffs + RangeDiffs(olds, news, a, a', b, b', forceSplit);
    assert pushed[|diffs|..] == RangeDiffs(olds, news, a, a', b, b', forceSplit);
    r := diffs;
    if a >= a' && b >= b' {
      return;
    }
    var oldSlice, newSlice := olds[a..a'], news[b..b'];
    if !forceSplit && oldSlice != [] && newSlice != [] && oldSlice == newSlice {
      r := r + [ByteDiff(Equal, newSlice)];
      return;
    }
    if oldSlice != [] {
      r := r + [ByteDiff(Delete, oldSlice)];
    }
    if newSlice != [] {
      r := r + [ByteDiff(Insert, newSlice)];
    }
  }
}
