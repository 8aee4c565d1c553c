/** Which ranges have a say in the author of a line. */
module LineEvidence {
  import opened Prelude
  import opened Text
  import opened Attributions
  import opened LineOwnership

  /** Line `[lo, hi)` shows a character that is not blank and that `a` covers. */
  ghost predicate Shows(cc: CharClass, a: Attribution, content: string, lo: nat, hi: nat)
    requires hi <= |content|
  {
    exists p: nat | lo <= p < hi && a.start <= p < a.end :: !cc.isWhitespace(content[p])
  }

  ghost predicate BlankLine(cc: CharClass, content: string, lo: nat, hi: nat)
    requires hi <= |content|
  {
    forall p: nat | lo <= p < hi :: cc.isWhitespace(content[p])
  }

  /** Neither "human" nor an id of a known human. */
  predicate IsAiName(author: string) {
    author != "human" && !("h_" <= author)
  }

  lemma {:induction false} AiNames(author: string)
    ensures IsHumanId(author) <==> !IsAiName(author)
  {
    assert "h_" <= author <==> |author| >= 2 && author[..2] == "h_";
  }

  lemma {:induction false} SliceShows(cc: CharClass, content: string, s: nat, e: nat)
    requires s <= e <= |content|
    ensures AllWhitespace(cc, content[s..e]) <==> BlankLine(cc, content, s, e)
  {
    forall p: nat | s <= p < e ensures content[p] == content[s..e][p - s] {
    }
    forall i | 0 <= i < e - s ensures content[s..e][i] == content[s + i] {
    }
  }

  /**
   * A range that overlaps the line counts exactly if it covers a visible character of the line, the line is blank, it
   * marks a deletion, or it is an AI's in an AI checkpoint.
   */
  lemma {:induction false} CandidateIff(cc: CharClass, attrs: seq<Attribution>, content: string, lo: nat, hi: nat,
                                        isAi: bool, k: nat)
    requires lo <= hi <= |content|
    ensures Candidate(cc, attrs, content, lo, hi, isAi, k)
       <==> && k < |attrs| && attrs[k].start < hi && attrs[k].end > lo
            && (Shows(cc, attrs[k], content, lo, hi) || BlankLine(cc, content, lo, hi)
                || attrs[k].start == attrs[k].end || (isAi && IsAiName(attrs[k].author)))
  {
    if k < |attrs| {
      var a := attrs[k];
      var s, e := Max(lo, a.start), Min(hi, a.end);
      AiNames(a.author);
      SliceShows(cc, content, lo, hi);
      if s < e {
        SliceShows(cc, content, s, e);
      }
      hide AllWhitespace, IsHumanId, IsAiName;
      assert s < e ==> (Shows(cc, a, content, lo, hi) <==> !BlankLine(cc, content, s, e));
    }
  }

  // ----- Ranges that change nothing -----

  function Without(attrs: seq<Attribution>, x: nat): seq<Attribution>
    requires x < |attrs|
  {
    attrs[..x] + attrs[x + 1..]
  }

  /** Where entry `k` of the shorter list stands in the longer one. */
  function Back(x: nat, k: nat): nat {
    if k < x then k else k + 1
  }

  lemma {:induction false} WithoutAt(attrs: seq<Attribution>, x: nat, k: nat)
    requires x < |attrs|
    ensures k < |Without(attrs, x)| <==> Back(x, k) < |attrs|
    ensures k < |Without(attrs, x)| ==> Without(attrs, x)[k] == attrs[Back(x, k)]
  {
  }

  lemma {:induction false} CandidateBack(cc: CharClass, attrs: seq<Attribution>, content: string, lo: nat, hi: nat,
                                         isAi: bool, x: nat, k: nat)
    requires lo <= hi <= |content| && x < |attrs|
    ensures Candidate(cc, Without(attrs, x), content, lo, hi, isAi, k)
       <==> Candidate(cc, attrs, content, lo, hi, isAi, Back(x, k))
  {
    WithoutAt(attrs, x, k);
    hide CountsForLine, Without, Back;
  }

  lemma {:induction false} BackKeepsOrder(attrs: seq<Attribution>, x: nat, i: nat, k: nat)
    requires x < |attrs| && Back(x, i) < |attrs| && Back(x, k) < |attrs|
    ensures i < |Without(attrs, x)| && k < |Without(attrs, x)|
    ensures var short := Without(attrs, x);
            var i', k' := Back(x, i), Back(x, k);
            && short[i] == attrs[i'] && short[k] == attrs[k']
            && (EntryLe(Entry(short[i].start, short[i].end, i), Entry(short[k].start, short[k].end, k))
                <==> EntryLe(Entry(attrs[i'].start, attrs[i'].end, i'), Entry(attrs[k'].start, attrs[k'].end, k')))
  {
    WithoutAt(attrs, x, i);
    WithoutAt(attrs, x, k);
    hide Without;
  }

  lemma {:induction false} BackReaches(x: nat, k: nat) returns (k': nat)
    requires k != x
    ensures Back(x, k') == k
  {
    k' := if k < x then k else k - 1;
  }

  lemma {:induction false} DecidesBack(cc: CharClass, attrs: seq<Attribution>, content: string, lo: nat, hi: nat,
                                       isAi: bool, x: nat, i: nat)
    requires lo <= hi <= |content| && x < |attrs| && !Candidate(cc, attrs, content, lo, hi, isAi, x)
    requires Decides(cc, Without(attrs, x), content, lo, hi, isAi, i)
    ensures Decides(cc, attrs, content, lo, hi, isAi, Back(x, i))
  {
    CandidateBack(cc, attrs, content, lo, hi, isAi, x, i);
    var i' := Back(x, i);
    CandidateInRange(cc, attrs, content, lo, hi, isAi, i');
    hide Candidate, Without, Back, EntryLe;
    forall k: nat | Candidate(cc, attrs, content, lo, hi, isAi, k)
      ensures attrs[k].ts <= attrs[i'].ts
      ensures attrs[k].ts == attrs[i'].ts ==>
                EntryLe(Entry(attrs[i'].start, attrs[i'].end, i'), Entry(attrs[k].start, attrs[k].end, k))
    {
      CandidateInRange(cc, attrs, content, lo, hi, isAi, k);
      var k' := BackReaches(x, k);
      CandidateBack(cc, attrs, content, lo, hi, isAi, x, k');
      BackKeepsOrder(attrs, x, i, k');
    }
  }

  lemma {:induction false} OneDecides(cc: CharClass, attrs: seq<Attribution>, content: string, lo: nat, hi: nat,
                                      isAi: bool, i: nat, j: nat)
    requires lo <= hi <= |content|
    requires Decides(cc, attrs, content, lo, hi, isAi, i) && Decides(cc, attrs, content, lo, hi, isAi, j)
    ensures i == j
  {
    hide CountsForLine;
    assert attrs[i].ts == attrs[j].ts;
  }

  lemma {:induction false} EditsBack(cc: CharClass, attrs: seq<Attribution>, content: string, lo: nat, hi: nat,
                                     isAi: bool, x: nat, human: bool, k: nat)
    requires lo <= hi <= |content| && x < |attrs|
    ensures Edits(cc, Without(attrs, x), content, lo, hi, isAi, human, k)
       <==> Edits(cc, attrs, content, lo, hi, isAi, human, Back(x, k))
  {
    CandidateBack(cc, attrs, content, lo, hi, isAi, x, k);
    WithoutAt(attrs, x, k);
    hide CountsForLine, Without, Back, IsHumanId;
  }

  lemma {:induction false} EditsInRange(cc: CharClass, attrs: seq<Attribution>, content: string, lo: nat, hi: nat,
                                        isAi: bool, human: bool, k: nat)
    requires lo <= hi <= |content| && Edits(cc, attrs, content, lo, hi, isAi, human, k)
    ensures k < |attrs| && Candidate(cc, attrs, content, lo, hi, isAi, k)
  {
  }

  lemma {:induction false} LastBack(cc: CharClass, attrs: seq<Attribution>, content: string, lo: nat, hi: nat,
                                    isAi: bool, x: nat, human: bool, i: nat)
    requires lo <= hi <= |content| && x < |attrs| && !Candidate(cc, attrs, content, lo, hi, isAi, x)
    requires LastOf(cc, Without(attrs, x), content, lo, hi, isAi, human, i)
    ensures LastOf(cc, attrs, content, lo, hi, isAi, human, Back(x, i))
  {
    EditsBack(cc, attrs, content, lo, hi, isAi, x, human, i);
    var i' := Back(x, i);
    EditsInRange(cc, attrs, content, lo, hi, isAi, human, i');
    hide Candidate, Edits, Without, Back, EntryLe;
    forall k: nat | Edits(cc, attrs, content, lo, hi, isAi, human, k)
      ensures EntryLe(Entry(attrs[k].start, attrs[k].end, k), Entry(attrs[i'].start, attrs[i'].end, i'))
    {
      EditsInRange(cc, attrs, content, lo, hi, isAi, human, k);
      var k' := BackReaches(x, k);
      EditsBack(cc, attrs, content, lo, hi, isAi, x, human, k');
      BackKeepsOrder(attrs, x, k', i);
    }
  }

  /** What does not count can be taken out of the list. */
  lemma {:induction false} OnlyCandidatesMatter(cc: CharClass, attrs: seq<Attribution>, content: string, lo: nat,
                                                hi: nat, isAi: bool, x: nat)
    requires lo <= hi <= |content| && x < |attrs| && !Candidate(cc, attrs, content, lo, hi, isAi, x)
    ensures LineLabel(cc, Without(attrs, x), content, lo, hi, isAi) == LineLabel(cc, attrs, content, lo, hi, isAi)
  {
    hide *;
    SameAuthor(cc, attrs, content, lo, hi, isAi, x);
    SameOverrode(cc, attrs, content, lo, hi, isAi, x);
  }

  lemma {:induction false} SameAuthor(cc: CharClass, attrs: seq<Attribution>, content: string, lo: nat, hi: nat,
                                      isAi: bool, x: nat)
    requires lo <= hi <= |content| && x < |attrs| && !Candidate(cc, attrs, content, lo, hi, isAi, x)
    ensures LineLabel(cc, Without(attrs, x), content, lo, hi, isAi).0 == LineLabel(cc, attrs, content, lo, hi, isAi).0
  {
    hide *;
    var short := Without(attrs, x);
    var i := LineAuthorIsLatest(cc, attrs, content, lo, hi, isAi);
    var j := LineAuthorIsLatest(cc, short, content, lo, hi, isAi);
    if k: nat :| Candidate(cc, short, content, lo, hi, isAi, k) {
      CandidateBack(cc, attrs, content, lo, hi, isAi, x, k);
      DecidesBack(cc, attrs, content, lo, hi, isAi, x, j);
      OneDecides(cc, attrs, content, lo, hi, isAi, i, Back(x, j));
      DecidesInRange(cc, attrs, content, lo, hi, isAi, i);
      WithoutAt(attrs, x, j);
    } else {
      forall k: nat ensures !Candidate(cc, attrs, content, lo, hi, isAi, k) {
        if k != x {
          var k' := BackReaches(x, k);
          CandidateBack(cc, attrs, content, lo, hi, isAi, x, k');
        }
      }
    }
  }

  lemma {:induction false} DecidesInRange(cc: CharClass, attrs: seq<Attribution>, content: string, lo: nat, hi: nat,
                                          isAi: bool, i: nat)
    requires lo <= hi <= |content| && Decides(cc, attrs, content, lo, hi, isAi, i)
    ensures i < |attrs|
  {
  }

  lemma {:induction false} SameLast(cc: CharClass, attrs: seq<Attribution>, content: string, lo: nat, hi: nat,
                                    isAi: bool, x: nat, human: bool)
    returns (i: Option<nat>, j: Option<nat>)
    requires lo <= hi <= |content| && x < |attrs| && !Candidate(cc, attrs, content, lo, hi, isAi, x)
    ensures forall k: nat :: LastOf(cc, attrs, content, lo, hi, isAi, human, k) <==> i == Some(k)
    ensures forall k: nat :: LastOf(cc, Without(attrs, x), content, lo, hi, isAi, human, k) <==> j == Some(k)
    ensures i.Some? <==> j.Some?
    ensures i.Some? ==> i.value < |attrs| && j.value < |Without(attrs, x)|
                        && attrs[i.value] == Without(attrs, x)[j.value]
  {
    hide *;
    i := LastCandidate(cc, attrs, content, lo, hi, isAi, human);
    j := LastCandidate(cc, Without(attrs, x), content, lo, hi, isAi, human);
    if j.Some? {
      LastBack(cc, attrs, content, lo, hi, isAi, x, human, j.value);
      assert i == Some(Back(x, j.value));
      WithoutAt(attrs, x, j.value);
    } else if i.Some? {
      LastForward(cc, attrs, content, lo, hi, isAi, x, human, i.value);
    }
  }

  lemma {:induction false} LastForward(cc: CharClass, attrs: seq<Attribution>, content: string, lo: nat, hi: nat,
                                       isAi: bool, x: nat, human: bool, i: nat)
    requires lo <= hi <= |content| && x < |attrs| && !Candidate(cc, attrs, content, lo, hi, isAi, x)
    requires LastOf(cc, attrs, content, lo, hi, isAi, human, i)
    ensures exists k: nat :: LastOf(cc, Without(attrs, x), content, lo, hi, isAi, human, k)
  {
    LastEdits(cc, attrs, content, lo, hi, isAi, human, i);
    EditsInRange(cc, attrs, content, lo, hi, isAi, human, i);
    var j := BackReaches(x, i);
    EditsBack(cc, attrs, content, lo, hi, isAi, x, human, j);
    EditsInRange(cc, Without(attrs, x), content, lo, hi, isAi, human, j);
    hide Candidate, Edits, Without, Back, EntryLe;
    forall k: nat | Edits(cc, Without(attrs, x), content, lo, hi, isAi, human, k)
      ensures k < |Without(attrs, x)|
      ensures EntryLe(Entry(Without(attrs, x)[k].start, Without(attrs, x)[k].end, k),
                      Entry(Without(attrs, x)[j].start, Without(attrs, x)[j].end, j))
    {
      EditsBack(cc, attrs, content, lo, hi, isAi, x, human, k);
      EditsInRange(cc, attrs, content, lo, hi, isAi, human, Back(x, k));
      BackKeepsOrder(attrs, x, k, j);
    }
    assert LastOf(cc, Without(attrs, x), content, lo, hi, isAi, human, j);
  }

  lemma {:induction false} LastEdits(cc: CharClass, attrs: seq<Attribution>, content: string, lo: nat, hi: nat,
                                     isAi: bool, human: bool, i: nat)
    requires lo <= hi <= |content| && LastOf(cc, attrs, content, lo, hi, isAi, human, i)
    ensures Edits(cc, attrs, content, lo, hi, isAi, human, i)
  {
    hide Edits;
  }

  lemma {:induction false} SameOverrode(cc: CharClass, attrs: seq<Attribution>, content: string, lo: nat, hi: nat,
                                        isAi: bool, x: nat)
    requires lo <= hi <= |content| && x < |attrs| && !Candidate(cc, attrs, content, lo, hi, isAi, x)
    ensures LineLabel(cc, Without(attrs, x), content, lo, hi, isAi).1 == LineLabel(cc, attrs, content, lo, hi, isAi).1
  {
    hide *;
    var short := Without(attrs, x);
    var ai, ai' := SameLast(cc, attrs, content, lo, hi, isAi, x, false);
    var human, human' := SameLast(cc, attrs, content, lo, hi, isAi, x, true);
    forall y ensures LineLabel(cc, short, content, lo, hi, isAi).1 == Some(y)
                <==> LineLabel(cc, attrs, content, lo, hi, isAi).1 == Some(y)
    {
      OverrodeOf(cc, short, content, lo, hi, isAi, ai', human', y);
      OverrodeOf(cc, attrs, content, lo, hi, isAi, ai, human, y);
    }
    SameOption(LineLabel(cc, short, content, lo, hi, isAi).1, LineLabel(cc, attrs, content, lo, hi, isAi).1);
  }

  lemma {:induction false} SameOption(a: Option<string>, b: Option<string>)
    requires forall y :: a == Some(y) <==> b == Some(y)
    ensures a == b
  {
    var y := if a.Some? then a.value else if b.Some? then b.value else "";
    assert a == Some(y) <==> b == Some(y);
  }

  lemma {:induction false} OverrodeOf(cc: CharClass, attrs: seq<Attribution>, content: string, lo: nat, hi: nat,
                                      isAi: bool, ai: Option<nat>, human: Option<nat>, y: string)
    requires lo <= hi <= |content|
    requires forall k: nat :: LastOf(cc, attrs, content, lo, hi, isAi, false, k) <==> ai == Some(k)
    requires forall k: nat :: LastOf(cc, attrs, content, lo, hi, isAi, true, k) <==> human == Some(k)
    requires (ai.Some? ==> ai.value < |attrs|) && (human.Some? ==> human.value < |attrs|)
    ensures LineLabel(cc, attrs, content, lo, hi, isAi).1 == Some(y)
       <==> && ai.Some? && human.Some? && attrs[human.value].ts > attrs[ai.value].ts
            && attrs[ai.value].author == y
  {
    LineOverrodeIff(cc, attrs, content, lo, hi, isAi, y);
    hide LastOf, LineLabel;
    if ai.Some? && human.Some? && attrs[human.value].ts > attrs[ai.value].ts {
      assert Overrides(cc, attrs, content, lo, hi, isAi, ai.value, human.value);
    }
  }

  /**
   * A line that shows something does not see a range that covers only blanks of it: without that range its author and
   * what it overrode are the same.  The exception is an AI's range in an AI checkpoint.
   */
  lemma {:induction false} BlankRangeChangesNothing(cc: CharClass, attrs: seq<Attribution>, content: string, lo: nat,
                                                    hi: nat, isAi: bool, x: nat)
    requires lo <= hi <= |content| && x < |attrs| && attrs[x].start < attrs[x].end
    requires exists p: nat | lo <= p < hi :: !cc.isWhitespace(content[p])
    requires forall p: nat | lo <= p < hi && attrs[x].start <= p < attrs[x].end :: cc.isWhitespace(content[p])
    requires isAi ==> attrs[x].author == "human" || "h_" <= attrs[x].author
    ensures LineLabel(cc, attrs[..x] + attrs[x + 1..], content, lo, hi, isAi)
         == LineLabel(cc, attrs, content, lo, hi, isAi)
  {
    CandidateIff(cc, attrs, content, lo, hi, isAi, x);
    hide Candidate, LineLabel;
    OnlyCandidatesMatter(cc, attrs, content, lo, hi, isAi, x);
  }

  /** The same for a whole text: the label of line `n`. */
  lemma {:induction false} BlankRangeOnLine(cc: CharClass, attrs: seq<Attribution>, content: string, isAi: bool, n: nat,
                                            x: nat)
    requires 1 <= n <= |LineRanges(content)| && LineRanges(content)[n - 1].1 <= |content|
    requires x < |attrs| && attrs[x].start < attrs[x].end
    requires var line := LineRanges(content)[n - 1];
             && (exists p: nat | line.0 <= p < line.1 :: !cc.isWhitespace(content[p]))
             && (forall p: nat | line.0 <= p < line.1 && attrs[x].start <= p < attrs[x].end ::
                   cc.isWhitespace(content[p]))
    requires isAi ==> attrs[x].author == "human" || "h_" <= attrs[x].author
    ensures LabelAt(cc, attrs[..x] + attrs[x + 1..], content, isAi, n) == LabelAt(cc, attrs, content, isAi, n)
  {
    NextLine(content, n - 1);
    hide LineRanges, LineLabel;
    var line := LineRanges(content)[n - 1];
    BlankRangeChangesNothing(cc, attrs, content, line.0, line.1, isAi, x);
  }

  // ----- Ranges that decide -----

  /**
   * With the one largest timestamp a range names the line if it shows a visible character of it, if it marks a deletion
   * inside it, if the line is blank, and if it is an AI's in an AI checkpoint.
   */
  lemma {:induction false} LatestRangeDecides(cc: CharClass, attrs: seq<Attribution>, content: string, lo: nat, hi: nat,
                                              isAi: bool, x: nat)
    requires lo <= hi <= |content| && x < |attrs| && attrs[x].start < hi && attrs[x].end > lo
    requires || (exists p: nat | lo <= p < hi && attrs[x].start <= p < attrs[x].end :: !cc.isWhitespace(content[p]))
             || (forall p: nat | lo <= p < hi :: cc.isWhitespace(content[p]))
             || attrs[x].start == attrs[x].end
             || (isAi && attrs[x].author != "human" && !("h_" <= attrs[x].author))
    requires forall k | 0 <= k < |attrs| && k != x :: attrs[k].ts < attrs[x].ts
    ensures LineLabel(cc, attrs, content, lo, hi, isAi).0 == attrs[x].author
  {
    CandidateIff(cc, attrs, content, lo, hi, isAi, x);
    hide Candidate, LineLabel;
    var i := LineAuthorIsLatest(cc, attrs, content, lo, hi, isAi);
    assert Candidate(cc, attrs, content, lo, hi, isAi, x);
    DecidesInRange(cc, attrs, content, lo, hi, isAi, i);
  }
}
