/**
 * The stable sort of the standard library.  Only its contract matters to the code: the result is an
 * ordered permutation and equal keys keep their order.
 */
module Sorting {

  ghost predicate TotalPreorder<T(!new)>(le: (T, T) -> bool) {
    && (forall x, y :: le(x, y) || le(y, x))
    && (forall x, y, z :: le(x, y) && le(y, z) ==> le(x, z))
  }

  ghost predicate Antisymmetric<T(!new)>(le: (T, T) -> bool) {
    forall x, y :: le(x, y) && le(y, x) ==> x == y
  }

  ghost predicate SortedBy<T>(s: seq<T>, le: (T, T) -> bool) {
    forall i, j | 0 <= i < j < |s| :: le(s[i], s[j])
  }

  function Insert<T>(x: T, s: seq<T>, le: (T, T) -> bool): (r: seq<T>)
    ensures |r| == |s| + 1
    ensures multiset(r) == multiset{x} + multiset(s)
  {
    if s == [] || le(x, s[0]) then
      [x] + s
    else
      assert s == [s[0]] + s[1..];
      [s[0]] + Insert(x, s[1..], le)
  }

  function Sort<T>(s: seq<T>, le: (T, T) -> bool): (r: seq<T>)
    ensures |r| == |s|
    ensures multiset(r) == multiset(s)
  {
    if s == [] then [] else
    assert s == [s[0]] + s[1..];
    Insert(s[0], Sort(s[1..], le), le)
  }

  lemma {:induction false} InsertSorted<T(!new)>(x: T, s: seq<T>, le: (T, T) -> bool)
    requires TotalPreorder(le) && SortedBy(s, le)
    ensures SortedBy(Insert(x, s, le), le)
  {
    if s == [] || le(x, s[0]) {
    } else {
      InsertSorted(x, s[1..], le);
      var r := Insert(x, s[1..], le);
      forall j | 0 <= j < |r| ensures le(s[0], r[j]) {
        assert r[j] in multiset(r);
        if r[j] != x {
          assert r[j] in multiset(s[1..]);
        }
      }
    }
  }

  lemma {:induction false} SortIsSorted<T(!new)>(s: seq<T>, le: (T, T) -> bool)
    requires TotalPreorder(le)
    ensures SortedBy(Sort(s, le), le)
  {
    if s != [] {
      SortIsSorted(s[1..], le);
      InsertSorted(s[0], Sort(s[1..], le), le);
    }
  }

  lemma {:induction false} SortMembers<T>(s: seq<T>, le: (T, T) -> bool)
    ensures forall x :: x in Sort(s, le) <==> x in s
  {
    forall x ensures x in Sort(s, le) <==> x in s {
      assert x in Sort(s, le) <==> x in multiset(Sort(s, le));
      assert x in s <==> x in multiset(s);
    }
  }

  lemma {:induction false} SortOfSorted<T>(s: seq<T>, le: (T, T) -> bool)
    requires SortedBy(s, le)
    ensures Sort(s, le) == s
  {
    if s != [] {
      SortOfSorted(s[1..], le);
      assert s == [s[0]] + s[1..];
    }
  }

  lemma {:induction false} SameHead<T(!new)>(a: seq<T>, b: seq<T>, le: (T, T) -> bool)
    requires Antisymmetric(le) && SortedBy(a, le) && SortedBy(b, le)
    requires a != [] && b != [] && multiset(a) == multiset(b)
    ensures a[0] == b[0]
  {
    assert a[0] in multiset(b) && b[0] in multiset(a);
    var i :| 0 <= i < |b| && b[i] == a[0];
    var j :| 0 <= j < |a| && a[j] == b[0];
    if i > 0 && j > 0 {
      assert le(b[0], b[i]) && le(a[0], a[j]);
    }
  }

  /** With an antisymmetric order the ordered permutation is unique. */
  lemma {:induction false} SortedUnique<T(!new)>(a: seq<T>, b: seq<T>, le: (T, T) -> bool)
    requires Antisymmetric(le) && SortedBy(a, le) && SortedBy(b, le) && multiset(a) == multiset(b)
    ensures a == b
  {
    assert |multiset(a)| == |a| && |multiset(b)| == |b|;
    if a != [] {
      SameHead(a, b, le);
      hide Antisymmetric;
      assert a == [a[0]] + a[1..] && b == [b[0]] + b[1..];
      assert multiset(a[1..]) == multiset(a) - multiset{a[0]};
      assert multiset(b[1..]) == multiset(b) - multiset{b[0]};
      SortedUnique(a[1..], b[1..], le);
    }
  }

  /** The elements of `s` whose key equals the key of `x`, in order. */
  function SameKey<T>(s: seq<T>, x: T, le: (T, T) -> bool): seq<T> {
    if s == [] then []
    else (if le(s[0], x) && le(x, s[0]) then [s[0]] else []) + SameKey(s[1..], x, le)
  }

  /** Equal keys keep their order. */
  lemma {:induction false} SortIsStable<T(!new)>(s: seq<T>, x: T, le: (T, T) -> bool)
    requires TotalPreorder(le)
    ensures SameKey(Sort(s, le), x, le) == SameKey(s, x, le)
  {
    if s != [] {
      SortIsStable(s[1..], x, le);
      InsertIsStable(s[0], Sort(s[1..], le), x, le);
    }
  }

  lemma {:induction false} Transitive<T(!new)>(le: (T, T) -> bool, x: T, y: T, z: T)
    requires TotalPreorder(le) && le(x, y) && le(y, z)
    ensures le(x, z)
  {
  }

  lemma {:induction false} SameKeyCons<T>(y: T, s: seq<T>, x: T, le: (T, T) -> bool)
    ensures SameKey([y] + s, x, le) == (if le(y, x) && le(x, y) then [y] else []) + SameKey(s, x, le)
  {
    assert ([y] + s)[1..] == s;
  }

  lemma {:induction false} InsertUnfold<T>(y: T, s: seq<T>, le: (T, T) -> bool)
    requires s != []
    ensures Insert(y, s, le) == if le(y, s[0]) then [y] + s else [s[0]] + Insert(y, s[1..], le)
    ensures s == [s[0]] + s[1..]
  {
  }

  lemma {:induction false} InsertIsStable<T(!new)>(y: T, s: seq<T>, x: T, le: (T, T) -> bool)
    requires TotalPreorder(le)
    ensures SameKey(Insert(y, s, le), x, le) == (if le(y, x) && le(x, y) then [y] else []) + SameKey(s, x, le)
  {
    if s == [] {
      SameKeyCons(y, s, x, le);
      return;
    }
    hide *;
    InsertUnfold(y, s, le);
    if le(y, x) && le(x, s[0]) {
      Transitive(le, y, x, s[0]);
    }
    if le(y, s[0]) {
      SameKeyCons(y, s, x, le);
    } else {
      InsertIsStable(y, s[1..], x, le);
      SameKeyCons(s[0], Insert(y, s[1..], le), x, le);
      SameKeyCons(s[0], s[1..], x, le);
      Swap(if le(s[0], x) && le(x, s[0]) then [s[0]] else [], if le(y, x) && le(x, y) then [y] else [],
           SameKey(s[1..], x, le));
    }
  }

  lemma {:induction false} Swap<T>(a: seq<T>, b: seq<T>, c: seq<T>)
    requires a == [] || b == []
    ensures a + (b + c) == b + (a + c)
  {
    assert a == [] ==> a + (b + c) == b + c && a + c == c;
    assert b == [] ==> b + (a + c) == a + c && b + c == c;
  }
}
