/** Sorting of byte strings in bytewise lexicographic order (sort.Strings). */
module Sorting {

  import opened Bytes

  predicate Leq(a: Text, b: Text) {
    if |a| == 0 then true
    else if |b| == 0 then false
    else if a[0] == b[0] then Leq(a[1..], b[1..])
    else a[0] < b[0]
  }

  lemma {:induction false} LeqTotal(a: Text, b: Text)
    ensures Leq(a, b) || Leq(b, a)
  {
    if |a| > 0 && |b| > 0 && a[0] == b[0] {
      LeqTotal(a[1..], b[1..]);
    }
  }

  lemma {:induction false} LeqAntisymmetric(a: Text, b: Text)
    requires Leq(a, b) && Leq(b, a)
    ensures a == b
  {
    if |a| > 0 && |b| > 0 {
      LeqAntisymmetric(a[1..], b[1..]);
      assert a == [a[0]] + a[1..] && b == [b[0]] + b[1..];
    }
  }

  lemma {:induction false} LeqTransitive(a: Text, b: Text, c: Text)
    requires Leq(a, b) && Leq(b, c)
    ensures Leq(a, c)
  {
    if |a| > 0 && a[0] == b[0] == c[0] {
      LeqTransitive(a[1..], b[1..], c[1..]);
    }
  }

  predicate IsSorted(s: seq<Text>) {
    forall i, j :: 0 <= i < j < |s| ==> Leq(s[i], s[j])
  }

  function Insert(x: Text, s: seq<Text>): (r: seq<Text>)
    ensures multiset(r) == multiset{x} + multiset(s)
  {
    if |s| == 0 then [x]
    else if Leq(x, s[0]) then [x] + s
    else
      assert s == [s[0]] + s[1..];
      [s[0]] + Insert(x, s[1..])
  }

  function Sort(s: seq<Text>): (r: seq<Text>)
    ensures multiset(r) == multiset(s)
  {
    if |s| == 0 then []
    else
      assert s == [s[0]] + s[1..];
      Insert(s[0], Sort(s[1..]))
  }

  /** Everything in `s` is at least `x`. */
  ghost predicate Above(x: Text, s: seq<Text>) {
    forall y :: y in multiset(s) ==> Leq(x, y)
  }

  lemma SortedCons(x: Text, s: seq<Text>)
    requires IsSorted(s) && Above(x, s)
    ensures IsSorted([x] + s)
  {
    hide Leq;
    var r := [x] + s;
    forall i, j | 0 <= i < j < |r| ensures Leq(r[i], r[j]) {
      assert s[j - 1] in multiset(s);
      if i > 0 {
        assert r[i] == s[i - 1];
      }
    }
  }

  lemma SortedHead(s: seq<Text>)
    requires IsSorted(s) && |s| > 0
    ensures Above(s[0], s[1..]) && IsSorted(s[1..])
  {
    hide Leq;
    forall y | y in multiset(s[1..]) ensures Leq(s[0], y) {
      assert y in s[1..];
      var i :| 0 <= i < |s| - 1 && s[1..][i] == y;
      assert y == s[i + 1];
    }
  }

  lemma AboveLess(x: Text, y: Text, s: seq<Text>)
    requires Leq(x, y) && Above(y, s)
    ensures Above(x, s)
  {
    hide Leq;
    forall z | z in multiset(s) ensures Leq(x, z) {
      LeqTransitive(x, y, z);
    }
  }

  lemma {:induction false} InsertSorted(x: Text, s: seq<Text>)
    requires IsSorted(s)
    ensures IsSorted(Insert(x, s))
  {
    hide Leq, IsSorted;
    if |s| == 0 {
      SortedOne(x);
    } else {
      SortedHead(s);
      assert s == [s[0]] + s[1..];
      if Leq(x, s[0]) {
        AboveLess(x, s[0], s[1..]);
        SortedCons(x, s);
      } else {
        LeqTotal(x, s[0]);
        InsertSorted(x, s[1..]);
        SortedCons(s[0], Insert(x, s[1..]));
      }
    }
  }

  lemma SortedOne(x: Text)
    ensures IsSorted([x])
  {
  }

  lemma {:induction false} SortSorted(s: seq<Text>)
    ensures IsSorted(Sort(s))
  {
    if |s| > 0 {
      SortSorted(s[1..]);
      InsertSorted(s[0], Sort(s[1..]));
    }
  }

  lemma SortedHeads(a: seq<Text>, b: seq<Text>)
    requires IsSorted(a) && IsSorted(b) && multiset(a) == multiset(b) && |a| > 0 && |b| > 0
    ensures a[0] == b[0]
  {
    hide Leq;
    assert a[0] in multiset(b) && b[0] in multiset(a);
    var i :| 0 <= i < |b| && b[i] == a[0];
    var j :| 0 <= j < |a| && a[j] == b[0];
    if i != 0 && j != 0 {
      LeqAntisymmetric(a[0], b[0]);
    }
  }

  lemma MultisetTail(a: seq<Text>)
    requires |a| > 0
    ensures multiset(a[1..]) == multiset(a) - multiset{a[0]}
  {
    assert a == [a[0]] + a[1..];
  }

  lemma {:induction false} SortedUnique(a: seq<Text>, b: seq<Text>)
    requires IsSorted(a) && IsSorted(b) && multiset(a) == multiset(b)
    ensures a == b
  {
    hide Leq;
    assert |a| == |multiset(a)| == |multiset(b)| == |b|;
    if |a| > 0 {
      SortedHeads(a, b);
      MultisetTail(a);
      MultisetTail(b);
      SortedUnique(a[1..], b[1..]);
      assert a == [a[0]] + a[1..] && b == [b[0]] + b[1..];
    }
  }

  /** Sorting forgets the order of its input. */
  lemma SortOfPermutation(s: seq<Text>, t: seq<Text>)
    requires multiset(s) == multiset(t)
    ensures Sort(s) == Sort(t)
  {
    SortSorted(s);
    SortSorted(t);
    SortedUnique(Sort(s), Sort(t));
  }
}
