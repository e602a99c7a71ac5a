/** Selecting from sequences, and stable insertion sort, as Python's `sorted` with a key. */
module Sequences {

  // ------------------------------------------------------------ selection

  /** The elements that fit, in order. */
  function Filter<T(!new)>(p: T -> bool, s: seq<T>): (r: seq<T>)
    ensures forall x :: x in r <==> x in s && p(x)
    ensures |r| <= |s|
  {
    if s == [] then [] else (if p(s[0]) then [s[0]] else []) + Filter(p, s[1..])
  }

  lemma {:induction false} FilterAtMostOne<T(!new)>(p: T -> bool, s: seq<T>)
    requires forall i, j :: 0 <= i < j < |s| ==> !(p(s[i]) && p(s[j]))
    ensures |Filter(p, s)| <= 1
  {
    if s != [] {
      FilterAtMostOne(p, s[1..]);
      forall x | x in s[1..]
        ensures !(p(s[0]) && p(x))
      {
        var j :| 0 <= j < |s[1..]| && s[1..][j] == x;
        assert s[j + 1] == x;
      }
      var rest := Filter(p, s[1..]);
      assert rest != [] ==> rest[0] in rest;
    }
  }

  /** A selection that fits one row only is that row. */
  lemma FilterOne<T(!new)>(p: T -> bool, s: seq<T>, k: nat)
    requires k < |s| && p(s[k])
    requires forall i :: 0 <= i < |s| && p(s[i]) ==> i == k
    ensures Filter(p, s) == [s[k]]
  {
    FilterAtMostOne(p, s);
    assert s[k] in Filter(p, s);
  }

  lemma {:induction false} FilterTwice<T(!new)>(p: T -> bool, q: T -> bool, both: T -> bool, s: seq<T>)
    requires forall x :: both(x) <==> p(x) && q(x)
    ensures Filter(q, Filter(p, s)) == Filter(both, s)
  {
    if s != [] {
      FilterTwice(p, q, both, s[1..]);
      if p(s[0]) {
        assert Filter(p, s) == [s[0]] + Filter(p, s[1..]);
        assert ([s[0]] + Filter(p, s[1..]))[1..] == Filter(p, s[1..]);
      } else {
        assert Filter(p, s) == [] + Filter(p, s[1..]) == Filter(p, s[1..]);
      }
    }
  }

  /** A selection keeps every copy of what fits, whatever the order. */
  lemma {:induction false} FilterContents<T(!new)>(p: T -> bool, s: seq<T>)
    ensures forall x :: multiset(Filter(p, s))[x] == if p(x) then multiset(s)[x] else 0
  {
    if s != [] {
      FilterContents(p, s[1..]);
      assert s == [s[0]] + s[1..];
      assert multiset(s) == multiset{s[0]} + multiset(s[1..]);
      var head := if p(s[0]) then [s[0]] else [];
      assert multiset(Filter(p, s)) == multiset(head) + multiset(Filter(p, s[1..]));
    }
  }

  lemma FilterPermuted<T(!new)>(p: T -> bool, s: seq<T>, t: seq<T>)
    requires multiset(s) == multiset(t)
    ensures multiset(Filter(p, s)) == multiset(Filter(p, t))
  {
    FilterContents(p, s);
    FilterContents(p, t);
  }

  /** A permutation has the same length, and the same element if it has one. */
  lemma PermutedOne<T>(s: seq<T>, t: seq<T>)
    requires multiset(s) == multiset(t)
    ensures |s| == |t|
    ensures |s| == 1 ==> s[0] == t[0]
  {
    assert |multiset(s)| == |s| && |multiset(t)| == |t|;
    if |s| == 1 {
      assert s == [s[0]] && t == [t[0]];
      assert t[0] in multiset(t);
      assert t[0] in multiset(s);
    }
  }

  /** Where the elements that fit are. */
  function Positions<T(!new)>(p: T -> bool, s: seq<T>): set<nat> {
    set i: nat | i < |s| && p(s[i])
  }

  lemma PositionsSnoc<T(!new)>(p: T -> bool, s: seq<T>, x: T)
    ensures |Positions(p, s + [x])| == |Positions(p, s)| + if p(x) then 1 else 0
  {
    if p(x) {
      assert Positions(p, s + [x]) == Positions(p, s) + {|s|};
    } else {
      assert Positions(p, s + [x]) == Positions(p, s);
    }
  }

  /** A selection has as many elements as there are positions that fit. */
  lemma {:induction false} FilterCounts<T(!new)>(p: T -> bool, s: seq<T>)
    ensures |Filter(p, s)| == |Positions(p, s)|
  {
    if s != [] {
      var front, last := s[..|s| - 1], s[|s| - 1];
      assert s == front + [last];
      FilterCounts(p, front);
      PositionsSnoc(p, front, last);
      FilterSnoc(p, front, last);
    }
  }

  lemma FilterSnoc<T(!new)>(p: T -> bool, s: seq<T>, x: T)
    ensures Filter(p, s + [x]) == Filter(p, s) + if p(x) then [x] else []
  {
    FilterAppend(p, s, [x]);
  }

  lemma SubsetSize<T>(a: set<T>, b: set<T>)
    requires a <= b
    ensures |a| <= |b|
  {
    assert |b - a| == |b| - |a|;
  }

  /** Exactly one row fits when the selection has length one. */
  lemma {:induction false} FilterOneExactly<T(!new)>(p: T -> bool, s: seq<T>)
    ensures |Filter(p, s)| == 1 ==>
              exists i :: 0 <= i < |s| && p(s[i]) && Filter(p, s) == [s[i]] && forall j :: 0 <= j < |s| && p(s[j]) ==>
                  j == i
  {
    if |Filter(p, s)| == 1 {
      var rest := Filter(p, s[1..]);
      if p(s[0]) {
        assert Filter(p, s) == [s[0]] + rest;
        assert rest == [];
        forall j | 0 < j < |s|
          ensures !p(s[j])
        {
          assert s[j] == s[1..][j - 1];
          assert s[j] in s[1..] && s[j] !in rest;
        }
      } else {
        assert Filter(p, s) == [] + rest == rest;
        FilterOneExactly(p, s[1..]);
        var i :| 0 <= i < |s[1..]| && p(s[1..][i]) && rest == [s[1..][i]] && forall j ::
            0 <= j < |s[1..]| && p(s[1..][j]) ==> j == i;
        assert s[i + 1] == s[1..][i];
        forall j | 0 <= j < |s| && p(s[j])
          ensures j == i + 1
        {
          assert j > 0 && s[j] == s[1..][j - 1];
        }
      }
    }
  }

  ghost predicate Pairs<T(!new)>(rel: (T, T) -> bool, s: seq<T>) {
    forall i, j :: 0 <= i < j < |s| ==> rel(s[i], s[j])
  }

  /** A selection of rows keeps whatever holds of all pairs of rows. */
  lemma {:induction false} FilterPairs<T(!new)>(rel: (T, T) -> bool, p: T -> bool, s: seq<T>)
    requires Pairs(rel, s)
    ensures Pairs(rel, Filter(p, s))
  {
    if s != [] {
      FilterPairs(rel, p, s[1..]);
      var rest := Filter(p, s[1..]);
      forall j | 0 <= j < |rest|
        ensures rel(s[0], rest[j])
      {
        assert rest[j] in rest;
        var k :| 0 <= k < |s[1..]| && s[1..][k] == rest[j];
        assert s[k + 1] == rest[j];
      }
    }
  }

  lemma {:induction false} FilterAppend<T(!new)>(p: T -> bool, a: seq<T>, b: seq<T>)
    ensures Filter(p, a + b) == Filter(p, a) + Filter(p, b)
  {
    if a == [] {
      assert a + b == b;
    } else {
      assert (a + b)[1..] == a[1..] + b;
      FilterAppend(p, a[1..], b);
    }
  }

  lemma {:induction false} FilterAll<T(!new)>(p: T -> bool, a: seq<T>)
    requires forall i :: 0 <= i < |a| ==> p(a[i])
    ensures Filter(p, a) == a
  {
    if a != [] {
      FilterAll(p, a[1..]);
    }
  }

  lemma {:induction false} FilterNone<T(!new)>(p: T -> bool, a: seq<T>)
    requires forall i :: 0 <= i < |a| ==> !p(a[i])
    ensures Filter(p, a) == []
  {
    if a != [] {
      FilterNone(p, a[1..]);
    }
  }

  /** Filtering the appended rows out again. */
  lemma FilterSplit<T(!new)>(p: T -> bool, a: seq<T>, b: seq<T>)
    requires forall i :: 0 <= i < |a| ==> p(a[i])
    requires forall i :: 0 <= i < |b| ==> !p(b[i])
    ensures Filter(p, a + b) == a
  {
    FilterAppend(p, a, b);
    FilterAll(p, a);
    FilterNone(p, b);
  }

  // ------------------------------------------------------------ sorting


  function InsertBy<T>(leq: (T, T) -> bool, x: T, s: seq<T>): seq<T> {
    if s == [] || leq(x, s[0]) then [x] + s else [s[0]] + InsertBy(leq, x, s[1..])
  }

  /** Elements whose keys are equal keep their order. */
  function SortBy<T>(leq: (T, T) -> bool, s: seq<T>): seq<T> {
    if s == [] then [] else InsertBy(leq, s[0], SortBy(leq, s[1..]))
  }

  lemma {:induction false} InsertByContents<T>(leq: (T, T) -> bool, x: T, s: seq<T>)
    ensures multiset(InsertBy(leq, x, s)) == multiset(s) + multiset{x}
  {
    if s != [] && !leq(x, s[0]) {
      InsertByContents(leq, x, s[1..]);
      assert s == [s[0]] + s[1..];
    }
  }

  lemma {:induction false} SortByContents<T>(leq: (T, T) -> bool, s: seq<T>)
    ensures multiset(SortBy(leq, s)) == multiset(s)
  {
    if s != [] {
      SortByContents(leq, s[1..]);
      InsertByContents(leq, s[0], SortBy(leq, s[1..]));
      assert s == [s[0]] + s[1..];
    }
  }

  lemma SortBySame<T>(leq: (T, T) -> bool, s: seq<T>)
    ensures |SortBy(leq, s)| == |s|
    ensures forall x :: x in SortBy(leq, s) <==> x in s
  {
    SortByContents(leq, s);
    var t := SortBy(leq, s);
    assert |multiset(t)| == |multiset(s)|;
    forall x
      ensures x in t <==> x in s
    {
      assert x in t <==> x in multiset(t);
      assert x in s <==> x in multiset(s);
    }
  }

  ghost predicate NoDuplicates<T>(s: seq<T>) {
    forall i, j :: 0 <= i < j < |s| ==> s[i] != s[j]
  }

  lemma {:induction false} SingleOccurrences<T>(s: seq<T>)
    requires forall x :: multiset(s)[x] <= 1
    ensures NoDuplicates(s)
  {
    if s != [] {
      var rest := s[1..];
      assert s == [s[0]] + rest;
      assert multiset(s) == multiset{s[0]} + multiset(rest);
      forall x
        ensures multiset(rest)[x] <= 1
      {
        assert multiset(s)[x] <= 1;
      }
      SingleOccurrences(rest);
      assert multiset(s)[s[0]] <= 1;
      assert s[0] !in multiset(rest);
      assert s[0] !in rest;
      assert forall i :: 0 < i < |s| ==> s[i] == rest[i - 1];
    }
  }

  lemma {:induction false} NoDuplicatesOnce<T>(s: seq<T>)
    requires NoDuplicates(s)
    ensures forall x :: multiset(s)[x] <= 1
  {
    if s != [] {
      var rest := s[1..];
      NoDuplicatesOnce(rest);
      assert s == [s[0]] + rest;
      assert s[0] !in rest;
      assert s[0] !in multiset(rest);
    }
  }

  lemma SortByNoDuplicates<T>(leq: (T, T) -> bool, s: seq<T>)
    requires NoDuplicates(s)
    ensures NoDuplicates(SortBy(leq, s))
  {
    NoDuplicatesOnce(s);
    SortByContents(leq, s);
    SingleOccurrences(SortBy(leq, s));
  }

  ghost predicate Ordered<T(!new)>(leq: (T, T) -> bool, s: seq<T>) {
    Pairs(leq, s)
  }

  lemma {:induction false} InsertOrdered<T(!new)>(leq: (T, T) -> bool, x: T, s: seq<T>)
    requires forall a, b :: leq(a, b) || leq(b, a)
    requires forall a, b, c :: leq(a, b) && leq(b, c) ==> leq(a, c)
    requires Ordered(leq, s)
    ensures Ordered(leq, InsertBy(leq, x, s))
  {
    if s != [] && !leq(x, s[0]) {
      InsertOrdered(leq, x, s[1..]);
      InsertByContents(leq, x, s[1..]);
      var rest := InsertBy(leq, x, s[1..]);
      forall j | 0 <= j < |rest|
        ensures leq(s[0], rest[j])
      {
        assert rest[j] in multiset(rest);
        assert rest[j] == x || rest[j] in s[1..];
      }
    }
  }

  /** Under a total preorder the sorted sequence is in order. */
  lemma {:induction false} SortByOrdered<T(!new)>(leq: (T, T) -> bool, s: seq<T>)
    requires forall a, b :: leq(a, b) || leq(b, a)
    requires forall a, b, c :: leq(a, b) && leq(b, c) ==> leq(a, c)
    ensures Ordered(leq, SortBy(leq, s))
  {
    if s != [] {
      SortByOrdered(leq, s[1..]);
      InsertOrdered(leq, s[0], SortBy(leq, s[1..]));
    }
  }

  // ------------------------------------------------------------ order of texts

  /** Python's `<=` on strings. */
  predicate TextLeq(a: string, b: string) {
    a == "" || (b != "" && (a[0] < b[0] || (a[0] == b[0] && TextLeq(a[1..], b[1..]))))
  }

  /** The texts first differ at `i`, where `a` has the smaller character. */
  predicate SmallerAt(a: string, b: string, i: int) {
    0 <= i < |a| && i < |b| && a[..i] == b[..i] && a[i] < b[i]
  }

  /** Texts are ordered by their first difference; a prefix comes first. */
  lemma {:induction false} TextLeqExactly(a: string, b: string)
    ensures TextLeq(a, b) <==> a <= b || exists i :: SmallerAt(a, b, i)
  {
    if a != "" && b != "" {
      TextLeqExactly(a[1..], b[1..]);
      if a[0] == b[0] {
        forall i | 0 < i
          ensures SmallerAt(a, b, i) <==> SmallerAt(a[1..], b[1..], i - 1)
        {
          LaterDifference(a, b, i);
        }
        assert a <= b <==> a[1..] <= b[1..];
        if i :| SmallerAt(a[1..], b[1..], i) {
          assert SmallerAt(a, b, i + 1);
        }
        if i :| SmallerAt(a, b, i) {
          assert SmallerAt(a[1..], b[1..], i - 1);
        }
      } else if a[0] < b[0] {
        assert SmallerAt(a, b, 0);
      } else {
        NoPrefix(a, b);
      }
    }
  }

  lemma LaterDifference(a: string, b: string, i: int)
    requires a != "" && b != "" && a[0] == b[0] && i > 0
    ensures SmallerAt(a, b, i) <==> SmallerAt(a[1..], b[1..], i - 1)
  {
    if i < |a| && i < |b| {
      assert a[..i] == [a[0]] + a[1..][..i - 1] && b[..i] == [b[0]] + b[1..][..i - 1];
      assert a[1..][..i - 1] == a[..i][1..] && b[1..][..i - 1] == b[..i][1..];
    }
  }

  lemma NoPrefix(a: string, b: string)
    requires a != "" && b != "" && a[0] > b[0]
    ensures !(a <= b) && forall i :: !SmallerAt(a, b, i)
  {
    forall i
      ensures !SmallerAt(a, b, i)
    {
      if 0 < i < |a| && i < |b| {
        assert a[..i][0] != b[..i][0];
      }
    }
  }

  lemma {:induction false} TextLeqTotal(a: string, b: string)
    ensures TextLeq(a, b) || TextLeq(b, a)
    ensures TextLeq(a, b) && TextLeq(b, a) ==> a == b
  {
    if a != "" && b != "" && a[0] == b[0] {
      TextLeqTotal(a[1..], b[1..]);
      if a[1..] == b[1..] {
        assert a == [a[0]] + a[1..] && b == [b[0]] + b[1..];
      }
    }
  }

  lemma {:induction false} TextLeqTransitive(a: string, b: string, c: string)
    requires TextLeq(a, b) && TextLeq(b, c)
    ensures TextLeq(a, c)
  {
    if a != "" && a[0] == b[0] && b[0] == c[0] {
      TextLeqTransitive(a[1..], b[1..], c[1..]);
    }
  }
}
