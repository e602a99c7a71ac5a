/**
 Splicing physical table names into a statement, right to left, and the simultaneous
 left-to-right substitution that this is equal to.
 */
module SqlRewrite {
  import opened Sequences

  datatype TableRewritePlan = TableRewritePlan(
    originalTableName: string,
    physicalTableName: string,
    tokenStart: nat,
    tokenEnd: nat)

  /** Python slices clamp their bounds. */
  function To(s: string, n: nat): string {
    if n <= |s| then s[..n] else s
  }

  function From(s: string, n: nat): string {
    if n <= |s| then s[n..] else ""
  }

  function Splice(s: string, plan: TableRewritePlan): string {
    To(s, plan.tokenStart) + plan.physicalTableName + From(s, plan.tokenEnd)
  }

  function SpliceAll(s: string, plans: seq<TableRewritePlan>): string
    decreases |plans|
  {
    if plans == [] then s else SpliceAll(Splice(s, plans[0]), plans[1..])
  }

  /** `sorted(plans, key=token_start, reverse=True)`, which keeps equal keys in their order. */
  function SortDescending(ps: seq<TableRewritePlan>): seq<TableRewritePlan> {
    SortBy((a: TableRewritePlan, b: TableRewritePlan) => b.tokenStart <= a.tokenStart, ps)
  }

  function RewriteSpec(sql: string, plans: seq<TableRewritePlan>): string {
    SpliceAll(sql, SortDescending(plans))
  }

  /** `SqlRewriteEngine.rewrite`. */
  method Rewrite(sql: string, plans: seq<TableRewritePlan>) returns (rewritten: string)
    ensures rewritten == RewriteSpec(sql, plans)
  {
    rewritten := sql;
    if plans == [] {
      return;
    }
    var ordered := SortDescending(plans);
    var i := 0;
    while i < |ordered|
      invariant i <= |ordered|
      invariant SpliceAll(rewritten, ordered[i..]) == SpliceAll(sql, ordered)
    {
      assert ordered[i..][1..] == ordered[i + 1..];
      rewritten := Splice(rewritten, ordered[i]);
      i := i + 1;
    }
  }

  // ------------------------------------------------------------ simultaneous substitution

  /** Non-empty spans in `[lo, hi]`, in text order, none overlapping. */
  ghost predicate Separate(ps: seq<TableRewritePlan>, lo: nat, hi: nat) {
    if ps == [] then lo <= hi
    else lo <= ps[0].tokenStart < ps[0].tokenEnd && Separate(ps[1..], ps[0].tokenEnd, hi)
  }

  lemma {:induction false} SeparateBounds(ps: seq<TableRewritePlan>, lo: nat, hi: nat)
    requires Separate(ps, lo, hi)
    ensures lo <= hi
    ensures forall i :: 0 <= i < |ps| ==> lo <= ps[i].tokenStart < ps[i].tokenEnd <= hi
    ensures forall i, j :: 0 <= i < j < |ps| ==> ps[i].tokenEnd <= ps[j].tokenStart
  {
    if ps != [] {
      SeparateBounds(ps[1..], ps[0].tokenEnd, hi);
      assert forall i :: 0 < i < |ps| ==> ps[i] == ps[1..][i - 1];
    }
  }

  /** The text from `from` on, with every span replaced by its physical name at once. */
  ghost function Substitute(s: string, ps: seq<TableRewritePlan>, from: nat): string
    requires Separate(ps, from, |s|)
    decreases |ps|
  {
    SeparateBounds(ps, from, |s|);
    if ps == [] then s[from..]
    else s[from..ps[0].tokenStart] + ps[0].physicalTableName + Substitute(s, ps[1..], ps[0].tokenEnd)
  }

  lemma {:induction false} SubstituteFrom(s: string, ps: seq<TableRewritePlan>, from: nat, mid: nat)
    requires from <= mid && Separate(ps, mid, |s|)
    ensures Separate(ps, from, |s|) && mid <= |s|
    ensures Substitute(s, ps, from) == s[from..mid] + Substitute(s, ps, mid)
  {
    SeparateBounds(ps, mid, |s|);
    if ps == [] {
      assert s[from..] == s[from..mid] + s[mid..];
    } else {
      var p := ps[0];
      var rest := p.physicalTableName + Substitute(s, ps[1..], p.tokenEnd);
      assert Substitute(s, ps, from) == s[from..p.tokenStart] + rest;
      assert Substitute(s, ps, mid) == s[mid..p.tokenStart] + rest;
      SplitFront(s, from, mid, p.tokenStart, rest);
    }
  }

  lemma SplitFront(s: string, from: nat, mid: nat, to: nat, rest: string)
    requires from <= mid <= to <= |s|
    ensures s[from..to] + rest == s[from..mid] + (s[mid..to] + rest)
  {
  }

  ghost function Reverse(ps: seq<TableRewritePlan>): seq<TableRewritePlan> {
    if ps == [] then [] else Reverse(ps[1..]) + [ps[0]]
  }

  lemma {:induction false} SpliceAllSnoc(s: string, ps: seq<TableRewritePlan>, p: TableRewritePlan)
    ensures SpliceAll(s, ps + [p]) == Splice(SpliceAll(s, ps), p)
    decreases |ps|
  {
    if ps != [] {
      assert (ps + [p])[1..] == ps[1..] + [p];
      SpliceAllSnoc(Splice(s, ps[0]), ps[1..], p);
    }
  }

  lemma {:induction false} ReverseSplicing(s: string, ps: seq<TableRewritePlan>)
    requires Separate(ps, 0, |s|)
    ensures SpliceAll(s, Reverse(ps)) == Substitute(s, ps, 0)
    decreases |ps|
  {
    if ps == [] {
      assert s[0..] == s;
    } else {
      var p := ps[0];
      SeparateBounds(ps, 0, |s|);
      SubstituteFrom(s, ps[1..], 0, p.tokenEnd);
      ReverseSplicing(s, ps[1..]);
      SpliceAllSnoc(s, Reverse(ps[1..]), p);
      var tail := Substitute(s, ps[1..], p.tokenEnd);
      assert (s[0..p.tokenEnd] + tail)[..p.tokenStart] == s[0..p.tokenStart];
      assert (s[0..p.tokenEnd] + tail)[p.tokenEnd..] == tail;
    }
  }

  // ------------------------------------------------------------ the sort

  ghost predicate Descending(ps: seq<TableRewritePlan>) {
    forall i, j :: 0 <= i < j < |ps| ==> ps[j].tokenStart <= ps[i].tokenStart
  }

  lemma SortDescendingSorts(ps: seq<TableRewritePlan>)
    ensures Descending(SortDescending(ps))
    ensures multiset(SortDescending(ps)) == multiset(ps)
  {
    var leq := (a: TableRewritePlan, b: TableRewritePlan) => b.tokenStart <= a.tokenStart;
    SortByContents(leq, ps);
    SortByOrdered(leq, ps);
    var sorted := SortDescending(ps);
    assert forall i, j :: 0 <= i < j < |sorted| ==> leq(sorted[i], sorted[j]);
  }

  lemma {:induction false} ReverseContents(ps: seq<TableRewritePlan>)
    ensures multiset(Reverse(ps)) == multiset(ps)
  {
    if ps != [] {
      ReverseContents(ps[1..]);
      assert ps == [ps[0]] + ps[1..];
    }
  }

  /** Plans in text order, reversed, are strictly descending. */
  lemma {:induction false} ReverseDescends(ps: seq<TableRewritePlan>, lo: nat, hi: nat)
    requires Separate(ps, lo, hi)
    ensures StrictlyDescending(Reverse(ps))
    ensures forall p :: p in Reverse(ps) ==> lo <= p.tokenStart
  {
    if ps != [] {
      ReverseDescends(ps[1..], ps[0].tokenEnd, hi);
      var front := Reverse(ps[1..]);
      assert forall i :: 0 <= i < |front| ==> front[i] in front;
    }
  }

  ghost predicate StrictlyDescending(ps: seq<TableRewritePlan>) {
    forall i, j :: 0 <= i < j < |ps| ==> ps[j].tokenStart < ps[i].tokenStart
  }

  lemma MultisetTail(a: seq<TableRewritePlan>)
    requires a != []
    ensures multiset(a[1..]) == multiset(a) - multiset{a[0]}
  {
    assert a == [a[0]] + a[1..];
  }

  lemma SameGreatest(a: seq<TableRewritePlan>, b: seq<TableRewritePlan>)
    requires a != [] && b != []
    requires Descending(a) && StrictlyDescending(b) && multiset(a) == multiset(b)
    ensures a[0] == b[0]
  {
    assert a[0] in multiset(b) && b[0] in multiset(a);
    var i :| 0 <= i < |b| && b[i] == a[0];
    var j :| 0 <= j < |a| && a[j] == b[0];
    assert a[j].tokenStart <= a[0].tokenStart;
  }

  lemma TailsDescend(a: seq<TableRewritePlan>, b: seq<TableRewritePlan>)
    requires a != [] && b != []
    requires Descending(a) && StrictlyDescending(b)
    ensures Descending(a[1..]) && StrictlyDescending(b[1..])
  {
  }

  /** With distinct keys the sorted order is unique. */
  lemma {:induction false} DescendingUnique(a: seq<TableRewritePlan>, b: seq<TableRewritePlan>)
    requires Descending(a) && StrictlyDescending(b) && multiset(a) == multiset(b)
    ensures a == b
  {
    hide Descending, StrictlyDescending;
    assert |multiset(a)| == |multiset(b)|;
    if a != [] {
      SameGreatest(a, b);
      MultisetTail(a);
      MultisetTail(b);
      TailsDescend(a, b);
      DescendingUnique(a[1..], b[1..]);
      assert a == [a[0]] + a[1..] && b == [b[0]] + b[1..];
    }
  }

  /** Splicing right to left, in whatever order the plans come, is one simultaneous substitution. */
  lemma RewriteIsSubstitution(sql: string, plans: seq<TableRewritePlan>, ordered: seq<TableRewritePlan>)
    requires Separate(ordered, 0, |sql|)
    requires multiset(plans) == multiset(ordered)
    ensures RewriteSpec(sql, plans) == Substitute(sql, ordered, 0)
  {
    SortDescendingSorts(plans);
    ReverseContents(ordered);
    ReverseDescends(ordered, 0, |sql|);
    DescendingUnique(SortDescending(plans), Reverse(ordered));
    ReverseSplicing(sql, ordered);
  }

  /** By how much the spans that end at or before position `k` move the text after them. */
  ghost function Shift(ps: seq<TableRewritePlan>, k: nat): int {
    if ps == [] || k < ps[0].tokenEnd then 0
    else |ps[0].physicalTableName| - (ps[0].tokenEnd - ps[0].tokenStart) + Shift(ps[1..], k)
  }

  /** Every character outside the spans survives, moved by the length differences before it. */
  lemma {:induction false} OutsidePreserved(s: string, ps: seq<TableRewritePlan>, from: nat, k: nat)
    requires Separate(ps, from, |s|)
    requires from <= k < |s|
    requires forall p :: p in ps ==> !(p.tokenStart <= k < p.tokenEnd)
    ensures 0 <= k - from + Shift(ps, k) < |Substitute(s, ps, from)|
    ensures Substitute(s, ps, from)[k - from + Shift(ps, k)] == s[k]
    decreases |ps|
  {
    SeparateBounds(ps, from, |s|);
    if ps != [] {
      var p := ps[0];
      var head := s[from..p.tokenStart] + p.physicalTableName;
      if p.tokenEnd <= k {
        OutsidePreserved(s, ps[1..], p.tokenEnd, k);
        assert Substitute(s, ps, from) == head + Substitute(s, ps[1..], p.tokenEnd);
        assert |head| == p.tokenStart - from + |p.physicalTableName|;
      } else {
        assert p in ps;
        assert Substitute(s, ps, from)[k - from] == s[from..p.tokenStart][k - from];
      }
    }
  }
}
