/**
 Reading the predicates of a statement again after its table names were replaced: there are as many,
 in the same order, and all but those that lie on a replaced token are the same.
 */
module PredicateTransfer {
  import opened Wrappers
  import opened Text
  import opened SqlParser
  import opened SqlRewrite
  import opened RewriteTransfer
  import opened PredicateToken

  // ------------------------------------------------------------ all tokens replaced

  /** The plan replaces a whole name, behind a blank, by another name. */
  predicate PlanAt(s: string, p: TableRewritePlan) {
    && 0 < p.tokenStart < p.tokenEnd <= |s| && IsSpace(s[p.tokenStart - 1])
    && IsIdent(s[p.tokenStart..p.tokenEnd]) && AtBoundary(s[p.tokenEnd..]) && IsIdent(p.physicalTableName)
  }

  predicate PlansAt(s: string, ps: seq<TableRewritePlan>) {
    forall i :: 0 <= i < |ps| ==> PlanAt(s, ps[i])
  }

  /** The predicate lies on none of the replaced tokens. */
  predicate Clear(a: Found, ps: seq<TableRewritePlan>) {
    forall i :: 0 <= i < |ps| ==> a.end <= ps[i].tokenStart || a.start >= ps[i].tokenEnd
  }

  /** A position up to `limit` is kept, and one behind it stays behind it. */
  predicate KeptUpTo(n: nat, n': nat, limit: nat) {
    if n <= limit then n' == n else n' > limit
  }

  /**
   What replacing the tokens makes of `a`: the same predicate if it is clear of them, and the same place
   if it ends before them.
   */
  predicate Transferred(a: Found, b: Found, ps: seq<TableRewritePlan>, limit: nat) {
    && KeptUpTo(a.start, b.start, limit) && KeptUpTo(a.end, b.end, limit)
    && (Clear(a, ps) ==> b.parsed == a.parsed)
    && (a.end <= limit ==> b == a)
  }

  ghost predicate AllTransferred(a: seq<Found>, b: seq<Found>, ps: seq<TableRewritePlan>, limit: nat) {
    |a| == |b| && forall i :: 0 <= i < |a| ==> Transferred(a[i], b[i], ps, limit)
  }

  function Limit(s: string, ps: seq<TableRewritePlan>): nat {
    if ps == [] then |s| else ps[0].tokenStart
  }

  /** Replacing one more token, before those replaced already. */
  lemma TransferStep(a: Found, b: Found, c: Found, p: TableRewritePlan, ps: seq<TableRewritePlan>, limit: nat)
    requires Transferred(a, b, ps, limit) && p.tokenStart < p.tokenEnd <= limit && p.physicalTableName != ""
    requires Moved(b, c, p.tokenStart, p.tokenEnd - p.tokenStart, |p.physicalTableName|) && b.start < b.end
    ensures Transferred(a, c, [p] + ps, p.tokenStart)
  {
    if Clear(a, [p] + ps) {
      assert ([p] + ps)[0] == p;
      assert forall i :: 0 <= i < |ps| ==> ([p] + ps)[i + 1] == ps[i];
    }
  }

  lemma TransferAll(a: seq<Found>, b: seq<Found>, c: seq<Found>, p: TableRewritePlan, ps: seq<TableRewritePlan>,
                    limit: nat)
    requires AllTransferred(a, b, ps, limit) && p.tokenStart < p.tokenEnd <= limit && p.physicalTableName != ""
    requires AllMoved(b, c, p.tokenStart, p.tokenEnd - p.tokenStart, |p.physicalTableName|)
    requires forall i :: 0 <= i < |b| ==> b[i].start < b[i].end
    ensures AllTransferred(a, c, [p] + ps, p.tokenStart)
  {
    hide Transferred, Moved;
    forall i | 0 <= i < |a|
      ensures Transferred(a[i], c[i], [p] + ps, p.tokenStart)
    {
      TransferStep(a[i], b[i], c[i], p, ps, limit);
    }
  }

  lemma NothingReplaced(s: string)
    ensures AllTransferred(FoundPredicates(s, 0), FoundPredicates(s, 0), [], |s|)
  {
    FoundInside(s, 0);
  }

  lemma {:induction false} FoundInside(t: string, off: nat)
    ensures forall i :: 0 <= i < |FoundPredicates(t, off)| ==>
              off <= FoundPredicates(t, off)[i].start < FoundPredicates(t, off)[i].end <= off + |t|
    decreases |t|
  {
    hide MatchPredicate;
    if t != "" {
      match MatchPredicate(t) {
        case None => FoundInside(t[1..], off + 1);
        case Some(m) => FoundInside(t[m.1..], off + m.1);
      }
    }
  }

  /** Two tokens never touch: a blank is before the second. */
  lemma PlansApart(s: string, p: TableRewritePlan, q: TableRewritePlan)
    requires PlanAt(s, p) && PlanAt(s, q) && p.tokenEnd <= q.tokenStart
    ensures p.tokenEnd < q.tokenStart
  {
    var name := s[p.tokenStart..p.tokenEnd];
    assert IsWord(name[|name| - 1]) && name[|name| - 1] == s[p.tokenEnd - 1];
  }

  /** What follows a token is still no part of a name when the tokens behind it are replaced. */
  lemma BehindToken(s: string, p: TableRewritePlan, ps: seq<TableRewritePlan>)
    requires PlanAt(s, p) && PlansAt(s, ps) && Separate(ps, p.tokenEnd, |s|)
    ensures AtBoundary(Substitute(s, ps, p.tokenEnd))
  {
    if ps != [] {
      SeparateBounds(ps, p.tokenEnd, |s|);
      PlansApart(s, p, ps[0]);
      hide PlanAt, IsIdent;
      assert Substitute(s, ps, p.tokenEnd)[0] == s[p.tokenEnd] == s[p.tokenEnd..][0];
    }
  }

  lemma {:induction false} PredicatesTransferred(s: string, ps: seq<TableRewritePlan>)
    requires PlansAt(s, ps) && Separate(ps, 0, |s|)
    ensures AllTransferred(FoundPredicates(s, 0), FoundPredicates(Substitute(s, ps, 0), 0), ps, Limit(s, ps))
    decreases |ps|
  {
    hide FoundPredicates, AllTransferred;
    if ps == [] {
      assert s[0..] == s;
      NothingReplaced(s);
    } else {
      var p, rest := ps[0], ps[1..];
      SeparateBounds(ps, 0, |s|);
      SubstituteFrom(s, rest, 0, p.tokenEnd);
      assert forall i :: 0 <= i < |rest| ==> rest[i] == ps[i + 1];
      PredicatesTransferred(s, rest);
      OneMore(s, p, rest);
      assert ps == [p] + rest;
    }
  }

  lemma OneMore(s: string, p: TableRewritePlan, rest: seq<TableRewritePlan>)
    requires PlanAt(s, p) && PlansAt(s, rest) && Separate(rest, p.tokenEnd, |s|) && Separate(rest, 0, |s|)
    requires Separate([p] + rest, 0, |s|)
    requires Substitute(s, rest, 0) == s[0..p.tokenEnd] + Substitute(s, rest, p.tokenEnd)
    requires AllTransferred(FoundPredicates(s, 0), FoundPredicates(Substitute(s, rest, 0), 0), rest, Limit(s, rest))
    ensures AllTransferred(FoundPredicates(s, 0), FoundPredicates(Substitute(s, [p] + rest, 0), 0), [p] +
          rest, p.tokenStart)
  {
    var h, x, y, tail := s[..p.tokenStart], s[p.tokenStart..p.tokenEnd], p.physicalTableName,
        Substitute(s, rest, p.tokenEnd);
    BehindToken(s, p, rest);
    SubstituteCons(s, p, rest);
    SeparateBounds(rest, p.tokenEnd, |s|);
    NotEmpty(y);
    TokenCut(s, p, tail);
    hide FoundPredicates, AllTransferred, AllMoved, IsIdent, AtBoundary, Substitute, Separate, PlanAt, PlansAt, Before;
    MovedAcross(h, x, y, tail, 0);
    FoundInside(h + x + tail, 0);
    TransferAll(FoundPredicates(s, 0), FoundPredicates(h + x + tail, 0), FoundPredicates(h + y + tail, 0), p, rest,
        Limit(s, rest));
  }

  lemma TokenCut(s: string, p: TableRewritePlan, tail: string)
    requires PlanAt(s, p)
    ensures s[0..p.tokenEnd] + tail == s[..p.tokenStart] + s[p.tokenStart..p.tokenEnd] + tail
    ensures Before(s[..p.tokenStart]) && IsIdent(s[p.tokenStart..p.tokenEnd]) && IsIdent(p.physicalTableName)
    ensures |s[..p.tokenStart]| == p.tokenStart < p.tokenEnd <= |s|
  {
    hide IsIdent;
  }

  lemma NotEmpty(x: string)
    requires IsIdent(x)
    ensures x != ""
  {
  }

  lemma SubstituteCons(s: string, p: TableRewritePlan, rest: seq<TableRewritePlan>)
    requires PlanAt(s, p) && Separate(rest, p.tokenEnd, |s|) && Separate([p] + rest, 0, |s|)
    ensures Substitute(s, [p] + rest, 0) == s[..p.tokenStart] + p.physicalTableName + Substitute(s, rest, p.tokenEnd)
  {
    assert ([p] + rest)[1..] == rest && s[0..p.tokenStart] == s[..p.tokenStart];
  }

  // ------------------------------------------------------------ the tokens of a statement

  /** A table token is a whole name behind a blank. */
  predicate TokenAt(s: string, t: ParsedTable) {
    && 0 < t.tokenStart < t.tokenEnd <= |s| && IsSpace(s[t.tokenStart - 1])
    && IsIdent(s[t.tokenStart..t.tokenEnd]) && AtBoundary(s[t.tokenEnd..])
  }

  lemma MatchToken(s: string, prevWord: bool, off: nat, m: TableMatch)
    requires off <= |s| && MatchTable(prevWord, s[off..]) == Some(m)
    ensures TokenAt(s, ParsedTable(s[off..][m.nameStart..m.nameEnd], m.alias, off + m.nameStart, off + m.nameEnd))
  {
    TokenShape(prevWord, s[off..], m);
    hide MatchTable, AtBoundary, IsSpace, IsIdent, TokenAt;
    TokenMoved(s, off, ParsedTable(s[off..][m.nameStart..m.nameEnd], m.alias, off + m.nameStart, off + m.nameEnd),
        m.nameStart, m.nameEnd);
  }

  lemma TokenMoved(s: string, off: nat, t: ParsedTable, from: nat, to: nat)
    requires off <= |s| && 0 < from < to <= |s[off..]| && t.tokenStart == off + from && t.tokenEnd == off + to
    requires IsSpace(s[off..][from - 1]) && AtBoundary(s[off..][to..]) && IsIdent(s[off..][from..to])
    ensures TokenAt(s, t)
  {
    hide AtBoundary, IsSpace, IsIdent;
    SpanOf(s, off, from, to);
  }

  lemma TokenShape(prevWord: bool, t: string, m: TableMatch)
    requires MatchTable(prevWord, t) == Some(m)
    ensures 0 < m.nameStart < m.nameEnd <= |t| && IsSpace(t[m.nameStart - 1])
    ensures AtBoundary(t[m.nameEnd..]) && IsIdent(t[m.nameStart..m.nameEnd])
  {
    hide MatchTable, MatchAlias, SpacedIdent, AtBoundary, Run, IsWord, IsSpace, TableKeyword, HasKeyword, IsIdent;
    MatchShape(prevWord, t, m);
  }

  lemma SpanOf(s: string, off: nat, from: nat, to: nat)
    requires off <= |s| && 0 < from <= to <= |s[off..]|
    ensures s[off..][from..to] == s[off + from..off + to] && s[off..][to..] == s[off + to..]
    ensures s[off..][from - 1] == s[off + from - 1]
  {
  }

  lemma {:induction false} ScanTokens(s: string, prevWord: bool, skip: nat, off: nat)
    requires off <= |s|
    ensures forall t :: t in ScanTables(prevWord, s[off..], skip, off) ==> TokenAt(s, t)
    decreases |s| - off
  {
    hide MatchTable, IsIdent, TokenAt;
    var t := s[off..];
    if t != "" {
      assert t[1..] == s[off + 1..];
      if skip > 0 {
        ScanTokens(s, IsWord(t[0]), skip - 1, off + 1);
      } else {
        match MatchTable(prevWord, t) {
          case None => ScanTokens(s, IsWord(t[0]), 0, off + 1);
          case Some(m) =>
            assert t[m.nameEnd..] == s[off + m.nameEnd..];
            MatchToken(s, prevWord, off, m);
            ScanTokens(s, true, m.end - m.nameEnd, off + m.nameEnd);
        }
      }
    }
  }

  lemma {:induction false} PlansOfTokens(s: string, ts: seq<ParsedTable>, names: seq<string>,
                                         plans: seq<TableRewritePlan>)
    requires PlansFor(ts, names, plans) && AllIdents(names) && forall i :: 0 <= i < |ts| ==> TokenAt(s, ts[i])
    ensures PlansAt(s, plans)
    decreases |ts|
  {
    hide IsIdent, AtBoundary;
    if ts != [] {
      if names[0] == ts[0].tableName && PlansFor(ts[1..], names[1..], plans) {
        PlansOfTokens(s, ts[1..], names[1..], plans);
      } else {
        PlansOfTokens(s, ts[1..], names[1..], plans[1..]);
        assert PlanAt(s, plans[0]);
        assert forall i :: 0 < i < |plans| ==> plans[i] == plans[1..][i - 1];
      }
    }
  }

  /**
   The predicates of the rewritten statement: as many as before, in order, and every one that lies on
   no replaced token is the same, qualifier, column and value. (Only one whose qualifier or column is a
   replaced token, or whose quoted value holds one, can differ.)
   */
  lemma PredicatesAfterRewrite(sql: string, names: seq<string>, plans: seq<TableRewritePlan>)
    requires PlansFor(ParseSpec(sql).tables, names, plans) && AllIdents(names)
    ensures var found := FoundPredicates(sql, 0);
            var before, after := ParseSpec(sql).predicates, ParseSpec(RewriteSpec(sql, plans)).predicates;
            && |found| == |before| == |after|
            && forall i :: 0 <= i < |before| ==>
                 && before[i] == found[i].parsed
                 && (Clear(found[i], plans) ==> after[i] == before[i])
  {
    hide FoundPredicates, ScanPredicates, PlansFor, IsIdent, TokenAt, PlanAt, ScanTables, Substitute, Separate, Clear;
    var ts := ParseSpec(sql).tables;
    assert sql[0..] == sql && ts == ScanTables(false, sql, 0, 0);
    ScanTokens(sql, false, 0, 0);
    PlansOfTokens(sql, ts, names, plans);
    PlansSubstitute(sql, false, 0, 0, names, plans);
    RewriteIsSubstitution(sql, plans, plans);
    PredicatesTransferred(sql, plans);
    FoundAreScanned(sql, 0);
    FoundAreScanned(Substitute(sql, plans, 0), 0);
    PredicatesOfParse(sql);
    PredicatesOfParse(Substitute(sql, plans, 0));
  }

  lemma PredicatesOfParse(sql: string)
    ensures ParseSpec(sql).predicates == ScanPredicates(sql)
  {
    hide ScanPredicates, ScanTables, FindLimit, IsMultiStatement, FirstToken;
  }
}
