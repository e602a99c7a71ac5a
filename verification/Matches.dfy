/** The parse of a statement, in terms of all matches of the declared patterns, leftmost first and without overlap. */
module Matches {
  import opened Wrappers
  import opened Text
  import opened TextMeaning
  import opened SqlParser
  import opened Regex
  import opened Patterns

  /** Where a match begins, and how it proceeded from there. */
  datatype Match = Match(start: nat, progress: Progress)

  /** `finditer` from `pos` on: each search resumes where the match ended (no pattern matches the empty text). */
  function FindIter(r: Rx, s: string, pos: nat): seq<Match>
    requires pos <= |s|
    decreases |s| - pos
  {
    if pos == |s| then []
    else
      match FirstWay(r, PrevWord(s, pos), s[pos..])
      case None => FindIter(r, s, pos + 1)
      case Some(p) =>
        [Match(pos, p)] + FindIter(r, s, if p.at == 0 || pos + p.at > |s| then pos + 1 else pos + p.at)
  }

  /** `match.group(n)`. */
  function GroupText(s: string, m: Match, group: nat): Option<string>
    requires m.start <= |s|
  {
    Group(s[m.start..], m.progress, group)
  }

  function TableOf(s: string, m: Match): ParsedTable {
    if m.start <= |s| && 2 in m.progress.groups && GroupText(s, m, 2).Some? then
      ParsedTable(GroupText(s, m, 2).value, GroupText(s, m, 3), m.start + m.progress.groups[2].0, m.start +
          m.progress.groups[2].1)
    else ParsedTable("", None, 0, 0)
  }

  function TablesOf(s: string, ms: seq<Match>): seq<ParsedTable> {
    if ms == [] then [] else [TableOf(s, ms[0])] + TablesOf(s, ms[1..])
  }

  /** What a literal stands for: the text between its quotes, or its digits as they are. */
  function Meant(literal: string): string {
    if |literal| >= 2 && literal[0] in "'\"" then literal[1..|literal| - 1] else literal
  }

  lemma LiteralMeans(literal: string)
    requires IsLiteral(literal)
    ensures NormalizeValue(literal) == Meant(literal)
  {
    if IsDigits(literal) {
      assert In(literal[0], Digit);
    }
  }

  function PredicateOf(s: string, m: Match): ParsedPredicate {
    if m.start <= |s| && GroupText(s, m, 2).Some? && GroupText(s, m, 3).Some? then
      ParsedPredicate(GroupText(s, m, 1), GroupText(s, m, 2).value, Meant(GroupText(s, m, 3).value))
    else ParsedPredicate(None, "", "")
  }

  function PredicatesOf(s: string, ms: seq<Match>): seq<ParsedPredicate> {
    if ms == [] then [] else [PredicateOf(s, ms[0])] + PredicatesOf(s, ms[1..])
  }

  lemma {:induction false} TablesMatched(s: string, pos: nat)
    requires pos <= |s|
    ensures ScanTables(PrevWord(s, pos), s[pos..], 0, pos) == TablesOf(s, FindIter(TABLE_PATTERN, s, pos))
    decreases |s| - pos
  {
    hide FirstWay, MatchTable, IsIdent, PrevWord, TABLE_PATTERN, Slice;
    if pos < |s| {
      TablePatternExact(PrevWord(s, pos), s[pos..]);
      match MatchTable(PrevWord(s, pos), s[pos..]) {
        case None =>
          ScanAfterMiss(s, pos);
          TablesMatched(s, pos + 1);
        case Some(m) =>
          ScanAfterMatch(s, pos, m);
          TablesMatched(s, pos + m.end);
          ReadAs(s, pos, m);
      }
    }
  }

  lemma ReadAs(s: string, pos: nat, m: TableMatch)
    requires pos < |s|
    requires MatchTable(PrevWord(s, pos), s[pos..]) == Some(m)
    requires ReadTable(s[pos..], FirstWay(TABLE_PATTERN, PrevWord(s, pos), s[pos..])) == Some(m)
    ensures var p := FirstWay(TABLE_PATTERN, PrevWord(s, pos), s[pos..]).value;
            && p.at == m.end
            && TableOf(s, Match(pos, p)) ==
                  ParsedTable(s[pos + m.nameStart..pos + m.nameEnd], m.alias, pos + m.nameStart, pos + m.nameEnd)
  {
    hide FirstWay, MatchTable, IsIdent, PrevWord, TABLE_PATTERN;
    assert s[pos..][m.nameStart..m.nameEnd] == s[pos + m.nameStart..pos + m.nameEnd];
  }

  lemma {:induction false} PredicatesMatched(s: string, pos: nat)
    requires pos <= |s|
    ensures ScanPredicates(s[pos..]) == PredicatesOf(s, FindIter(PREDICATE_PATTERN, s, pos))
    decreases |s| - pos
  {
    hide FirstWay, MatchPredicate, PrevWord, PREDICATE_PATTERN, Slice, NormalizeValue, Meant, IsLiteral;
    if pos < |s| {
      var t := s[pos..];
      PredicatePatternExact(PrevWord(s, pos), t);
      match MatchPredicate(t) {
        case None =>
          assert t[1..] == s[pos + 1..];
          PredicatesMatched(s, pos + 1);
        case Some(m) =>
          assert t[m.1..] == s[pos + m.1..];
          LiteralMeans(Group(t, FirstWay(PREDICATE_PATTERN, PrevWord(s, pos), t).value, 3).value);
          PredicatesMatched(s, pos + m.1);
      }
    }
  }

  /** `search`: the first match, if there is one. */
  function Search(r: Rx, s: string): Option<Match> {
    var ms := FindIter(r, s, 0);
    if ms == [] then None else Some(ms[0])
  }

  function LimitOf(s: string, m: Option<Match>): Option<LimitMatch> {
    match m
    case None => None
    case Some(m) => if m.start <= |s| then ReadLimit(s[m.start..], Some(m.progress)) else None
  }

  function FirstMatch(ms: seq<Match>): Option<Match> {
    if ms == [] then None else Some(ms[0])
  }

  lemma {:induction false} LimitMatched(s: string, pos: nat)
    requires pos <= |s|
    ensures FindLimit(PrevWord(s, pos), s[pos..]) == LimitOf(s, FirstMatch(FindIter(LIMIT_PATTERN, s, pos)))
    decreases |s| - pos
  {
    hide FirstWay, MatchLimit, LIMIT_PATTERN, Slice;
    if pos < |s| {
      var t := s[pos..];
      LimitPatternExact(PrevWord(s, pos), t);
      if MatchLimit(PrevWord(s, pos), t).None? {
        assert t[1..] == s[pos + 1..];
        LimitMatched(s, pos + 1);
      }
    }
  }

  /**
   The parse of any statement is what the declared patterns say under backtracking search: its
   tables and predicates are all matches in order, and its limit is what the digits of the first limit
   match write: those of its second number if it has one, else those of its first.
   */
  lemma ParseIsPatternSearch(sql: string)
    ensures ParseSpec(sql).tables == TablesOf(sql, FindIter(TABLE_PATTERN, sql, 0))
    ensures ParseSpec(sql).predicates == PredicatesOf(sql, FindIter(PREDICATE_PATTERN, sql, 0))
    ensures ParseSpec(sql).hasLimit <==> Search(LIMIT_PATTERN, sql).Some?
    ensures match Search(LIMIT_PATTERN, sql)
            case None => ParseSpec(sql).limitValue == None
            case Some(m) =>
              && m.start <= |sql| && GroupText(sql, m, 1).Some?
              && ParseSpec(sql).limitValue == Some(Decimal(GroupText(sql, m, 2).GetOr(GroupText(sql, m, 1).value)))
  {
    hide FindIter, ScanTables, ScanPredicates, FindLimit, TABLE_PATTERN, PREDICATE_PATTERN, LIMIT_PATTERN;
    assert sql[0..] == sql;
    TablesMatched(sql, 0);
    PredicatesMatched(sql, 0);
    LimitMatched(sql, 0);
    SearchReads(sql);
    LimitGroups(sql);
  }

  /** The limit value is what the digits of the second group write, or those of the first if there is no second. */
  lemma LimitGroups(sql: string)
    ensures match Search(LIMIT_PATTERN, sql)
            case None => LimitValue(FindLimit(false, sql)) == None
            case Some(m) =>
              && m.start <= |sql| && GroupText(sql, m, 1).Some?
              && LimitValue(FindLimit(false, sql))
                 == Some(Decimal(GroupText(sql, m, 2).GetOr(GroupText(sql, m, 1).value)))
  {
    hide FindIter, FindLimit, LIMIT_PATTERN, IsDigits, Decimal, Slice;
    assert sql[0..] == sql;
    LimitMatched(sql, 0);
    SearchReads(sql);
    FindLimitDigits(false, sql);
    var l := FindLimit(false, sql);
    if l.Some? {
      DigitsDecimal(l.value.first);
      if l.value.second.Some? {
        DigitsDecimal(l.value.second.value);
      }
    }
  }

  lemma DigitsDecimal(s: string)
    requires IsDigits(s)
    ensures DigitsValue(s) == Some(Decimal(s))
  {
    assert forall i :: 0 <= i < |s| ==> In(s[i], Digit);
    DigitsAreNumeral(s);
    DigitsValueExactly(s);
  }

  /** Every match of the limit pattern can be read. */
  lemma SearchReads(sql: string)
    ensures Search(LIMIT_PATTERN, sql).Some? <==> LimitOf(sql, Search(LIMIT_PATTERN, sql)).Some?
  {
    hide FirstWay, LIMIT_PATTERN;
    LimitReads(sql, 0);
  }

  lemma {:induction false} LimitReads(s: string, pos: nat)
    requires pos <= |s|
    ensures var ms := FindIter(LIMIT_PATTERN, s, pos);
            ms != [] ==> LimitOf(s, Some(ms[0])).Some?
    decreases |s| - pos
  {
    hide FirstWay, MatchLimit, LIMIT_PATTERN, Slice;
    if pos < |s| {
      LimitPatternExact(PrevWord(s, pos), s[pos..]);
      if MatchLimit(PrevWord(s, pos), s[pos..]).None? {
        LimitReads(s, pos + 1);
      }
    }
  }
}
