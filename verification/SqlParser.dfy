/**
 The regular-expression SQL reader: tables after FROM/JOIN with their spans, equality
 predicates, the LIMIT clause, and the statement shape.

 Each pattern is written as a deterministic matcher on the text that starts at the position
 tried; `prevWord` says whether the character before that position is a word character, which
 is all the patterns' leading `\b` looks at.
 */
module SqlParser {
  import opened Wrappers
  import opened Text

  datatype ParsedTable = ParsedTable(tableName: string, alias: Option<string>, tokenStart: nat, tokenEnd: nat)

  datatype ParsedPredicate = ParsedPredicate(qualifier: Option<string>, column: string, value: string)

  datatype ParsedSql = ParsedSql(
    originalSql: string,
    sqlType: string,
    tables: seq<ParsedTable>,
    predicates: seq<ParsedPredicate>,
    hasLimit: bool,
    limitValue: Option<nat>,
    isMultiStatement: bool)

  predicate PrevWord(s: string, pos: nat)
    requires pos <= |s|
  {
    pos > 0 && IsWord(s[pos - 1])
  }

  // ------------------------------------------------------------ TABLE_PATTERN

  /** A match of the table pattern: the name token, the alias token if any, and where it ends. */
  datatype TableMatch = TableMatch(nameStart: nat, nameEnd: nat, alias: Option<string>, end: nat)

  datatype AliasMatch = AliasMatch(start: nat, end: nat)

  /** Number of blanks before an identifier in `\s+IDENT` at the front of `t`; 0 when there is no match. */
  function SpacedIdent(t: string): (w: nat)
    ensures w <= |t|
    ensures w > 0 ==> w < |t| && IsIdentStart(t[w])
    ensures forall i :: 0 <= i < w ==> IsSpace(t[i])
  {
    var w := Run(Space, t);
    if IdentAt(t[w..]) then w else 0
  }

  /** `(?:as\s+)?IDENT`; `as` is itself the name when no name follows it. */
  function AliasName(t: string): (a: Option<AliasMatch>)
    ensures a.Some? ==> a.value.start < a.value.end <= |t|
  {
    if HasKeyword(t, "as") && SpacedIdent(t[2..]) > 0 then
      var start := 2 + SpacedIdent(t[2..]);
      Some(AliasMatch(start, start + Run(Word, t[start..])))
    else if IdentAt(t) then Some(AliasMatch(0, Run(Word, t)))
    else None
  }

  /** The optional `\s+(?:as\s+)?IDENT` part. */
  function MatchAlias(t: string): (a: Option<AliasMatch>)
    ensures a.Some? ==> 0 < a.value.start < a.value.end <= |t|
  {
    var w := Run(Space, t);
    if w == 0 then None
    else
      match AliasName(t[w..])
      case None => None
      case Some(a) => Some(AliasMatch(w + a.start, w + a.end))
  }

  predicate TableKeyword(t: string) {
    HasKeyword(t, "from") || HasKeyword(t, "join")
  }

  function MatchTable(prevWord: bool, t: string): (m: Option<TableMatch>)
    ensures m.Some? ==> 5 <= m.value.nameStart < m.value.nameEnd <= m.value.end <= |t|
    ensures m.Some? ==> IsIdent(t[m.value.nameStart..m.value.nameEnd])
  {
    if prevWord || !TableKeyword(t) || SpacedIdent(t[4..]) == 0 then None
    else
      var nameStart := 4 + SpacedIdent(t[4..]);
      var nameEnd := nameStart + Run(Word, t[nameStart..]);
      assert t[nameStart..nameEnd] == t[nameStart..][..nameEnd - nameStart];
      match MatchAlias(t[nameEnd..])
      case None => Some(TableMatch(nameStart, nameEnd, None, nameEnd))
      case Some(a) =>
        Some(TableMatch(nameStart, nameEnd, Some(t[nameEnd..][a.start..a.end]), nameEnd + a.end))
  }

  /**
   All table matches in `t`, leftmost first and without overlap. The first `skip` characters
   belong to an earlier match and are passed over; `off` is the position of `t` in the statement.
   */
  function ScanTables(prevWord: bool, t: string, skip: nat, off: nat): seq<ParsedTable>
    decreases |t|
  {
    if t == "" then []
    else if skip > 0 then ScanTables(IsWord(t[0]), t[1..], skip - 1, off + 1)
    else
      match MatchTable(prevWord, t)
      case None => ScanTables(IsWord(t[0]), t[1..], 0, off + 1)
      case Some(m) =>
        [ParsedTable(t[m.nameStart..m.nameEnd], m.alias, off + m.nameStart, off + m.nameEnd)]
        + ScanTables(true, t[m.nameEnd..], m.end - m.nameEnd, off + m.nameEnd)
  }

  // ------------------------------------------------------------ PREDICATE_PATTERN

  function IndexOf(c: char, t: string): (n: nat)
    ensures n <= |t|
    ensures n < |t| ==> t[n] == c
    ensures forall i :: 0 <= i < n ==> t[i] != c
  {
    if t == "" || t[0] == c then 0 else 1 + IndexOf(c, t[1..])
  }

  /** Length of the literal at the front of `t`: a quoted string or an integer; 0 when there is none. */
  function MatchLiteral(t: string): (n: nat)
    ensures n <= |t|
  {
    if t == "" then 0
    else if t[0] == '\'' || t[0] == '"' then
      var close := IndexOf(t[0], t[1..]);
      if close < |t| - 1 then close + 2 else 0
    else if t[0] == '-' then
      var d := Run(Digit, t[1..]);
      if d > 0 then d + 1 else 0
    else Run(Digit, t)
  }

  function NormalizeValue(raw: string): string {
    if |raw| >= 2 && (raw[0] == '\'' || raw[0] == '"') && (raw[|raw| - 1] == '\'' || raw[|raw| - 1] == '"')
    then raw[1..|raw| - 1]
    else raw
  }

  /** `\s*=\s*value`: the raw value and the length used. */
  function MatchEquals(t: string): (r: Option<(string, nat)>)
    ensures r.Some? ==> 0 < r.value.1 <= |t|
  {
    var w := Run(Space, t);
    if w == |t| || t[w] != '=' then None
    else
      var start := w + 1 + Run(Space, t[w + 1..]);
      var n := MatchLiteral(t[start..]);
      if n == 0 then None else Some((t[start..start + n], start + n))
  }

  /** What is read behind the sign, or nothing without one. */
  lemma EqualsRead(u: string, w: nat, rest: string, gap: nat, n: nat)
    requires w == Run(Space, u) < |u| && u[w] == '=' && rest == u[w + 1..]
    requires gap == Run(Space, rest) && n == MatchLiteral(rest[gap..])
    ensures MatchEquals(u)
         == if n == 0 then None else Some((u[w + 1 + gap..w + 1 + gap + n], w + 1 + gap + n))
  {
    hide Run, MatchLiteral;
    assert u[w + 1 + gap..] == rest[gap..];
  }

  lemma NoEquals(u: string)
    requires Run(Space, u) == |u| || u[Run(Space, u)] != '='
    ensures MatchEquals(u) == None
  {
  }

  /** `column\s*=\s*value`: the column, the raw value and the length used. */
  function MatchColumn(t: string): (r: Option<(string, string, nat)>)
    ensures r.Some? ==> 0 < r.value.2 <= |t|
  {
    if !IdentAt(t) then None
    else
      var n := Run(Word, t);
      match MatchEquals(t[n..])
      case None => None
      case Some(v) => Some((t[..n], v.0, n + v.1))
  }

  /** A quoted text without its quote inside, or digits behind a minus sign or none. */
  predicate IsLiteral(raw: string) {
    || (|raw| >= 2 && (raw[0] == '\'' || raw[0] == '"') && raw[|raw| - 1] == raw[0]
        && forall i :: 0 < i < |raw| - 1 ==> raw[i] != raw[0])
    || IsDigits(raw)
    || (raw != "" && raw[0] == '-' && IsDigits(raw[1..]))
  }

  lemma LiteralMatched(t: string)
    ensures MatchLiteral(t) > 0 ==> IsLiteral(t[..MatchLiteral(t)])
  {
    var n := MatchLiteral(t);
    if n > 0 {
      var raw := t[..n];
      if t[0] == '-' {
        assert forall i :: 0 <= i < n - 1 ==> raw[1..][i] == t[1..][i];
        RunIs(Digit, raw[1..], n - 1);
      } else if t[0] != '\'' && t[0] != '"' {
        RunIs(Digit, raw, n);
      } else {
        assert forall i :: 0 < i < n ==> raw[i] == t[1..][i - 1];
      }
    }
  }

  /** The value of a column is read off a literal. */
  lemma ColumnLiteral(t: string)
    ensures var c := MatchColumn(t);
            c.Some? ==> IsLiteral(c.value.1)
  {
    hide Run, MatchLiteral, IsLiteral;
    if MatchColumn(t).Some? {
      var u := t[Run(Word, t)..];
      var w := Run(Space, u);
      var start := w + 1 + Run(Space, u[w + 1..]);
      var n := MatchLiteral(u[start..]);
      LiteralMatched(u[start..]);
      assert u[start..][..n] == u[start..start + n];
    }
  }

  function MatchPredicate(t: string): (r: Option<(ParsedPredicate, nat)>)
    ensures r.Some? ==> 0 < r.value.1 <= |t|
  {
    var n := Run(Word, t);
    if IdentAt(t) && n < |t| && t[n] == '.' then
      match MatchColumn(t[n + 1..])
      case None => None
      case Some(c) => Some((ParsedPredicate(Some(t[..n]), c.0, NormalizeValue(c.1)), n + 1 + c.2))
    else
      match MatchColumn(t)
      case None => None
      case Some(c) => Some((ParsedPredicate(None, c.0, NormalizeValue(c.1)), c.2))
  }

  function ScanPredicates(t: string): seq<ParsedPredicate>
    decreases |t|
  {
    if t == "" then []
    else
      match MatchPredicate(t)
      case None => ScanPredicates(t[1..])
      case Some(m) => [m.0] + ScanPredicates(t[m.1..])
  }

  /** The value of the first predicate on `column`, restricted to `qualifier` when one is given. */
  function PredicateValue(ps: seq<ParsedPredicate>, column: string, qualifier: Option<string>): Option<string> {
    if ps == [] then None
    else if Lower(ps[0].column) != Lower(column) then PredicateValue(ps[1..], column, qualifier)
    else if qualifier.Some? && !QualifiedBy(ps[0], qualifier.value) then PredicateValue(ps[1..], column, qualifier)
    else Some(ps[0].value)
  }

  predicate QualifiedBy(p: ParsedPredicate, qualifier: string) {
    Lower(if p.qualifier.Some? then p.qualifier.value else "") == Lower(qualifier)
  }

  // ------------------------------------------------------------ LIMIT_PATTERN

  datatype LimitMatch = LimitMatch(first: string, second: Option<string>)

  predicate AtBoundary(t: string) {
    t == "" || !IsWord(t[0])
  }

  predicate IsDigits(s: string) {
    s != "" && Run(Digit, s) == |s|
  }

  /** `\s*(\d+)\b`. */
  function BoundedDigits(t: string): (r: Option<string>)
    ensures r.Some? ==> IsDigits(r.value)
  {
    var u := t[Run(Space, t)..];
    var d := Run(Digit, u);
    if d == 0 || !AtBoundary(u[d..]) then None
    else
      RunIs(Digit, u[..d], d);
      Some(u[..d])
  }

  /** `\s*,\s*(\d+)\b`; None means the optional part is dropped. */
  function MatchLimitTail(t: string): (r: Option<string>)
    ensures r.Some? ==> IsDigits(r.value)
  {
    var u := t[Run(Space, t)..];
    if u == "" || u[0] != ',' then None else BoundedDigits(u[1..])
  }

  /** `(\d+)(?:\s*,\s*(\d+))?\b`. */
  function MatchLimitNumbers(t: string): (r: Option<LimitMatch>)
    ensures r.Some? ==> IsDigits(r.value.first) && (r.value.second.Some? ==> IsDigits(r.value.second.value))
  {
    var d := Run(Digit, t);
    if d == 0 then None
    else
      RunIs(Digit, t[..d], d);
      match MatchLimitTail(t[d..])
      case Some(second) => Some(LimitMatch(t[..d], Some(second)))
      case None => if AtBoundary(t[d..]) then Some(LimitMatch(t[..d], None)) else None
  }

  /** `\s+` and the numbers: what follows the keyword. */
  function NumbersAfter(t: string): (r: Option<LimitMatch>)
    ensures r.Some? ==> IsDigits(r.value.first) && (r.value.second.Some? ==> IsDigits(r.value.second.value))
  {
    var w := Run(Space, t);
    if w == 0 then None else MatchLimitNumbers(t[w..])
  }

  function MatchLimit(prevWord: bool, t: string): (r: Option<LimitMatch>)
    ensures r.Some? ==> IsDigits(r.value.first) && (r.value.second.Some? ==> IsDigits(r.value.second.value))
  {
    if prevWord || !HasKeyword(t, "limit") then None else NumbersAfter(t[5..])
  }

  /** The leftmost match, as `re.search` finds it. */
  function FindLimit(prevWord: bool, t: string): Option<LimitMatch>
    decreases |t|
  {
    if t == "" then None
    else if MatchLimit(prevWord, t).Some? then MatchLimit(prevWord, t)
    else FindLimit(IsWord(t[0]), t[1..])
  }

  function LimitValue(m: Option<LimitMatch>): Option<nat> {
    match m
    case None => None
    case Some(l) => DigitsValue(if l.second.Some? then l.second.value else l.first)
  }

  // ------------------------------------------------------------ statement shape

  /** A semicolon remains after trailing semicolons and surrounding blanks are dropped. */
  predicate IsMultiStatement(sql: string) {
    ';' in Strip(TrimRight(Semicolon, Lower(Strip(sql))))
  }

  /** The first word of the trimmed statement in lower case, or "" when it does not start with a letter. */
  function FirstToken(sql: string): string {
    var stripped := Strip(sql);
    Lower(stripped[..Run(Letter, stripped)])
  }

  function ParseSpec(sql: string): ParsedSql {
    var limit := FindLimit(false, sql);
    ParsedSql(
      sql,
      if FirstToken(sql) == "" then "unknown" else FirstToken(sql),
      ScanTables(false, sql, 0, 0),
      ScanPredicates(sql),
      limit.Some?,
      LimitValue(limit),
      IsMultiStatement(sql))
  }

  /** Passing over the rest of an earlier match is the same as resuming at its end. */
  lemma {:induction false} ScanResumes(prevWord: bool, t: string, skip: nat, off: nat)
    requires skip <= |t|
    ensures ScanTables(prevWord, t, skip, off)
         == ScanTables(if skip == 0 then prevWord else IsWord(t[skip - 1]), t[skip..], 0, off + skip)
    decreases |t|
  {
    hide MatchTable;
    if skip == 0 {
      assert t[0..] == t;
    } else {
      ScanResumes(IsWord(t[0]), t[1..], skip - 1, off + 1);
      assert t[1..][skip - 1..] == t[skip..];
    }
  }

  /** The table loop of `SqlParser.parse`: each match is appended and the search resumes at its end. */
  method FindTables(sql: string) returns (tables: seq<ParsedTable>)
    ensures tables == ScanTables(false, sql, 0, 0)
  {
    hide MatchTable, Run, IsIdent, IsWord;
    tables := [];
    var pos := 0;
    assert sql[0..] == sql;
    while pos < |sql|
      invariant pos <= |sql|
      invariant tables + ScanTables(PrevWord(sql, pos), sql[pos..], 0, pos) == ScanTables(false, sql, 0, 0)
    {
      match MatchTable(PrevWord(sql, pos), sql[pos..]) {
        case None =>
          ScanAfterMiss(sql, pos);
          pos := pos + 1;
        case Some(m) =>
          ScanAfterMatch(sql, pos, m);
          var name := sql[pos + m.nameStart..pos + m.nameEnd];
          var table := ParsedTable(name, m.alias, pos + m.nameStart, pos + m.nameEnd);
          tables := tables + [table];
          pos := pos + m.end;
      }
    }
  }

  lemma ScanAfterMiss(sql: string, pos: nat)
    requires pos < |sql|
    requires MatchTable(PrevWord(sql, pos), sql[pos..]).None?
    ensures ScanTables(PrevWord(sql, pos), sql[pos..], 0, pos)
         == ScanTables(PrevWord(sql, pos + 1), sql[pos + 1..], 0, pos + 1)
  {
    hide MatchTable, Run, IsIdent, IsWord;
    assert sql[pos..][1..] == sql[pos + 1..];
  }

  lemma ScanMatched(prevWord: bool, t: string, off: nat, m: TableMatch)
    requires MatchTable(prevWord, t) == Some(m)
    ensures ScanTables(prevWord, t, 0, off)
         == [ParsedTable(t[m.nameStart..m.nameEnd], m.alias, off + m.nameStart, off + m.nameEnd)]
            + ScanTables(IsWord(t[m.end - 1]), t[m.end..], 0, off + m.end)
  {
    hide MatchTable, Run, IsIdent, IsWord;
    ScanSkips(prevWord, t, off, m);
  }

  lemma ScanSkips(prevWord: bool, t: string, off: nat, m: TableMatch)
    requires MatchTable(prevWord, t) == Some(m)
    ensures ScanTables(true, t[m.nameEnd..], m.end - m.nameEnd, off + m.nameEnd)
         == ScanTables(IsWord(t[m.end - 1]), t[m.end..], 0, off + m.end)
  {
    hide MatchTable, Run, IsIdent, IsWord, ScanTables;
    MatchEndsInWord(prevWord, t);
    var skip := m.end - m.nameEnd;
    ScanResumes(true, t[m.nameEnd..], skip, off + m.nameEnd);
    assert t[m.nameEnd..][skip..] == t[m.end..];
    assert skip > 0 ==> t[m.nameEnd..][skip - 1] == t[m.end - 1];
  }

  lemma ScanAfterMatch(sql: string, pos: nat, m: TableMatch)
    requires pos < |sql|
    requires MatchTable(PrevWord(sql, pos), sql[pos..]) == Some(m)
    ensures pos + m.end <= |sql|
    ensures ScanTables(PrevWord(sql, pos), sql[pos..], 0, pos)
         == [ParsedTable(sql[pos + m.nameStart..pos + m.nameEnd], m.alias, pos + m.nameStart, pos + m.nameEnd)]
            + ScanTables(PrevWord(sql, pos + m.end), sql[pos + m.end..], 0, pos + m.end)
  {
    hide MatchTable, Run, IsIdent, IsWord, ScanTables;
    ScanMatched(PrevWord(sql, pos), sql[pos..], pos, m);
    assert sql[pos..][m.end..] == sql[pos + m.end..];
    assert sql[pos..][m.nameStart..m.nameEnd] == sql[pos + m.nameStart..pos + m.nameEnd];
    assert sql[pos..][m.end - 1] == sql[pos + m.end - 1];
  }

  lemma MatchEndsInWord(prevWord: bool, t: string)
    ensures var m := MatchTable(prevWord, t);
            m.Some? ==> IsWord(t[m.value.nameEnd - 1])
  {
    hide MatchTable;
    var m := MatchTable(prevWord, t);
    if m.Some? {
      var name := t[m.value.nameStart..m.value.nameEnd];
      assert IsWord(name[|name| - 1]);
    }
  }

  /** The predicate loop of `SqlParser.parse`. */
  method FindPredicates(sql: string) returns (predicates: seq<ParsedPredicate>)
    ensures predicates == ScanPredicates(sql)
  {
    hide MatchPredicate, ScanPredicates;
    predicates := [];
    var pos := 0;
    assert sql[0..] == sql;
    while pos < |sql|
      invariant pos <= |sql|
      invariant predicates + ScanPredicates(sql[pos..]) == ScanPredicates(sql)
    {
      PredicatesStep(sql[pos..]);
      match MatchPredicate(sql[pos..]) {
        case None =>
          assert sql[pos..][1..] == sql[pos + 1..];
          pos := pos + 1;
        case Some(m) =>
          assert sql[pos..][m.1..] == sql[pos + m.1..];
          predicates := predicates + [m.0];
          pos := pos + m.1;
      }
    }
    assert sql[pos..] == "";
    NoPredicates();
  }

  lemma PredicatesStep(t: string)
    requires t != ""
    ensures ScanPredicates(t) ==
            match MatchPredicate(t)
            case None => ScanPredicates(t[1..])
            case Some(m) => [m.0] + ScanPredicates(t[m.1..])
  {
    hide MatchPredicate;
  }

  lemma NoPredicates()
    ensures ScanPredicates("") == []
  {
  }

  /** `SqlParser.parse`. */
  method Parse(sql: string) returns (p: ParsedSql)
    ensures p == ParseSpec(sql)
  {
    var sqlType := FirstToken(sql);
    var tables := FindTables(sql);
    var predicates := FindPredicates(sql);
    var limit := FindLimit(false, sql);
    p := ParsedSql(
      sql, if sqlType == "" then "unknown" else sqlType, tables, predicates,
      limit.Some?, LimitValue(limit), IsMultiStatement(sql));
  }

  // ------------------------------------------------------------ properties of the parse

  /** A table's span lies inside `s`, is not empty, and slices to an identifier, the table name. */
  predicate NamesItsSpan(s: string, table: ParsedTable) {
    && table.tokenStart < table.tokenEnd <= |s|
    && s[table.tokenStart..table.tokenEnd] == table.tableName
    && IsIdent(table.tableName)
  }

  lemma MatchNamesSpan(s: string, prevWord: bool, off: nat, m: TableMatch)
    requires off <= |s| && MatchTable(prevWord, s[off..]) == Some(m)
    ensures NamesItsSpan(s, ParsedTable(s[off..][m.nameStart..m.nameEnd], m.alias, off + m.nameStart, off + m.nameEnd))
  {
    hide MatchTable, IsIdent;
    assert s[off..][m.nameStart..m.nameEnd] == s[off + m.nameStart..off + m.nameEnd];
  }

  lemma {:induction false} ScanNamesSpans(s: string, prevWord: bool, skip: nat, off: nat)
    requires off <= |s|
    ensures forall table :: table in ScanTables(prevWord, s[off..], skip, off) ==> NamesItsSpan(s, table)
    decreases |s| - off
  {
    hide MatchTable, IsIdent, NamesItsSpan;
    var t := s[off..];
    if t != "" {
      assert t[1..] == s[off + 1..];
      if skip > 0 {
        ScanNamesSpans(s, IsWord(t[0]), skip - 1, off + 1);
      } else {
        match MatchTable(prevWord, t) {
          case None => ScanNamesSpans(s, IsWord(t[0]), 0, off + 1);
          case Some(m) =>
            assert t[m.nameEnd..] == s[off + m.nameEnd..];
            MatchNamesSpan(s, prevWord, off, m);
            ScanNamesSpans(s, true, m.end - m.nameEnd, off + m.nameEnd);
        }
      }
    }
  }

  /** Every name token starts at least five characters (keyword and blank) after `lo`, and they are disjoint. */
  predicate Ascending(ts: seq<ParsedTable>, lo: nat)
    decreases |ts|
  {
    ts == [] || (lo + 5 <= ts[0].tokenStart < ts[0].tokenEnd && Ascending(ts[1..], ts[0].tokenEnd))
  }

  lemma {:induction false} ScanAscends(prevWord: bool, t: string, skip: nat, off: nat)
    ensures Ascending(ScanTables(prevWord, t, skip, off), off)
    decreases |t|
  {
    hide MatchTable, IsIdent;
    if t != "" {
      if skip > 0 {
        ScanAscends(IsWord(t[0]), t[1..], skip - 1, off + 1);
      } else {
        match MatchTable(prevWord, t) {
          case None => ScanAscends(IsWord(t[0]), t[1..], 0, off + 1);
          case Some(m) => ScanAscends(true, t[m.nameEnd..], m.end - m.nameEnd, off + m.nameEnd);
        }
      }
    }
  }

  lemma {:induction false} AscendingApart(ts: seq<ParsedTable>, lo: nat)
    requires Ascending(ts, lo)
    ensures forall i :: 0 <= i < |ts| ==> lo < ts[i].tokenStart
    ensures forall i, j :: 0 <= i < j < |ts| ==> ts[i].tokenEnd < ts[j].tokenStart
  {
    if ts != [] {
      AscendingApart(ts[1..], ts[0].tokenEnd);
      assert forall i :: 0 < i < |ts| ==> ts[i] == ts[1..][i - 1];
    }
  }

  /** The token spans of a parse: in bounds, slicing to the table name, disjoint and increasing. */
  lemma ParseSpans(sql: string)
    ensures var ts := ParseSpec(sql).tables;
            && (forall i :: 0 <= i < |ts| ==> NamesItsSpan(sql, ts[i]))
            && (forall i, j :: 0 <= i < j < |ts| ==> ts[i].tokenEnd < ts[j].tokenStart)
  {
    assert sql[0..] == sql;
    ScanNamesSpans(sql, false, 0, 0);
    ScanAscends(false, sql, 0, 0);
    AscendingApart(ParseSpec(sql).tables, 0);
  }

  lemma {:induction false} DigitsValueTotal(s: string)
    requires IsDigits(s)
    ensures DigitsValue(s).Some?
  {
    assert forall i :: 0 <= i < |s| ==> In(s[i], Digit);
    if |s| > 1 {
      var front := s[..|s| - 1];
      assert IsDigit(front[|front| - 1]);
      RunIs(Digit, front, |front|);
      DigitsValueTotal(front);
    }
  }

  lemma {:induction false} FindLimitDigits(prevWord: bool, t: string)
    ensures var m := FindLimit(prevWord, t);
            m.Some? ==> IsDigits(m.value.first) && (m.value.second.Some? ==> IsDigits(m.value.second.value))
    decreases |t|
  {
    hide MatchLimit, IsDigits;
    if t != "" && MatchLimit(prevWord, t).None? {
      FindLimitDigits(IsWord(t[0]), t[1..]);
    }
  }

  /** A statement has a limit exactly when it has a limit value. */
  lemma LimitValueDefined(sql: string)
    ensures ParseSpec(sql).hasLimit <==> ParseSpec(sql).limitValue.Some?
  {
    hide IsMultiStatement, FirstToken, IsDigits;
    FindLimitDigits(false, sql);
    var m := FindLimit(false, sql);
    if m.Some? {
      DigitsValueTotal(if m.value.second.Some? then m.value.second.value else m.value.first);
    }
  }

  /** The predicate is on the column, whatever the case of its letters. */
  predicate On(p: ParsedPredicate, column: string) {
    SameIgnoringCase(p.column, column)
  }

  /** The predicate is qualified by the alias, whatever the case; the empty alias stands for no qualifier. */
  predicate Under(p: ParsedPredicate, alias: string) {
    match p.qualifier case None => alias == "" case Some(q) => SameIgnoringCase(q, alias)
  }

  lemma SameQualifier(p: ParsedPredicate, column: string, alias: string)
    ensures QualifiedBy(p, alias) <==> Under(p, alias)
    ensures Lower(p.column) == Lower(column) <==> On(p, column)
  {
    LowerSame(p.column, column);
    LowerSame(p.qualifier.GetOr(""), alias);
  }

  /** The predicates on `column` that `alias` qualifies, in statement order. */
  function OfAlias(ps: seq<ParsedPredicate>, column: string, alias: string): seq<ParsedPredicate> {
    if ps == [] then []
    else (if On(ps[0], column) && Under(ps[0], alias) then [ps[0]] else []) + OfAlias(ps[1..], column, alias)
  }

  lemma {:induction false} PredicateValueIsFirst(ps: seq<ParsedPredicate>, column: string, alias: string)
    ensures var own := OfAlias(ps, column, alias);
            PredicateValue(ps, column, Some(alias)) == if own == [] then None else Some(own[0].value)
  {
    hide Lower, QualifiedBy, On, Under;
    if ps != [] {
      SameQualifier(ps[0], column, alias);
      PredicateValueIsFirst(ps[1..], column, alias);
    }
  }
}
