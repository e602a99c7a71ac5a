/**
 The statement guard, an automaton that decides the multi-statement test in one left-to-right
 pass, and the transfer of every guard verdict to the rewritten statement.
 */
module Precheck {
  import opened Wrappers
  import opened Text
  import opened TextMeaning
  import opened SqlParser
  import opened SqlRewrite
  import opened RewriteTransfer

  datatype PrecheckDecision = PrecheckDecision(allowed: bool, reasonCode: string)

  predicate StartsWith(s: string, w: string) {
    |w| <= |s| && s[..|w|] == w
  }

  const DISALLOWED_SQL_PREFIXES: set<string> :=
    {"update", "delete", "insert", "replace", "drop", "alter", "truncate"}

  /** `BasicSqlGuard.evaluate`. */
  function Evaluate(sql: string): PrecheckDecision {
    var lowered := Lower(Strip(sql));
    if lowered == "" then PrecheckDecision(false, "EMPTY_SQL")
    else if IsMultiStatement(sql) then PrecheckDecision(false, "MULTI_STATEMENT")
    else if StartsWith(lowered, "--") || StartsWith(lowered, "/*") then PrecheckDecision(false, "LEADING_COMMENT")
    else if FirstToken(sql) in DISALLOWED_SQL_PREFIXES then PrecheckDecision(false, "SQL_TYPE_DENIED")
    else if FirstToken(sql) != "select" then PrecheckDecision(false, "UNSUPPORTED_SQL")
    else PrecheckDecision(true, "ALLOW")
  }

  // ------------------------------------------------------------ one statement or several

  /** Where a reader is: before any semicolon, in the closing semicolons, in the blanks after them, or past them. */
  datatype Shape = Body | Semicolons | Blanks | Second

  function Next(st: Shape, c: char): Shape {
    match st
    case Body => if c == ';' then Semicolons else Body
    case Semicolons => if c == ';' then Semicolons else if IsSpace(c) then Blanks else Second
    case Blanks => if IsSpace(c) then Blanks else Second
    case Second => Second
  }

  function Read(st: Shape, t: string): Shape
    decreases |t|
  {
    if t == "" then st else Read(Next(st, t[0]), t[1..])
  }

  lemma {:induction false} ReadConcat(st: Shape, a: string, b: string)
    ensures Read(st, a + b) == Read(Read(st, a), b)
    decreases |a|
  {
    if a == "" {
      assert a + b == b;
    } else {
      assert (a + b)[1..] == a[1..] + b;
      ReadConcat(Next(st, a[0]), a[1..], b);
    }
  }

  lemma {:induction false} ReadSecond(t: string)
    ensures Read(Second, t) == Second
  {
    if t != "" {
      ReadSecond(t[1..]);
    }
  }

  lemma {:induction false} ReadBlanks(t: string)
    ensures TrimRight(Space, t) == "" <==> Read(Blanks, t) != Second
  {
    if t != "" {
      ReadBlanks(t[1..]);
      ReadSecond(t[1..]);
    }
  }

  lemma {:induction false} ReadSemicolons(t: string)
    ensures TrimRight(Semicolon, TrimRight(Space, t)) == "" <==> Read(Semicolons, t) != Second
  {
    if t != "" {
      ReadSemicolons(t[1..]);
      ReadBlanks(t[1..]);
      ReadSecond(t[1..]);
      TrimRightCons(t);
    }
  }

  /** How the two trims act on a text with one more character in front. */
  lemma TrimRightCons(t: string)
    requires t != ""
    ensures var u := TrimRight(Space, t[1..]);
            TrimRight(Semicolon, TrimRight(Space, t)) ==
            if u == "" && IsSpace(t[0]) then ""
            else if TrimRight(Semicolon, u) == "" && t[0] == ';' then ""
            else [t[0]] + TrimRight(Semicolon, u)
  {
    var u := TrimRight(Space, t[1..]);
    if !(u == "" && IsSpace(t[0])) {
      assert ([t[0]] + u)[1..] == u;
    }
  }

  /** A trimmed text with one more character in front. */
  lemma TrimBlanksCons(c: char, v: string)
    ensures TrimRight(Space, [c] + v)
         == if TrimRight(Space, v) == "" && IsSpace(c) then "" else [c] + TrimRight(Space, v)
  {
    assert ([c] + v)[1..] == v;
  }

  lemma {:induction false} ReadBody(t: string)
    ensures ';' in TrimRight(Space, TrimRight(Semicolon, TrimRight(Space, t))) <==> Read(Body, t) == Second
  {
    if t != "" {
      var v := TrimRight(Semicolon, TrimRight(Space, t[1..]));
      assert Read(Body, t) == Read(Next(Body, t[0]), t[1..]);
      ReadBody(t[1..]);
      ReadSemicolons(t[1..]);
      TrimRightCons(t);
      TrimBlanksCons(t[0], v);
      hide Read, TrimRight;
      if t[0] == ';' {
        assert v != "" ==> ([t[0]] + TrimRight(Space, v))[0] == ';';
      }
    }
  }

  lemma {:induction false} LowerTrims(t: string)
    ensures TrimRight(Space, Lower(t)) == Lower(TrimRight(Space, t))
  {
    if t != "" {
      LowerTrims(t[1..]);
      LowerCons(t[0], t[1..]);
      LowerCons(t[0], TrimRight(Space, t[1..]));
      assert [t[0]] + t[1..] == t;
      hide Lower, LowerChar, IsSpace;
      TrimBlanksCons(t[0], t[1..]);
      TrimBlanksCons(LowerChar(t[0]), Lower(t[1..]));
    }
  }

  lemma LowerCons(c: char, t: string)
    ensures Lower([c] + t) == [LowerChar(c)] + Lower(t)
    ensures IsSpace(LowerChar(c)) == IsSpace(c)
  {
  }

  lemma {:induction false} LowerReads(st: Shape, t: string)
    ensures Read(st, Lower(t)) == Read(st, t)
    decreases |t|
  {
    if t != "" {
      assert Lower(t)[1..] == Lower(t[1..]);
      LowerReads(Next(st, t[0]), t[1..]);
    }
  }

  lemma {:induction false} LeadingBlanksRead(t: string)
    ensures Read(Body, TrimLeft(Space, t)) == Read(Body, t)
  {
    if t != "" && IsSpace(t[0]) {
      LeadingBlanksRead(t[1..]);
      assert TrimLeft(Space, t) == TrimLeft(Space, t[1..]);
    }
  }

  /** The trimming test says "several statements" exactly when the automaton ends past a closed statement. */
  lemma MultiStatementIsSecond(sql: string)
    ensures IsMultiStatement(sql) <==> Read(Body, sql) == Second
  {
    hide Run, Read, TrimRight, Lower;
    var v := TrimLeft(Space, sql);
    var x := TrimRight(Semicolon, TrimRight(Space, Lower(v)));
    LowerTrims(v);
    NoLeadingBlank(sql, x);
    ReadBody(Lower(v));
    LowerReads(Body, v);
    LeadingBlanksRead(sql);
  }

  lemma NoLeadingBlank(sql: string, x: string)
    requires x <= Lower(TrimLeft(Space, sql))
    ensures TrimLeft(Space, x) == x
  {
    var v := TrimLeft(Space, sql);
    assert v != "" ==> v[0] == sql[Run(Space, sql)];
    if x != "" {
      assert x[0] == LowerChar(v[0]);
      LowerCons(v[0], "");
    }
    RunIs(Space, x, 0);
  }

  // ------------------------------------------------------------ the guard, exactly

  lemma LetterRunTrimmed(u: string)
    ensures Run(Letter, TrimRight(Space, u)) == Run(Letter, u)
    ensures TrimRight(Space, u)[..Run(Letter, u)] == u[..Run(Letter, u)]
  {
    hide Run, TrimRight;
    var n := Run(Letter, u);
    var r := TrimRight(Space, u);
    assert n > 0 ==> In(u[n - 1], Letter);
    assert n <= |r|;
    assert n < |r| ==> r[n] == u[n];
    RunIs(Letter, r, n);
  }

  /** The first token is read off the untrimmed statement. */
  lemma FirstTokenOf(sql: string)
    ensures var u := TrimLeft(Space, sql);
            FirstToken(sql) == Lower(u[..Run(Letter, u)])
  {
    hide Run, TrimRight, Lower;
    LetterRunTrimmed(TrimLeft(Space, sql));
  }

  /** The guard allows exactly the single statements whose first word is SELECT. */
  lemma GuardExact(sql: string)
    ensures Evaluate(sql).allowed <==> FirstToken(sql) == "select" && Read(Body, sql) != Second
  {
    hide Read, IsMultiStatement, Run, FirstToken;
    MultiStatementIsSecond(sql);
    if FirstToken(sql) == "select" {
      SelectIsNoComment(sql);
    }
  }

  lemma SelectIsNoComment(sql: string)
    requires FirstToken(sql) == "select"
    ensures var lowered := Lower(Strip(sql)); lowered != "" && !StartsWith(lowered, "--") && !StartsWith(lowered, "/*")
  {
    hide Run, TrimLeft, TrimRight;
    var stripped := Strip(sql);
    assert Run(Letter, stripped) == |"select"|;
    assert In(stripped[0], Letter);
    assert Lower(stripped)[0] != '-' && Lower(stripped)[0] != '/';
    assert "--"[0] == '-' && "/*"[0] == '/';
  }

  // ------------------------------------------------------------ the verdict, read off the text

  /** How a statement begins: blanks, its first word, which may be empty, and the rest. */
  predicate Begins(sql: string, blanks: string, word: string, rest: string) {
    && sql == blanks + (word + rest)
    && All(Space, blanks) && All(Letter, word)
    && (rest != "" ==> !IsLetter(rest[0]) && (word == "" ==> !IsSpace(rest[0])))
  }

  /** Every statement begins in some such way. */
  lemma Beginning(sql: string) returns (blanks: string, word: string, rest: string)
    ensures Begins(sql, blanks, word, rest)
  {
    blanks := LeftPart(Space, sql);
    word, rest := FirstWordOf(TrimLeft(Space, sql));
    NoBlankLeft(sql);
    hide TrimLeft;
  }

  lemma FirstWordOf(t: string) returns (word: string, rest: string)
    ensures t == word + rest && All(Letter, word) && (rest != "" ==> !IsLetter(rest[0]))
  {
    word, rest := t[..Run(Letter, t)], t[Run(Letter, t)..];
    assert rest != "" ==> rest[0] == t[|word|] && !In(rest[0], Letter);
  }

  lemma NoBlankLeft(sql: string)
    ensures TrimLeft(Space, sql) != "" ==> !IsSpace(TrimLeft(Space, sql)[0])
  {
    var t := TrimLeft(Space, sql);
    assert t != "" ==> t[0] == sql[Run(Space, sql)] && !In(t[0], Space);
  }

  lemma TrimKeeps(t: string, n: nat)
    requires n <= |t| && (n > 0 ==> !IsSpace(t[n - 1]))
    ensures n <= |TrimRight(Space, t)|
  {
    assert n > 0 ==> !In(t[n - 1], Space);
  }

  lemma StrippedBeginning(sql: string, blanks: string, word: string, rest: string)
    requires Begins(sql, blanks, word, rest)
    ensures TrimLeft(Space, sql) == word + rest
    ensures word <= Strip(sql) <= word + rest
    ensures Strip(sql) == "" <==> word + rest == ""
  {
    var t := word + rest;
    FirstCharacter(sql, blanks, word, rest);
    assert sql[|blanks|..] == t;
    hide TrimRight, Run;
    assert word != "" ==> t[|word| - 1] == word[|word| - 1];
    TrimKeeps(t, |word|);
    assert t[..|word|] == word;
    if t != "" {
      TrimKeeps(t, 1);
    }
  }

  lemma FirstCharacter(sql: string, blanks: string, word: string, rest: string)
    requires Begins(sql, blanks, word, rest)
    ensures Run(Space, sql) == |blanks|
    ensures word + rest != "" ==> !IsSpace((word + rest)[0])
  {
    var t := word + rest;
    if t != "" {
      assert t[0] == if word == "" then rest[0] else word[0];
      assert word != "" ==> In(word[0], Letter);
      assert sql[|blanks|] == t[0];
    }
    assert forall i :: 0 <= i < |blanks| ==> sql[i] == blanks[i];
    RunIs(Space, sql, |blanks|);
  }

  /** The type of a statement is its first word in lower case. */
  lemma TypeIsFirstWord(sql: string, blanks: string, word: string, rest: string)
    requires Begins(sql, blanks, word, rest)
    ensures FirstToken(sql) == Lower(word)
    ensures ParseSpec(sql).sqlType == if word == "" then "unknown" else Lower(word)
  {
    hide ScanTables, ScanPredicates, FindLimit, LimitValue, IsMultiStatement, TrimLeft, TrimRight;
    StrippedBeginning(sql, blanks, word, rest);
    var s := Strip(sql);
    assert s == word + s[|word|..];
    assert |s| > |word| ==> s[|word|] == (word + rest)[|word|] == rest[0];
    assert forall i :: 0 <= i < |word| ==> s[i] == word[i];
    RunIs(Letter, s, |word|);
  }

  /** The guard's verdict and reason: the first that applies. */
  lemma GuardVerdict(sql: string, blanks: string, word: string, rest: string)
    requires Begins(sql, blanks, word, rest)
    ensures Evaluate(sql) ==
            if word + rest == "" then PrecheckDecision(false, "EMPTY_SQL")
            else if Read(Body, sql) == Second then PrecheckDecision(false, "MULTI_STATEMENT")
            else if "--" <= word + rest || "/*" <= word + rest then PrecheckDecision(false, "LEADING_COMMENT")
            else if Lower(word) in ["update", "delete", "insert", "replace", "drop", "alter", "truncate"]
            then PrecheckDecision(false, "SQL_TYPE_DENIED")
            else if Lower(word) == "select" then PrecheckDecision(true, "ALLOW")
            else PrecheckDecision(false, "UNSUPPORTED_SQL")
  {
    hide Read, IsMultiStatement, FirstToken, Lower, ParseSpec;
    MultiStatementIsSecond(sql);
    TypeIsFirstWord(sql, blanks, word, rest);
    CommentKept(sql, blanks, word, rest, "--");
    CommentKept(sql, blanks, word, rest, "/*");
    LowerEmpty(Strip(sql));
    StrippedBeginning(sql, blanks, word, rest);
    hide Strip, StartsWith;
  }

  lemma LowerEmpty(s: string)
    ensures Lower(s) == "" <==> s == ""
  {
    assert |Lower(s)| == |s|;
  }

  /** A comment mark in front survives trimming and lower case, and none appears. */
  lemma CommentKept(sql: string, blanks: string, word: string, rest: string, mark: string)
    requires Begins(sql, blanks, word, rest) && (mark == "--" || mark == "/*")
    ensures StartsWith(Lower(Strip(sql)), mark) <==> mark <= word + rest
  {
    StrippedBeginning(sql, blanks, word, rest);
    hide Strip, Begins;
    MarkTrimmed(word + rest, Strip(sql), mark);
    MarkLowered(Strip(sql), mark);
  }

  lemma MarkTrimmed(t: string, s: string, mark: string)
    requires s == TrimRight(Space, t) && (mark == "--" || mark == "/*")
    ensures mark <= s <==> mark <= t
  {
    if mark <= t {
      assert t[1] == mark[1];
      TrimKeeps(t, 2);
    }
  }

  lemma MarkLowered(s: string, mark: string)
    requires mark == "--" || mark == "/*"
    ensures StartsWith(Lower(s), mark) <==> mark <= s
  {
    var low := Lower(s);
    if |s| >= 2 {
      assert low[..2] == [low[0], low[1]] && s[..2] == [s[0], s[1]];
    }
  }

  // ------------------------------------------------------------ transfer to the rewritten statement

  lemma {:induction false} ReadWord(st: Shape, name: string)
    requires name != "" && forall i :: 0 <= i < |name| ==> IsWord(name[i])
    ensures Read(st, name) == if st == Body then Body else Second
    decreases |name|
  {
    assert Next(st, name[0]) == if st == Body then Body else Second;
    if |name| > 1 {
      ReadWord(Next(st, name[0]), name[1..]);
    }
  }

  /** Before any semicolon the automaton stays where it is. */
  lemma {:induction false} ReadPlain(t: string)
    ensures Read(Body, t) == Body <==> ';' !in t
    ensures ';' in t ==> forall u :: IsWordStart(u) ==> Read(Read(Body, t), u) == Second
    decreases |t|
  {
    if t != "" {
      assert t == [t[0]] + t[1..];
      if t[0] == ';' {
        ReadClosed(Semicolons, t[1..]);
      } else {
        ReadPlain(t[1..]);
      }
    }
  }

  predicate IsWordStart(u: string) {
    u != "" && IsLetter(u[0])
  }

  lemma {:induction false} ReadClosed(st: Shape, t: string)
    requires st != Body
    ensures Read(st, t) != Body
    ensures forall u :: IsWordStart(u) ==> Read(Read(st, t), u) == Second
    decreases |t|
  {
    if t == "" {
      forall u | IsWordStart(u)
        ensures Read(st, u) == Second
      {
        ReadLetter(st, u);
      }
    } else {
      ReadClosed(Next(st, t[0]), t[1..]);
    }
  }

  /** After a semicolon a letter starts a second statement. */
  lemma ReadLetter(st: Shape, u: string)
    requires st != Body && IsWordStart(u)
    ensures Read(st, u) == Second
  {
    ReadSecond(u[1..]);
  }

  /** A tail that holds a second statement by itself holds one wherever it is read. */
  lemma {:induction false} SecondStays(st: Shape, t: string)
    requires Read(Body, t) == Second
    ensures Read(st, t) == Second
    decreases |t|
  {
    if st == Second {
      ReadSecond(t);
    } else if t[0] == ';' && st == Body {
    } else if t[0] == ';' {
      SecondAfter(t[1..]);
      ReadSecond(t[1..]);
    } else {
      SecondStays(Next(st, t[0]), t[1..]);
    }
  }

  lemma {:induction false} SecondAfter(t: string)
    requires Read(Semicolons, t) == Second
    ensures Read(Blanks, t) == Second
  {
    if t != "" && IsSpace(t[0]) {
    } else {
      ReadSecond(t[1..]);
    }
  }

  /**
   The names make a second statement of the text: a semicolon in any but the last of them, whose
   keyword then follows it, or one in the last that something but semicolons and then blanks follows.
   */
  ghost predicate Splits(s: string, ts: seq<ParsedTable>, names: seq<string>) {
    && 0 < |ts| == |names|
    && ((exists i :: 0 <= i < |names| - 1 && ';' in names[i])
        || Read(Body, names[|names| - 1] + From(s, ts[|ts| - 1].tokenEnd)) == Second)
  }

  /** The text before a name token is a keyword and blanks. */
  lemma HitHead(prevWord: bool, t: string, m: TableMatch)
    requires MatchTable(prevWord, t) == Some(m)
    ensures IsWordStart(t[..m.nameStart]) && ';' !in t[..m.nameStart]
    ensures IsWordStart(t)
  {
    KeywordHead(t);
    var w := SpacedIdent(t[4..]);
    hide TableKeyword, SpacedIdent, Run, MatchAlias, IsIdent;
    assert m.nameStart == 4 + w;
    forall i | 4 <= i < m.nameStart
      ensures t[i] != ';'
    {
      assert t[i] == t[4..][i - 4];
    }
  }

  lemma KeywordHead(t: string)
    requires TableKeyword(t)
    ensures IsWordStart(t) && |t| >= 4 && forall i :: 0 <= i < 4 ==> t[i] != ';'
  {
    var w := if HasKeyword(t, "from") then "from" else "join";
    assert HasKeyword(t, w);
    assert forall i :: 0 <= i < 4 ==> LowerChar(t[i]) == w[i] && w[i] != ';';
  }

  lemma ReadHit(st: Shape, prevWord: bool, t: string, m: TableMatch, names: seq<string>)
    requires MatchTable(prevWord, t) == Some(m) && names != []
    ensures var tail := Retoken(true, t[m.nameEnd..], m.end - m.nameEnd, names[1..]);
            Read(st, Retoken(prevWord, t, 0, names)) == if st == Body then Read(Body, names[0] + tail) else Second
    ensures st == Body ==> Read(st, t) == Read(Body, t[m.nameEnd..])
    ensures st != Body ==> Read(st, t) == Second
  {
    hide MatchTable, IsIdent, Retoken, Read;
    var tail := Retoken(true, t[m.nameEnd..], m.end - m.nameEnd, names[1..]);
    var head, name := t[..m.nameStart], t[m.nameStart..m.nameEnd];
    HitHead(prevWord, t, m);
    RetokenHit(prevWord, t, m, names);
    if st == Body {
      ReadPlain(head);
      ReadConcat(Body, head, names[0] + tail);
      assert head + (names[0] + tail) == head + names[0] + tail;
      IdentWords(name);
      ReadWord(Body, name);
      assert t == head + (name + t[m.nameEnd..]);
      ReadConcat(Body, head, name + t[m.nameEnd..]);
      ReadConcat(Body, name, t[m.nameEnd..]);
    } else {
      ReadLetter(st, head + names[0] + tail);
      ReadLetter(st, t);
    }
  }

  lemma ReadCopied(st: Shape, prevWord: bool, t: string, skip: nat, names: seq<string>)
    requires t != "" && (skip == 0 ==> MatchTable(prevWord, t).None?)
    ensures Read(st, Retoken(prevWord, t, skip, names))
         == Read(Next(st, t[0]), Retoken(IsWord(t[0]), t[1..], Minus(skip, 1), names))
  {
    hide MatchTable, IsWord, Retoken, Next;
    StepTail(prevWord, t, skip, names);
  }

  /** What reading the renamed text from `off` on ends in, for any names at all. */
  ghost predicate ReadsRenamed(st: Shape, s: string, prevWord: bool, skip: nat, off: nat, names: seq<string>)
    requires off <= |s|
  {
    var t := s[off..];
    var ts := ScanTables(prevWord, t, skip, off);
    var r := Read(st, Retoken(prevWord, t, skip, names));
    if ts == [] then r == Read(st, t)
    else if st != Body then r == Second && Read(st, t) == Second
    else r == Second <==> Read(Body, t) == Second || Splits(s, ts, names)
  }

  lemma NothingRenamed(st: Shape, s: string, prevWord: bool, skip: nat, off: nat)
    requires off <= |s| && ScanTables(prevWord, s[off..], skip, off) == []
    ensures ReadsRenamed(st, s, prevWord, skip, off, [])
  {
    hide ScanTables, Retoken, Read;
    RetokenSelf(prevWord, s[off..], skip, off);
    assert NamesOf([]) == [];
  }

  lemma RenamedHit(s: string, prevWord: bool, off: nat, m: TableMatch, names: seq<string>)
    requires off <= |s| && MatchTable(prevWord, s[off..]) == Some(m)
    requires names != [] && |names| == |ScanTables(prevWord, s[off..], 0, off)|
    requires ReadsRenamed(Read(Body, names[0]), s, true, m.end - m.nameEnd, off + m.nameEnd, names[1..])
    requires ReadsRenamed(Body, s, true, m.end - m.nameEnd, off + m.nameEnd, names[1..])
    ensures ReadsRenamed(Body, s, prevWord, 0, off, names)
  {
    hide MatchTable, IsIdent, Retoken, Read, ScanTables, Splits;
    var t := s[off..];
    var rest := s[off + m.nameEnd..];
    assert t[m.nameEnd..] == rest;
    ScanUnfold(prevWord, t, m, off);
    ReadHit(Body, prevWord, t, m, names);
    var ts := ScanTables(true, rest, m.end - m.nameEnd, off + m.nameEnd);
    var table := ParsedTable(t[m.nameStart..m.nameEnd], m.alias, off + m.nameStart, off + m.nameEnd);
    var tail := Retoken(true, rest, m.end - m.nameEnd, names[1..]);
    ReadConcat(Body, names[0], tail);
    ReadPlain(names[0]);
    if ts == [] {
      SplitsLast(s, table, names[0], rest);
      assert [table] + ts == [table] && names == [names[0]];
      ReadConcat(Body, names[0], rest);
      if Read(Body, rest) == Second {
        SecondStays(Read(Body, names[0]), rest);
      }
    } else {
      SplitsCons(s, table, ts, names);
    }
  }

  lemma SplitsLast(s: string, table: ParsedTable, name: string, rest: string)
    requires From(s, table.tokenEnd) == rest
    ensures Splits(s, [table], [name]) <==> Read(Body, name + rest) == Second
  {
    hide Read;
  }

  lemma SplitsCons(s: string, table: ParsedTable, ts: seq<ParsedTable>, names: seq<string>)
    requires ts != [] && |names| == |ts| + 1
    ensures Splits(s, [table] + ts, names) <==> ';' in names[0] || Splits(s, ts, names[1..])
  {
    hide Read, From;
    var all, rest := [table] + ts, names[1..];
    assert all[|all| - 1] == ts[|ts| - 1] && rest[|rest| - 1] == names[|names| - 1];
    if i :| 0 <= i < |names| - 1 && ';' in names[i] {
      assert i > 0 ==> rest[i - 1] == names[i];
    }
    if i :| 0 <= i < |rest| - 1 && ';' in rest[i] {
      assert names[i + 1] == rest[i];
    }
  }

  lemma {:induction false} RenamedReads(st: Shape, s: string, prevWord: bool, skip: nat, off: nat, names: seq<string>)
    requires off <= |s| && |names| == |ScanTables(prevWord, s[off..], skip, off)|
    ensures ReadsRenamed(st, s, prevWord, skip, off, names)
    decreases |s| - off
  {
    hide MatchTable, IsIdent, IsWord, Next, Read, Retoken, ScanTables, Splits;
    var t := s[off..];
    if t == "" {
      NoTablesLeft(prevWord, skip, off);
      NothingRenamed(st, s, prevWord, skip, off);
    } else if names == [] {
      NothingRenamed(st, s, prevWord, skip, off);
    } else if skip > 0 || MatchTable(prevWord, t).None? {
      RenamedCopied(st, s, prevWord, skip, off, names);
    } else {
      var m := MatchTable(prevWord, t).value;
      ScanUnfold(prevWord, t, m, off);
      if st == Body {
        assert t[m.nameEnd..] == s[off + m.nameEnd..];
        RenamedReads(Read(Body, names[0]), s, true, m.end - m.nameEnd, off + m.nameEnd, names[1..]);
        RenamedReads(Body, s, true, m.end - m.nameEnd, off + m.nameEnd, names[1..]);
        RenamedHit(s, prevWord, off, m, names);
      } else {
        ReadHit(st, prevWord, t, m, names);
      }
    }
  }

  lemma NoTablesLeft(prevWord: bool, skip: nat, off: nat)
    ensures ScanTables(prevWord, "", skip, off) == []
  {
  }

  lemma RenamedCopied(st: Shape, s: string, prevWord: bool, skip: nat, off: nat, names: seq<string>)
    requires off < |s| && (skip == 0 ==> MatchTable(prevWord, s[off..]).None?)
    requires |names| == |ScanTables(prevWord, s[off..], skip, off)|
    ensures ReadsRenamed(st, s, prevWord, skip, off, names)
    decreases |s| - off, 0
  {
    hide MatchTable, IsIdent, IsWord, Retoken, ScanTables, Splits;
    var t := s[off..];
    assert t[1..] == s[off + 1..];
    ScanStep(prevWord, t, skip, off);
    ReadCopied(st, prevWord, t, skip, names);
    RenamedReads(Next(st, t[0]), s, IsWord(t[0]), Minus(skip, 1), off + 1, names);
  }

  lemma ScanStep(prevWord: bool, t: string, skip: nat, off: nat)
    requires t != "" && (skip == 0 ==> MatchTable(prevWord, t).None?)
    ensures ScanTables(prevWord, t, skip, off) == ScanTables(IsWord(t[0]), t[1..], Minus(skip, 1), off + 1)
  {
    hide MatchTable, IsWord;
  }

  /** The first word is copied: a name token starts only after a keyword and a blank. */
  lemma LetterRunCopied(prevWord: bool, t: string, names: seq<string>)
    ensures var r := Retoken(prevWord, t, 0, names);
            var n := Run(Letter, t);
            Run(Letter, r) == n && r[..n] == t[..n]
  {
    hide Retoken, IsWord, Run;
    RunKept(Letter, prevWord, t, 0, names);
    var n := Run(Letter, t);
    var r := Retoken(prevWord, t, 0, names);
    if MatchTable(prevWord, t).Some? {
      MatchHead(prevWord, t);
      hide MatchTable;
      HeadKept(prevWord, t, 0, names);
      assert n <= 4;
      assert r[..n] == r[..5][..n] && t[..n] == t[..5][..n];
    } else {
      LetterRunUnmatched(prevWord, t);
      hide MatchTable, Copies;
      Drop(prevWord, t, 0, names, n);
      Rest(prevWord, t, 0, names, n);
    }
  }

  lemma LetterRunUnmatched(prevWord: bool, t: string)
    requires MatchTable(prevWord, t).None?
    ensures Unmatched(prevWord, t, 0, Run(Letter, t))
  {
    assert t[0..] == t;
    forall i | 0 <= i < Run(Letter, t)
      ensures MatchTable(After(prevWord, t, i), t[i..]).None?
    {
      assert i > 0 ==> In(t[i - 1], Letter);
    }
  }

  /** What the leading blanks leave of the rewritten statement is again a rewritten text. */
  lemma TrimLeftKept(t: string, names: seq<string>)
    ensures var w := Run(Space, t);
            TrimLeft(Space, Retoken(false, t, 0, names)) == Retoken(After(false, t, w), t[w..], 0, names)
  {
    hide Retoken, IsWord, Run, After;
    RunDropped(Space, false, t, 0, names);
  }

  lemma FirstTokenKept(t: string, names: seq<string>)
    ensures FirstToken(Retoken(false, t, 0, names)) == FirstToken(t)
  {
    hide Retoken, IsWord, Run, Lower, After, FirstToken;
    TrimLeftKept(t, names);
    var w := Run(Space, t);
    LetterRunCopied(After(false, t, w), t[w..], names);
    FirstTokenOf(t);
    FirstTokenOf(Retoken(false, t, 0, names));
  }

  /** Trailing blanks are not part of a two-character opening without blanks. */
  lemma OpeningTrimmed(u: string, w: string)
    requires |w| == 2 && !IsSpace(w[1])
    requires forall c :: LowerChar(c) == w[1] ==> !IsSpace(c)
    ensures StartsWith(Lower(TrimRight(Space, u)), w) <==>
          |u| >= 2 && LowerChar(u[0]) == w[0] && LowerChar(u[1]) == w[1]
  {
    var r := TrimRight(Space, u);
    assert |r| >= 2 ==> Lower(r)[..2] == [LowerChar(u[0]), LowerChar(u[1])];
    assert w == [w[0], w[1]];
  }

  lemma OpeningKept(t: string, names: seq<string>, w: string)
    requires |w| == 2 && !IsSpace(w[1])
    requires forall c :: LowerChar(c) == w[1] ==> !IsSpace(c)
    ensures StartsWith(Lower(Strip(Retoken(false, t, 0, names))), w) <==> StartsWith(Lower(Strip(t)), w)
    ensures Lower(Strip(Retoken(false, t, 0, names))) == "" <==> Lower(Strip(t)) == ""
  {
    hide Retoken, IsWord, Run, Lower, After, LowerChar, IsSpace;
    TrimLeftKept(t, names);
    var n := Run(Space, t);
    var u := t[n..];
    var r := Retoken(After(false, t, n), u, 0, names);
    HeadKept(After(false, t, n), u, 0, names);
    assert |u| >= 5 ==> r[0] == r[..5][0] && r[1] == r[..5][1] && u[0] == u[..5][0] && u[1] == u[..5][1];
    OpeningTrimmed(u, w);
    OpeningTrimmed(r, w);
    NonBlankTrim(t);
    NonBlankTrim(Retoken(false, t, 0, names));
  }

  lemma NonBlankTrim(t: string)
    ensures Lower(Strip(t)) == "" <==> TrimLeft(Space, t) == ""
  {
    var u := TrimLeft(Space, t);
    assert |Lower(Strip(t))| == |TrimRight(Space, u)|;
  }

  /** Names that are identifiers make no second statement where there was none. */
  lemma IdentsSplitNothing(sql: string, names: seq<string>)
    requires AllIdents(names) && Splits(sql, ParseSpec(sql).tables, names)
    ensures IsMultiStatement(sql)
  {
    hide Read, IsIdent, ScanTables, IsMultiStatement, From;
    var ts := ParseSpec(sql).tables;
    var own := NamesOf(ts);
    assert sql[0..] == sql && ts == ScanTables(false, sql, 0, 0);
    RetokenSelf(false, sql, 0, 0);
    IdentsSplit(sql, ts, names);
    IdentsSplit(sql, ts, own);
    hide Splits, AllIdents;
    RenamedReads(Body, sql, false, 0, 0, own);
    MultiStatementIsSecond(sql);
  }

  /** Whether identifiers split the text does not depend on them. */
  lemma IdentsSplit(s: string, ts: seq<ParsedTable>, names: seq<string>)
    requires AllIdents(names) && 0 < |ts| == |names|
    ensures Splits(s, ts, names) <==> Read(Body, From(s, ts[|ts| - 1].tokenEnd)) == Second
  {
    hide Read, IsIdent, From;
    forall i | 0 <= i < |names|
      ensures ';' !in names[i] && Read(Body, names[i]) == Body
    {
      IdentWords(names[i]);
      ReadWord(Body, names[i]);
    }
    ReadConcat(Body, names[|names| - 1], From(s, ts[|ts| - 1].tokenEnd));
  }

  lemma MultiStatementRenamed(sql: string, names: seq<string>)
    requires |names| == |ParseSpec(sql).tables|
    ensures IsMultiStatement(Retoken(false, sql, 0, names)) <==>
          IsMultiStatement(sql) || Splits(sql, ParseSpec(sql).tables, names)
  {
    hide Retoken, IsMultiStatement, Read, ScanTables, Splits;
    assert sql[0..] == sql && ParseSpec(sql).tables == ScanTables(false, sql, 0, 0);
    RenamedReads(Body, sql, false, 0, 0, names);
    NothingSplits(sql, names);
    MultiStatementIsSecond(sql);
    MultiStatementIsSecond(Retoken(false, sql, 0, names));
  }

  lemma NothingSplits(sql: string, names: seq<string>)
    ensures !Splits(sql, [], names)
  {
  }

  lemma NoStatement(sql: string)
    requires Lower(Strip(sql)) == ""
    ensures !IsMultiStatement(sql)
  {
    hide Run, TrimRight, Read;
    assert |Lower(Strip(sql))| == |Strip(sql)|;
    NonBlankTrim(sql);
    MultiStatementIsSecond(sql);
    LeadingBlanksRead(sql);
  }

  /**
   The guard on the rewritten statement, for any names at all: the type is the same, and the verdict
   is the same unless the names make a second statement, which is then what it is refused for.
   Identifiers never do.
   */
  lemma GuardAfterRewrite(sql: string, names: seq<string>, plans: seq<TableRewritePlan>)
    requires PlansFor(ParseSpec(sql).tables, names, plans)
    ensures var split := Splits(sql, ParseSpec(sql).tables, names);
            && ParseSpec(RewriteSpec(sql, plans)).sqlType == ParseSpec(sql).sqlType
            && ParseSpec(RewriteSpec(sql, plans)).isMultiStatement == (ParseSpec(sql).isMultiStatement || split)
            && Evaluate(RewriteSpec(sql, plans)) ==
                  (if split then PrecheckDecision(false, "MULTI_STATEMENT") else Evaluate(sql))
            && (AllIdents(names) ==> Evaluate(RewriteSpec(sql, plans)) == Evaluate(sql))
  {
    PlansCount(ParseSpec(sql).tables, names, plans);
    hide Retoken, PlansFor, Splits, AllIdents, RewriteSpec, Evaluate;
    RewriteIsRetoken(sql, names, plans);
    MultiStatementRenamed(sql, names);
    GuardRenamed(sql, names);
    SameType(sql, names);
    if AllIdents(names) && Splits(sql, ParseSpec(sql).tables, names) {
      IdentsSplitNothing(sql, names);
      NotEmptyWhenMulti(sql);
    }
  }

  lemma SameType(sql: string, names: seq<string>)
    ensures ParseSpec(Retoken(false, sql, 0, names)).sqlType == ParseSpec(sql).sqlType
    ensures forall t :: ParseSpec(t).isMultiStatement == IsMultiStatement(t)
  {
    hide Retoken, IsMultiStatement, FirstToken, ScanTables;
    FirstTokenKept(sql, names);
  }

  lemma GuardRenamed(sql: string, names: seq<string>)
    requires |names| == |ParseSpec(sql).tables|
    ensures Evaluate(Retoken(false, sql, 0, names)) ==
            if Splits(sql, ParseSpec(sql).tables, names) then PrecheckDecision(false, "MULTI_STATEMENT")
                else Evaluate(sql)
  {
    hide Retoken, IsMultiStatement, FirstToken, Lower, Strip, ScanTables, Splits;
    MultiStatementRenamed(sql, names);
    FirstTokenKept(sql, names);
    OpeningKept(sql, names, "--");
    OpeningKept(sql, names, "/*");
    if Lower(Strip(Retoken(false, sql, 0, names))) == "" {
      NoStatement(Retoken(false, sql, 0, names));
    }
  }

  lemma NotEmptyWhenMulti(sql: string)
    requires IsMultiStatement(sql)
    ensures Evaluate(sql) == PrecheckDecision(false, "MULTI_STATEMENT")
  {
    hide IsMultiStatement, Lower, Strip;
    if Lower(Strip(sql)) == "" {
      NoStatement(sql);
    }
  }
}
