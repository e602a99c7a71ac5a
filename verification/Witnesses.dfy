/**
 Requests that the check allows, one for each way the second check can turn out: the limit is lost,
 nothing changes, or the lookup of an ambiguous physical name raises.
 */
module Witnesses {
  import opened Wrappers
  import opened Text
  import opened Sequences
  import opened SqlParser
  import opened SqlRewrite
  import opened RewriteTransfer
  import opened Precheck
  import opened Metadata
  import opened Routing
  import opened FilterChain
  import opened Checker

  const SOURCE := Datasource(1, "d", "d", "mysql", Connection("", 0, "", "", ""), true, map[], Unset)
  const TABLE := LogicalTable(2, "limit", "", "orders", true, map[])
  const RULE := RouteRule(3, 2, "constant", "constant", Literal("0"), true)
  const ROUTE := PhysicalRoute(4, 2, "0", "orders", 1, true)
  const SECOND_ROUTE := PhysicalRoute(6, 2, "1", "orders", 1, true)
  const POLICY := Policy(5, DEFAULT_POLICY_CODE, ["select"], true, 1000, true)

  /** A logical table called LIMIT on one physical table, and a policy that requires a limit. */
  const ONE_ROUTE := Store([SOURCE], [TABLE], [], [RULE], [ROUTE], [POLICY])

  /** The same table with two route values for the one physical table. */
  const TWO_ROUTES := Store([SOURCE], [TABLE], [], [RULE], [ROUTE, SECOND_ROUTE], [POLICY])

  /** The table's name, before a number, is all there is of a limit. */
  const UNLIMITED := "select * from limit 5"

  /** The table's name is its own alias, and a limit follows. */
  const LIMITED := "select * from limit limit 5"

  predicate Known(db: Store) { db == ONE_ROUTE || db == TWO_ROUTES }

  predicate Posed(sql: string) { sql == UNLIMITED || sql == LIMITED }

  function Parsed(sql: string): ParsedTable {
    ParsedTable("limit", if sql == LIMITED then Some("limit") else None, 14, 19)
  }

  lemma KnownValid(db: Store)
    requires Known(db)
    ensures ValidStore(db)
  {
    assert db.logicalTables[0].id == 2 && db.datasources[0].id == 1;
    assert HasTable(db.logicalTables, 2) && HasDatasource(db.datasources, 1);
    assert "0"[0] != "1"[0];
  }

  // ------------------------------------------------------------ reading the statements

  predicate QuietChar(c: char) {
    LowerChar(c) != 'f' && LowerChar(c) != 'j'
  }

  /** No table match starts in `t`. */
  lemma {:induction false} NoTables(prevWord: bool, t: string, skip: nat, off: nat)
    requires forall i :: 0 <= i < |t| ==> QuietChar(t[i])
    ensures ScanTables(prevWord, t, skip, off) == []
    decreases |t|
  {
    hide MatchTable;
    if t != "" {
      QuietHead(prevWord, t);
      NoTables(IsWord(t[0]), t[1..], Minus(skip, 1), off + 1);
    }
  }

  lemma {:induction false} ScanFrom(prevWord: bool, t: string, k: nat, off: nat)
    requires k <= |t| && forall i :: 0 <= i < k ==> QuietChar(t[i])
    ensures ScanTables(prevWord, t, 0, off) == ScanTables(After(prevWord, t, k), t[k..], 0, off + k)
    decreases k
  {
    hide MatchTable;
    if k == 0 {
      assert t[0..] == t;
    } else {
      QuietHead(prevWord, t);
      ScanFrom(IsWord(t[0]), t[1..], k - 1, off + 1);
      assert t[1..][k - 1..] == t[k..];
    }
  }

  lemma LimitIsIdent()
    ensures IsIdent("limit")
  {
    assert forall i :: 0 <= i < 5 ==> IsWord("limit"[i]);
  }

  /** The table match in `from limit`, up to its alias. */
  lemma FromLimit(tail: string)
    requires AtBoundary(tail)
    ensures MatchTable(false, "from limit" + tail)
         == Some(match MatchAlias(tail)
                 case None => TableMatch(5, 10, None, 10)
                 case Some(b) => TableMatch(5, 10, Some(tail[b.start..b.end]), 10 + b.end))
  {
    hide MatchTable, MatchAlias, SpacedIdent, Run, IsIdent, AtBoundary;
    var t := "from limit" + tail;
    var name := "limit";
    LimitIsIdent();
    assert t[4..] == " " + name + tail && t[5..] == name + tail && t[10..] == tail;
    SpacedIdentOf(" ", name, tail);
    NameRunOf(name, tail);
    assert HasKeyword(t, "from");
    MatchIs(false, t, 5, 5);
  }

  lemma NoAlias()
    ensures MatchAlias(" 5") == None
  {
    RunIs(Space, " 5", 1);
    assert " 5"[1..] == "5";
    assert AliasName("5") == None;
  }

  lemma LimitAlias()
    ensures MatchAlias(" limit 5") == Some(AliasMatch(1, 6))
  {
    RunIs(Space, " limit 5", 1);
    assert " limit 5"[1..] == "limit 5";
    RunIs(Word, "limit 5", 5);
    assert AliasName("limit 5") == Some(AliasMatch(0, 5));
  }

  lemma MatchUnlimited()
    ensures MatchTable(false, "from limit 5") == Some(TableMatch(5, 10, None, 10))
  {
    hide MatchTable, MatchAlias;
    FromLimit(" 5");
    NoAlias();
    assert "from limit" + " 5" == "from limit 5";
  }

  lemma MatchLimited()
    ensures MatchTable(false, "from limit limit 5") == Some(TableMatch(5, 10, Some("limit"), 16))
  {
    hide MatchTable, MatchAlias;
    FromLimit(" limit 5");
    LimitAlias();
    LimitedText();
    assert " limit 5"[1..6] == "limit";
  }

  lemma LimitedText()
    ensures "from limit" + " limit 5" == "from limit limit 5"
  {
    var a, b, c := "from limit", " limit 5", "from limit limit 5";
    assert |a| == 10 && |b| == 8 && |c| == 18;
    assert forall i :: 0 <= i < 10 ==> a[i] == c[i];
    assert forall i :: 0 <= i < 8 ==> b[i] == c[10 + i];
  }

  lemma UnlimitedTables()
    ensures ParseSpec(UNLIMITED).tables == [Parsed(UNLIMITED)]
  {
    hide ScanTables, MatchTable, ScanPredicates, FindLimit, IsMultiStatement, FirstToken;
    var sql, t := UNLIMITED, "from limit 5";
    ScanFrom(false, sql, 9, 0);
    assert sql[9..] == t;
    MatchUnlimited();
    ScanUnfold(false, t, TableMatch(5, 10, None, 10), 9);
    assert t[5..10] == "limit" && t[10..] == " 5";
    NoTables(true, " 5", 0, 19);
    assert |sql| != |LIMITED|;
  }

  lemma LimitedSlices()
    ensures "from limit limit 5"[5..10] == "limit" && "from limit limit 5"[10..] == " limit 5"
    ensures LIMITED[9..] == "from limit limit 5"
  {
  }

  lemma LimitedTail()
    ensures ScanTables(false, "from limit limit 5", 0, 9) == [Parsed(LIMITED)]
  {
    hide ScanTables, MatchTable;
    MatchLimited();
    ScanUnfold(false, "from limit limit 5", TableMatch(5, 10, Some("limit"), 16), 9);
    LimitedSlices();
    NoTables(true, " limit 5", 6, 19);
  }

  lemma LimitedTables()
    ensures ParseSpec(LIMITED).tables == [Parsed(LIMITED)]
  {
    hide ScanTables, MatchTable, ScanPredicates, FindLimit, IsMultiStatement, FirstToken, Parsed;
    ScanFrom(false, LIMITED, 9, 0);
    LimitedSlices();
    LimitedTail();
  }

  lemma TablesOf(sql: string)
    requires Posed(sql)
    ensures ParseSpec(sql).tables == [Parsed(sql)]
  {
    hide ParseSpec, Parsed;
    UnlimitedTables();
    LimitedTables();
  }

  // ------------------------------------------------------------ the guard

  lemma {:induction false} NoSemicolon(t: string)
    requires forall i :: 0 <= i < |t| ==> t[i] != ';'
    ensures Read(Body, t) == Body
  {
    if t != "" {
      NoSemicolon(t[1..]);
    }
  }

  lemma PosedToken(sql: string)
    requires Posed(sql)
    ensures FirstToken(sql) == "select"
  {
    hide Strip, Lower, Run;
    StripId(sql);
    assert sql[..6] == "select";
    SelectRun(sql);
    SelectIsLower();
  }

  lemma SelectRun(sql: string)
    requires |sql| > 6 && sql[..6] == "select" && sql[6] == ' '
    ensures Run(Letter, sql) == 6
  {
    assert forall i :: 0 <= i < 6 ==> sql[i] == "select"[i];
    RunIs(Letter, sql, 6);
  }

  lemma SelectIsLower()
    ensures Lower("select") == "select"
  {
    assert forall i :: 0 <= i < 6 ==> Lower("select")[i] == "select"[i];
  }

  lemma PosedAllowed(sql: string)
    requires Posed(sql)
    ensures Evaluate(sql).allowed
    ensures ParseSpec(sql).sqlType == "select"
  {
    hide Evaluate, FirstToken, Read, ScanTables, ScanPredicates, FindLimit;
    PosedToken(sql);
    NoSemicolon(sql);
    GuardExact(sql);
  }

  // ------------------------------------------------------------ the limits

  /** Neither a table match nor a LIMIT match starts here. */
  predicate QuietPair(c: char, d: char) {
    QuietChar(c) && (LowerChar(c) == 'l' ==> LowerChar(d) != 'i')
  }

  lemma QuietLimit(prevWord: bool, t: string)
    requires |t| >= 2 && QuietPair(t[0], t[1])
    ensures MatchLimit(prevWord, t).None?
  {
    assert "limit"[0] == 'l' && "limit"[1] == 'i';
  }

  lemma {:induction false} LimitFrom(prevWord: bool, t: string, k: nat, names: seq<string>)
    requires k < |t| && forall i :: 0 <= i < k ==> QuietPair(t[i], t[i + 1])
    ensures LimitUnder(prevWord, t, 0, names) == LimitUnder(After(prevWord, t, k), t[k..], 0, names)
    decreases k
  {
    hide MatchTable, MatchLimit, LimitUnder;
    if k == 0 {
      assert t[0..] == t;
    } else {
      assert QuietPair(t[0], t[1]);
      QuietHead(prevWord, t);
      QuietLimit(prevWord, t);
      LimitUnderCopied(prevWord, t, 0, names);
      LimitFrom(IsWord(t[0]), t[1..], k - 1, names);
      assert t[1..][k - 1..] == t[k..];
    }
  }

  lemma NumbersFive()
    ensures NumbersAfter(" 5") == Some(LimitMatch("5", None))
    ensures DigitsValue("5") == Some(5)
  {
    RunIs(Space, " 5", 1);
    assert " 5"[1..] == "5";
    RunIs(Digit, "5", 1);
    assert "5"[1..] == "" && "5"[..1] == "5";
    assert MatchLimitTail("") == None;
  }

  lemma NumbersLimit()
    ensures NumbersAfter(" limit 5") == None
  {
    RunIs(Space, " limit 5", 1);
    assert " limit 5"[1..] == "limit 5";
    assert Run(Digit, "limit 5") == 0;
  }

  lemma LimitIsLower()
    ensures Lower("limit") == "limit" && Lower("orders") != "limit"
  {
    assert forall i :: 0 <= i < 5 ==> Lower("limit")[i] == "limit"[i];
    assert |Lower("orders")| == 6;
  }

  /** At the table token, the limit depends on its name. */
  lemma UnlimitedRead(name: string)
    requires name == "limit" || name == "orders"
    ensures LimitRead(UNLIMITED, [name]) == if name == "limit" then Some(LimitMatch("5", None)) else None
  {
    hide MatchTable, MatchLimit, LimitUnder, NumbersAfter;
    var sql, t := UNLIMITED, "from limit 5";
    LimitFrom(false, sql, 9, [name]);
    assert sql[9..] == t && !After(false, sql, 9);
    MatchUnlimited();
    LimitUnderHit(false, t, TableMatch(5, 10, None, 10), [name]);
    assert t[10..] == " 5" && [name][1..] == [];
    NumbersFive();
    LimitIsLower();
    NothingAfter();
  }

  lemma NothingAfter()
    ensures LimitUnder(true, " 5", 0, []) == None
  {
    hide MatchLimitNumbers;
    assert " 5"[1..] == "5" && "5"[1..] == "";
    assert MatchLimit(true, " 5") == None;
    assert MatchLimit(false, "5") == None;
    assert LimitUnder(IsWord('5'), "", 0, []) == None;
    assert LimitUnder(false, "5", 0, []) == None;
  }

  lemma LimitedFind()
    ensures LimitUnder(true, " limit 5", 6, []) == Some(LimitMatch("5", None))
  {
    hide NumbersAfter;
    NumbersFive();
    var t := "limit 5";
    assert " limit 5"[1..] == t && t[5..] == " 5";
    assert MatchLimit(true, " limit 5") == None;
    assert HasKeyword(t, "limit");
    assert MatchLimit(false, t) == Some(LimitMatch("5", None));
    assert LimitUnder(false, t, 5, []) == Some(LimitMatch("5", None));
  }

  lemma LimitedRead()
    ensures LimitRead(LIMITED, ["limit"]) == Some(LimitMatch("5", None))
  {
    hide MatchTable, MatchLimit, LimitUnder, NumbersAfter;
    var sql, t := LIMITED, "from limit limit 5";
    LimitFrom(false, sql, 9, ["limit"]);
    assert !After(false, sql, 9);
    LimitedSlices();
    MatchLimited();
    LimitUnderHit(false, t, TableMatch(5, 10, Some("limit"), 16), ["limit"]);
    assert ["limit"][1..] == [];
    NumbersLimit();
    LimitedFind();
  }

  lemma PosedLimit(sql: string)
    requires Posed(sql)
    ensures ParseSpec(sql).hasLimit && ParseSpec(sql).limitValue == Some(5)
  {
    hide LimitRead, FindLimit, ParseSpec;
    TablesOf(sql);
    assert NamesOf(ParseSpec(sql).tables) == ["limit"];
    LimitReadSelf(sql);
    LimitOfParse(sql);
    UnlimitedRead("limit");
    LimitedRead();
    NumbersFive();
  }

  lemma LimitedStays()
    ensures LimitStays(LIMITED, ParseSpec(LIMITED).tables, ["orders"])
  {
    hide ParseSpec, NumbersAfter;
    TablesOf(LIMITED);
    NumbersLimit();
    assert LIMITED[19..] == " limit 5";
  }

  // ------------------------------------------------------------ routing and the chain

  lemma KnownLookups(db: Store)
    requires Known(db)
    ensures EnabledRouteByName(db, "limit") == Ok(None)
    ensures EnabledLogicalTable(db, "limit") == Ok(Some(TABLE))
    ensures EnabledRule(db, 2) == Ok(Some(RULE)) && RequiredFactors(db, 2) == []
  {
    assert "limit"[0] != "orders"[0];
    FilterOne((t: LogicalTable) => t.tableName == "limit" && t.enabled, db.logicalTables, 0);
    FilterOne((r: RouteRule) => r.logicalTableId == 2 && r.enabled, db.rules, 0);
    FilterNone((r: PhysicalRoute) => r.physicalTableName == "limit" && r.enabled, db.routes);
  }

  lemma KnownRoute(db: Store)
    requires Known(db)
    ensures EnabledRouteByValue(db, 2, "0") == Ok(Some(ROUTE))
  {
    assert "0"[0] != "1"[0];
    FilterOne((r: PhysicalRoute) => r.logicalTableId == 2 && r.routeValue == "0" && r.enabled, db.routes, 0);
  }

  lemma KnownSource(db: Store)
    requires Known(db)
    ensures DatasourceCodeFromId(db, 1) == "d" && EnabledDatasource(db, "d") == Ok(Some(SOURCE))
    ensures EnabledPolicy(db, DEFAULT_POLICY_CODE) == Ok(Some(POLICY))
  {
    FilterOne((d: Datasource) => d.code == "d" && d.enabled, db.datasources, 0);
    var code := DEFAULT_POLICY_CODE;
    FilterOne((p: Policy) => p.policyCode == code && p.enabled, db.policies, 0);
  }

  const TARGET := RouteTarget("limit", "limit", "orders", "d", Some(TableRewritePlan("limit", "orders", 14, 19)), "0")

  lemma Resolved(db: Store, sql: string, ctx: RouteContext)
    requires Known(db) && Posed(sql)
    ensures var r := ResolveSpec(db, ParseSpec(sql), ctx);
            r.Ok? && r.value.allowed && r.value.targets == [TARGET]
  {
    hide ParseSpec, ResolveTable;
    TablesOf(sql);
    TableResolved(db, ParseSpec(sql), Parsed(sql), ctx);
    ResolveOne(db, ParseSpec(sql), ctx, Parsed(sql), TARGET);
  }

  lemma ResolveOne(db: Store, parsed: ParsedSql, ctx: RouteContext, table: ParsedTable, target: RouteTarget)
    requires parsed.tables == [table]
    requires var r := ResolveTable(db, parsed, ctx, table);
             r.Ok? && r.value.Routed? && r.value.target == target
    ensures var r := ResolveSpec(db, parsed, ctx);
            r.Ok? && r.value.allowed && r.value.targets == [target]
  {
    hide ResolveTable;
    assert [table][1..] == [];
    assert [] + [target] == [target];
    var d := ResolveTable(db, parsed, ctx, table).value.diagnostic;
    assert ResolveFrom(db, parsed, ctx, [], [target], Append([], d)) ==
        Ok(RouteDecision(true, "ALLOW", [target], Append([], d)));
    assert ResolveFrom(db, parsed, ctx, [table], [], []) == ResolveFrom(db, parsed, ctx, [], [target], Append([], d));
  }

  lemma RuleValue(found: map<string, string>)
    ensures EvaluateRule(RULE, found) == Ok("0")
  {
  }

  lemma TableResolved(db: Store, parsed: ParsedSql, table: ParsedTable, ctx: RouteContext)
    requires Known(db) && table.tableName == "limit" && table.tokenStart == 14 && table.tokenEnd == 19
    ensures var r := ResolveTable(db, parsed, ctx, table);
            r.Ok? && r.value.Routed? && r.value.target == TARGET
  {
    hide EnabledRouteByName, EnabledLogicalTable, EnabledRule, RequiredFactors, EnabledRouteByValue, EnabledDatasource,
         DatasourceCodeFromId, EnabledRoutesOf, EvaluateRule, Diagnose;
    KnownLookups(db);
    KnownRoute(db);
    KnownSource(db);
    assert CollectFactors(db, 2, [], parsed, table, ctx) == Factors(map[], []);
    RuleValue(map[]);
  }

  ghost predicate AllowsAll(explain: Explainer) {
    forall d, s, n, p :: explain(d, s, n, p).allowed
  }

  lemma VerdictAllows(db: Store, explain: Explainer, sql: string, rewritten: string)
    requires Known(db) && Posed(sql) && AllowsAll(explain)
    ensures Verdict(db, explain, Request(ParseSpec(sql), rewritten, [TARGET])) == ALLOW
  {
    hide ParseSpec, EnabledDatasource, EnabledPolicy, Evaluate, FirstRejection, ScopeVerdict;
    KnownSource(db);
    PosedAllowed(sql);
    PosedLimit(sql);
    OneScope();
    assert HasEnabledDatasource(db, TARGET);
    ExplainAllows(db, explain, rewritten);
  }

  lemma OneScope()
    ensures ScopeVerdict([TARGET]) == ALLOW
  {
    assert TARGET in [TARGET];
    assert DatasourceCodes([TARGET]) == {"d"};
  }

  lemma ExplainAllows(db: Store, explain: Explainer, sql: string)
    requires AllowsAll(explain)
    ensures FirstRejection(db, explain, POLICY, sql, [TARGET]) == ALLOW
  {
    hide EnabledDatasource;
    assert [TARGET][1..] == [];
  }

  /** The check allows both statements on both stores, rewritten to the physical table. */
  lemma Allowed(db: Store, explain: Explainer, sql: string, ctx: RouteContext)
    requires Known(db) && Posed(sql) && AllowsAll(explain)
    ensures ValidStore(db)
    ensures var r := CheckSpec(db, explain, sql, ctx);
            r.Ok? && r.value.allowed && r.value.physicalTables == ["orders"]
            && r.value.rewrittenSql == Splice(sql, TableRewritePlan("limit", "orders", 14, 19))
  {
    hide ParseSpec, ResolveSpec, Evaluate, RunSpec, Verdict, RewriteSpec, ValidStore, RewritePlans;
    KnownValid(db);
    PosedAllowed(sql);
    Resolved(db, sql, ctx);
    OriginalKept(sql);
    var rewritten := RewriteSpec(sql, RewritePlans([TARGET]));
    VerdictAllows(db, explain, sql, rewritten);
    CheckIsFirstRefusal(db, explain, sql, ctx);
    ChainIsVerdict(db, explain, Request(ParseSpec(sql), rewritten, [TARGET]));
    OnePlan(sql);
    assert PhysicalNames([TARGET]) == ["orders"];
  }

  lemma OnePlan(sql: string)
    ensures RewriteSpec(sql, RewritePlans([TARGET])) == Splice(sql, TableRewritePlan("limit", "orders", 14, 19))
  {
    hide Splice;
    var plan := TableRewritePlan("limit", "orders", 14, 19);
    assert [TARGET][1..] == [];
    assert RewritePlans([TARGET]) == [plan] + [] == [plan];
    SortDescendingSorts([plan]);
    PermutedOne(SortDescending([plan]), [plan]);
    assert SortDescending([plan]) == [plan];
    assert [plan][1..] == [];
    assert SpliceAll(Splice(sql, plan), []) == Splice(sql, plan);
  }

  lemma OrdersIdent()
    ensures AllIdents(["orders"])
  {
    assert forall i :: 0 <= i < 6 ==> IsWord("orders"[i]);
  }

  lemma OrdersRows()
    ensures Unambiguous(ONE_ROUTE, "orders") && !Unambiguous(TWO_ROUTES, "orders")
  {
    var p := (r: PhysicalRoute) => r.physicalTableName == "orders" && r.enabled;
    FilterOne(p, ONE_ROUTE.routes, 0);
    FilterAll(p, TWO_ROUTES.routes);
  }

  lemma LimitRequired()
    ensures LimitUnderNames(ONE_ROUTE, UNLIMITED, ["orders"]) == FilterDecision(false, "LIMIT_REQUIRED")
  {
    hide LimitRead, ParseSpec, EnabledPolicy;
    KnownSource(ONE_ROUTE);
    UnlimitedRead("orders");
  }

  // ------------------------------------------------------------ the three outcomes

  lemma UnlimitedAllowed(explain: Explainer, ctx: RouteContext)
    requires AllowsAll(explain)
    ensures ValidStore(ONE_ROUTE) && AllIdents(["orders"])
    ensures var r := CheckSpec(ONE_ROUTE, explain, UNLIMITED, ctx);
            r.Ok? && r.value.allowed && r.value.rewrittenSql == "select * from orders 5" &&
                r.value.physicalTables == ["orders"]
  {
    hide CheckSpec, ParseSpec, ValidStore, AllIdents;
    Allowed(ONE_ROUTE, explain, UNLIMITED, ctx);
    OrdersIdent();
    UnlimitedText();
  }

  lemma UnlimitedText()
    ensures Splice(UNLIMITED, TableRewritePlan("limit", "orders", 14, 19)) == "select * from orders 5"
  {
    assert UNLIMITED[..14] == "select * from " && UNLIMITED[19..] == " 5";
  }

  lemma NoLimitLeft(explain: Explainer, ctx: RouteContext)
    requires AllowsAll(explain)
    ensures !ParseSpec("select * from orders 5").hasLimit
  {
    hide CheckSpec, ParseSpec, LimitRead, ValidStore, AllIdents, LimitStays, Evaluate;
    UnlimitedAllowed(explain, ctx);
    UnlimitedRead("orders");
    VerdictsTransfer(ONE_ROUTE, explain, UNLIMITED, ctx);
  }

  /**
   A limit can be lost: the check allows the statement because the table's name before a number reads
   as a limit, the rewritten statement has none, and checking that one is refused by the limit rule.
   */
  lemma LimitIsLost(explain: Explainer, ctx: RouteContext, ctx': RouteContext)
    requires AllowsAll(explain)
    ensures var r := CheckSpec(ONE_ROUTE, explain, "select * from limit 5", ctx);
            && r.Ok? && r.value.allowed && ParseSpec("select * from limit 5").limitValue == Some(5)
            && r.value.rewrittenSql == "select * from orders 5" && !ParseSpec("select * from orders 5").hasLimit
            && var again := CheckSpec(ONE_ROUTE, explain, "select * from orders 5", ctx');
            && again.Ok? && !again.value.allowed && again.value.reasonCode == "LIMIT_REQUIRED"
  {
    hide CheckSpec, ParseSpec, Unambiguous, AllIdents, ValidStore, LimitUnderNames;
    UnlimitedAllowed(explain, ctx);
    PosedLimit(UNLIMITED);
    NoLimitLeft(explain, ctx);
    OrdersRows();
    LimitRequired();
    CheckFixpoint(ONE_ROUTE, explain, UNLIMITED, ctx, ctx');
  }

  lemma LimitedSplice()
    ensures Splice(LIMITED, TableRewritePlan("limit", "orders", 14, 19)) == "select * from orders limit 5"
  {
    assert LIMITED[..14] == "select * from " && LIMITED[19..] == " limit 5";
  }

  /** A table called LIMIT need not lose the limit: this rewritten statement is allowed again, unchanged. */
  lemma LimitSurvives(explain: Explainer, ctx: RouteContext, ctx': RouteContext)
    requires AllowsAll(explain)
    ensures var r := CheckSpec(ONE_ROUTE, explain, "select * from limit limit 5", ctx);
            && r.Ok? && r.value.allowed && r.value.rewrittenSql == "select * from orders limit 5"
            && var again := CheckSpec(ONE_ROUTE, explain, "select * from orders limit 5", ctx');
            && again.Ok? && again.value.allowed && again.value.rewrittenSql == "select * from orders limit 5"
  {
    hide CheckSpec, ParseSpec, Unambiguous, AllIdents, ValidStore, LimitUnderNames, LimitStays;
    Allowed(ONE_ROUTE, explain, LIMITED, ctx);
    LimitedSplice();
    OrdersIdent();
    OrdersRows();
    LimitedStays();
    StayingLimitAllowed(ONE_ROUTE, explain, LIMITED, ctx);
    CheckFixpoint(ONE_ROUTE, explain, LIMITED, ctx, ctx');
  }

  /** An allowed statement whose physical table is on two enabled routes: checking the rewritten one raises. */
  lemma AmbiguousNameRaises(explain: Explainer, ctx: RouteContext, ctx': RouteContext)
    requires AllowsAll(explain)
    ensures var r := CheckSpec(TWO_ROUTES, explain, "select * from limit limit 5", ctx);
            && r.Ok? && r.value.allowed && r.value.rewrittenSql == "select * from orders limit 5"
            && CheckSpec(TWO_ROUTES, explain, "select * from orders limit 5", ctx') == Raise(MultipleResultsFound)
  {
    hide CheckSpec, ParseSpec, Unambiguous, AllIdents, ValidStore, LimitUnderNames, LimitStays;
    Allowed(TWO_ROUTES, explain, LIMITED, ctx);
    LimitedSplice();
    OrdersIdent();
    OrdersRows();
    CheckFixpoint(TWO_ROUTES, explain, LIMITED, ctx, ctx');
    var r := CheckSpec(TWO_ROUTES, explain, LIMITED, ctx).value;
    assert "orders" in r.physicalTables;
  }
}
