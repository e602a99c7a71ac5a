/** Why a statement is not routed, where the values it is routed by come from, and what its diagnostics show. */
module RoutingReasons {
  import opened Wrappers
  import opened Text
  import opened TextMeaning
  import opened SqlParser
  import opened Sequences
  import opened Metadata
  import opened Routing
  import opened RoutingProofs

  // ------------------------------------------------------------ the table that decides

  ghost predicate IsRouted(db: Store, parsed: ParsedSql, ctx: RouteContext, table: ParsedTable) {
    ResolveTable(db, parsed, ctx, table).Ok? && ResolveTable(db, parsed, ctx, table).value.Routed?
  }

  /** Table `k` is the first that is not routed. */
  ghost predicate StopsAt(db: Store, parsed: ParsedSql, ctx: RouteContext, tables: seq<ParsedTable>, k: int) {
    && 0 <= k < |tables| && !IsRouted(db, parsed, ctx, tables[k])
    && forall j :: 0 <= j < k ==> IsRouted(db, parsed, ctx, tables[j])
  }

  /** What the first table that is not routed makes of the whole decision. */
  ghost function Stopped(db: Store, parsed: ParsedSql, ctx: RouteContext, table: ParsedTable,
                         before: seq<RouteDiagnostic>): Result<RouteDecision>
    requires !IsRouted(db, parsed, ctx, table)
  {
    match ResolveTable(db, parsed, ctx, table)
    case Raise(error) => Raise(error)
    case Ok(Rejected(reason, d)) =>
      Ok(RouteDecision(false, reason, [], if d.Some? then before + [d.value] else before))
  }

  lemma {:induction false} ResolveFromStops(db: Store, parsed: ParsedSql, ctx: RouteContext, tables: seq<ParsedTable>,
                                            targets: seq<RouteTarget>, ds: seq<RouteDiagnostic>, k: int)
    requires StopsAt(db, parsed, ctx, tables, k)
    ensures ResolveFrom(db, parsed, ctx, tables, targets, ds)
         == Stopped(db, parsed, ctx, tables[k], ds + RoutedDiagnostics(db, parsed, ctx, tables[..k]))
    decreases |tables|
  {
    hide ResolveTable, RoutedDiagnostics;
    if k == 0 {
      NoDiagnostics(db, parsed, ctx);
      assert tables[..0] == [];
      assert ds + [] == ds;
    } else {
      var r := ResolveTable(db, parsed, ctx, tables[0]);
      assert IsRouted(db, parsed, ctx, tables[0]);
      StopsLater(db, parsed, ctx, tables, k);
      var more := Append(ds, r.value.diagnostic);
      ResolveFromStops(db, parsed, ctx, tables[1..], targets + [r.value.target], more, k - 1);
      hide Stopped;
      DiagnosticsCons(db, parsed, ctx, tables[..k], ds);
      assert tables[..k][1..] == tables[1..][..k - 1];
    }
  }

  lemma StopsLater(db: Store, parsed: ParsedSql, ctx: RouteContext, tables: seq<ParsedTable>, k: int)
    requires StopsAt(db, parsed, ctx, tables, k) && k > 0
    ensures StopsAt(db, parsed, ctx, tables[1..], k - 1)
  {
    hide IsRouted;
    forall j | 0 <= j < k - 1
      ensures IsRouted(db, parsed, ctx, tables[1..][j])
    {
      assert IsRouted(db, parsed, ctx, tables[j + 1]);
    }
  }

  /** Either every table is routed or one is the first that is not. */
  lemma {:induction false} SomeStop(db: Store, parsed: ParsedSql, ctx: RouteContext, tables: seq<ParsedTable>)
    ensures (forall i :: 0 <= i < |tables| ==> IsRouted(db, parsed, ctx, tables[i]))
            || exists k :: StopsAt(db, parsed, ctx, tables, k)
  {
    hide IsRouted;
    if tables != [] {
      var front := tables[..|tables| - 1];
      SomeStop(db, parsed, ctx, front);
      if k :| StopsAt(db, parsed, ctx, front, k) {
        assert StopsAt(db, parsed, ctx, tables, k);
      } else if !IsRouted(db, parsed, ctx, tables[|tables| - 1]) {
        forall j | 0 <= j < |tables| - 1
          ensures IsRouted(db, parsed, ctx, tables[j])
        {
          assert IsRouted(db, parsed, ctx, front[j]);
        }
        assert StopsAt(db, parsed, ctx, tables, |tables| - 1);
      } else {
        assert forall i :: 0 <= i < |front| ==> front[i] == tables[i];
      }
    }
  }

  /**
   A statement is routed exactly when it has a table and every table is routed. Otherwise the first
   table that is not decides: what it raises is raised, and what it is rejected for is the reason, with
   the diagnostics of the tables before it and then its own.
   */
  lemma FirstRejectionDecides(db: Store, parsed: ParsedSql, ctx: RouteContext)
    ensures var r := ResolveSpec(db, parsed, ctx);
            && (r.Ok? && r.value.allowed
                <==> parsed.tables != []
                     && forall i :: 0 <= i < |parsed.tables| ==> IsRouted(db, parsed, ctx, parsed.tables[i]))
            && (parsed.tables == [] ==> r == Ok(RouteDecision(false, "TABLE_NOT_FOUND", [], [])))
            && (r.Raise? || (!r.value.allowed && parsed.tables != []) ==>
                  exists k :: StopsAt(db, parsed, ctx, parsed.tables, k))
            && forall k :: StopsAt(db, parsed, ctx, parsed.tables, k) ==>
                 match ResolveTable(db, parsed, ctx, parsed.tables[k])
                 case Raise(error) => r == Raise(error)
                 case Ok(outcome) =>
                   && outcome.Rejected? && r.Ok? && !r.value.allowed && r.value.targets == []
                   && r.value.reasonCode == outcome.reasonCode
                   && r.value.diagnostics == RoutedDiagnostics(db, parsed, ctx, parsed.tables[..k])
                        + (if outcome.diagnostic.Some? then [outcome.diagnostic.value] else [])
  {
    hide ResolveTable, RoutedDiagnostics, ResolveFrom;
    SomeStop(db, parsed, ctx, parsed.tables);
    forall k | StopsAt(db, parsed, ctx, parsed.tables, k)
      ensures ResolveSpec(db, parsed, ctx)
           == Stopped(db, parsed, ctx, parsed.tables[k], RoutedDiagnostics(db, parsed, ctx, parsed.tables[..k]))
      ensures !IsRouted(db, parsed, ctx, parsed.tables[k])
    {
      ResolveFromStops(db, parsed, ctx, parsed.tables, [], [], k);
      var ds := RoutedDiagnostics(db, parsed, ctx, parsed.tables[..k]);
      assert [] + ds == ds;
    }
    if parsed.tables != [] && forall i :: 0 <= i < |parsed.tables| ==> IsRouted(db, parsed, ctx, parsed.tables[i]) {
      AllRouted(db, parsed, ctx, parsed.tables, [], []);
    }
  }

  lemma {:induction false} AllRouted(db: Store, parsed: ParsedSql, ctx: RouteContext, tables: seq<ParsedTable>,
                                     targets: seq<RouteTarget>, ds: seq<RouteDiagnostic>)
    requires forall i :: 0 <= i < |tables| ==> IsRouted(db, parsed, ctx, tables[i])
    ensures var r := ResolveFrom(db, parsed, ctx, tables, targets, ds);
            r.Ok? && r.value.allowed && r.value.reasonCode == "ALLOW"
    decreases |tables|
  {
    hide ResolveTable;
    if tables != [] {
      var r := ResolveTable(db, parsed, ctx, tables[0]);
      assert IsRouted(db, parsed, ctx, tables[0]);
      forall i | 0 <= i < |tables| - 1
        ensures IsRouted(db, parsed, ctx, tables[1..][i])
      {
        assert IsRouted(db, parsed, ctx, tables[i + 1]);
      }
      AllRouted(db, parsed, ctx, tables[1..], targets + [r.value.target], Append(ds, r.value.diagnostic));
    }
  }

  // ------------------------------------------------------------ the rule of a table

  predicate RuleOf(r: RouteRule, tableId: int) {
    r.logicalTableId == tableId && r.enabled
  }

  /** The table has this enabled rule and no other. */
  ghost predicate OnlyRule(db: Store, tableId: int, rule: RouteRule) {
    rule in db.rules && RuleOf(rule, tableId) && forall r :: r in db.rules && RuleOf(r, tableId) ==> r == rule
  }

  /** The rule lookup finds the only enabled rule, and raises exactly when there are two. */
  lemma RuleLookup(db: Store, tableId: int)
    requires RuleKeys(db.rules)
    ensures EnabledRule(db, tableId) == Ok(None) <==> forall r :: r in db.rules ==> !RuleOf(r, tableId)
    ensures forall rule :: EnabledRule(db, tableId) == Ok(Some(rule)) <==> OnlyRule(db, tableId, rule)
    ensures EnabledRule(db, tableId) == Raise(MultipleResultsFound)
       <==> exists a, b :: a in db.rules && b in db.rules && a != b && RuleOf(a, tableId) && RuleOf(b, tableId)
  {
    hide RuleKeys, OnlyRule, Only, NoneFits, TwoFit, RuleOf, Filter;
    var p := (r: RouteRule) => r.logicalTableId == tableId && r.enabled;
    RulesDistinct(db.rules);
    LookupExactly(p, db.rules);
    RulesFit(db, tableId, p);
  }

  lemma RulesDistinct(rules: seq<RouteRule>)
    requires RuleKeys(rules)
    ensures forall i, j :: 0 <= i < j < |rules| ==> rules[i] != rules[j]
  {
  }

  lemma RulesFit(db: Store, tableId: int, p: RouteRule -> bool)
    requires forall r: RouteRule :: p(r) <==> r.logicalTableId == tableId && r.enabled
    ensures NoneFits(p, db.rules) <==> forall r :: r in db.rules ==> !RuleOf(r, tableId)
    ensures forall rule :: Only(p, db.rules, rule) <==> OnlyRule(db, tableId, rule)
    ensures TwoFit(p, db.rules)
       <==> exists a, b :: a in db.rules && b in db.rules && a != b && RuleOf(a, tableId) && RuleOf(b, tableId)
  {
  }

  // ------------------------------------------------------------ physical names

  predicate HasName(r: PhysicalRoute, name: string) {
    r.physicalTableName == name && r.enabled
  }

  /** This enabled route has the physical name and no other does. */
  ghost predicate OnlyRoute(db: Store, name: string, route: PhysicalRoute) {
    route in db.routes && HasName(route, name) && forall r :: r in db.routes && HasName(r, name) ==> r == route
  }

  /**
   A table is physical exactly when some enabled route has its name: the lookup finds the only such
   route, and raises exactly when there are two.
   */
  lemma PhysicalLookup(db: Store, name: string)
    requires RouteKeys(db.routes)
    ensures EnabledRouteByName(db, name) == Ok(None) <==> forall r :: r in db.routes ==> !HasName(r, name)
    ensures forall route :: EnabledRouteByName(db, name) == Ok(Some(route)) <==> OnlyRoute(db, name, route)
    ensures EnabledRouteByName(db, name) == Raise(MultipleResultsFound)
       <==> exists a, b :: a in db.routes && b in db.routes && a != b && HasName(a, name) && HasName(b, name)
  {
    hide RouteKeys, OnlyRoute, Only, NoneFits, TwoFit, HasName, Filter;
    var p := (r: PhysicalRoute) => r.physicalTableName == name && r.enabled;
    RoutesDistinct(db.routes);
    LookupExactly(p, db.routes);
    RoutesFit(db, name, p);
  }

  lemma RoutesDistinct(routes: seq<PhysicalRoute>)
    requires RouteKeys(routes)
    ensures forall i, j :: 0 <= i < j < |routes| ==> routes[i] != routes[j]
  {
  }

  lemma RoutesFit(db: Store, name: string, p: PhysicalRoute -> bool)
    requires forall r: PhysicalRoute :: p(r) <==> r.physicalTableName == name && r.enabled
    ensures NoneFits(p, db.routes) <==> forall r :: r in db.routes ==> !HasName(r, name)
    ensures forall route :: Only(p, db.routes, route) <==> OnlyRoute(db, name, route)
    ensures TwoFit(p, db.routes)
       <==> exists a, b :: a in db.routes && b in db.routes && a != b && HasName(a, name) && HasName(b, name)
  {
  }

  // ------------------------------------------------------------ the factors of a table

  /** The factor must have a value for the table to be routed. */
  predicate Needed(f: RouteFactor, tableId: int) {
    f.logicalTableId == tableId && f.enabled && f.required
  }

  /**
   The missing factors are exactly the needed ones without a value, and the extracted values are
   exactly those of the needed ones that have one.
   */
  lemma FactorsExactly(db: Store, tableId: int, parsed: ParsedSql, table: ParsedTable, ctx: RouteContext)
    requires ValidStore(db)
    ensures var found := CollectFactors(db, tableId, RequiredFactors(db, tableId), parsed, table, ctx);
            && (forall name :: name in found.missing <==>
                  exists f :: f in db.factors && Needed(f, tableId) && f.factorName == name
                              && FactorValue(db, tableId, f, parsed, table, ctx) == None)
            && (forall name, v :: name in found.extracted && found.extracted[name] == v <==>
                  exists f :: f in db.factors && Needed(f, tableId) && f.factorName == name
                              && FactorValue(db, tableId, f, parsed, table, ctx) == Some(v))
  {
    hide FactorValue, CollectFactors, ValidStore;
    RequiredFactorsSplit(db, tableId, parsed, table, ctx);
    var fs := RequiredFactors(db, tableId);
    assert forall f :: f in fs <==> f in db.factors && Needed(f, tableId);
    hide RequiredFactors;
    FactorsRead(db, tableId, fs, parsed, table, ctx, CollectFactors(db, tableId, fs, parsed, table, ctx));
  }

  lemma FactorsRead(db: Store, tableId: int, fs: seq<RouteFactor>, parsed: ParsedSql, table: ParsedTable,
                    ctx: RouteContext, found: Factors)
    requires found.extracted.Keys + Names(found.missing) == FactorNames(fs)
    requires found.extracted.Keys !! Names(found.missing)
    requires forall f :: f in fs ==>
               FactorValue(db, tableId, f, parsed, table, ctx)
               == if f.factorName in found.extracted then Some(found.extracted[f.factorName]) else None
    ensures forall name :: name in found.missing <==>
              exists f :: f in fs && f.factorName == name && FactorValue(db, tableId, f, parsed, table, ctx) == None
    ensures forall name, v :: name in found.extracted && found.extracted[name] == v <==>
              exists f :: f in fs && f.factorName == name && FactorValue(db, tableId, f, parsed, table, ctx) == Some(v)
  {
    hide FactorValue;
    assert forall f :: f in fs ==> f.factorName in FactorNames(fs);
    assert forall name :: name in found.missing <==> name in Names(found.missing);
    assert forall name :: name in FactorNames(fs) ==> exists f :: f in fs && f.factorName == name;
  }

  // ------------------------------------------------------------ where a value comes from

  /** The context names this column: it is non-empty text under the key. */
  predicate ContextNames(ctx: RouteContext, key: string, column: string) {
    key in ctx && ctx[key] == ContextText(column) && column != ""
  }

  /** The value that the factor's own source gives. */
  ghost predicate Given(f: RouteFactor, parsed: ParsedSql, table: ParsedTable, ctx: RouteContext, v: string) {
    var kind := Lower(f.sourceType);
    || (kind == "sql_predicate" && PredicateFor(parsed.predicates, f.sourceKey, table) == Some(v))
    || (kind == "sql_predicate_from_context"
        && exists column :: ContextNames(ctx, f.sourceKey, column)
                            && PredicateFor(parsed.predicates, column, table) == Some(v))
    || (kind == "route_context" && f.sourceKey in ctx
        && (ctx[f.sourceKey] == ContextText(v) || ctx[f.sourceKey] == ContextOther(v)))
    || (kind == "physical_table_name" && v == table.tableName)
  }

  lemma GivenExactly(f: RouteFactor, parsed: ParsedSql, table: ParsedTable, ctx: RouteContext, v: string)
    ensures ExtractFactorValue(f, parsed, table, ctx) == Some(v) <==> Given(f, parsed, table, ctx, v)
  {
    hide PredicateFor, Lower;
    KindsDiffer();
  }

  lemma KindsDiffer()
    ensures "sql_predicate" != "sql_predicate_from_context" && "sql_predicate" != "route_context"
    ensures "sql_predicate" != "physical_table_name" && "sql_predicate_from_context" != "route_context"
    ensures "sql_predicate_from_context" != "physical_table_name" && "route_context" != "physical_table_name"
  {
    assert |"sql_predicate"| == |"route_context"| && "sql_predicate"[0] != "route_context"[0];
  }

  function RouteCount(db: Store, tableId: int): nat {
    |set i: nat | i < |db.routes| && db.routes[i].logicalTableId == tableId && db.routes[i].enabled|
  }

  lemma CountsRoutes(db: Store, tableId: int)
    ensures |EnabledRoutesOf(db, tableId)| == RouteCount(db, tableId)
  {
    var p := (r: PhysicalRoute) => r.logicalTableId == tableId && r.enabled;
    FilterCounts(p, db.routes);
    assert Positions(p, db.routes)
        == set i: nat | i < |db.routes| && db.routes[i].logicalTableId == tableId && db.routes[i].enabled;
  }

  /** The suffix is the integer `n`, which the shard column's value for the table writes, modulo the route count. */
  ghost predicate LegacyFrom(db: Store, tableId: int, parsed: ParsedSql, table: ParsedTable, ctx: RouteContext,
                             column: string, value: string, n: int, suffix: string) {
    && ContextNames(ctx, "shard_column", column)
    && PredicateFor(parsed.predicates, column, table) == Some(value)
    && Writes(value, n) && RouteCount(db, tableId) > 0 && suffix == IntToString(n % RouteCount(db, tableId))
  }

  /**
   The derived suffix exists exactly when the context names a shard column, the statement gives it a
   value for the table that writes an integer, and the table has enabled routes; it is that integer
   modulo their number.
   */
  lemma LegacySuffixExactly(db: Store, tableId: int, parsed: ParsedSql, table: ParsedTable, ctx: RouteContext,
                            suffix: string)
    ensures DeriveLegacySuffix(db, tableId, parsed, table, ctx) == Some(suffix)
       <==> exists column, value, n :: LegacyFrom(db, tableId, parsed, table, ctx, column, value, n, suffix)
  {
    hide PredicateFor, ParseInt, Writes, IntToString, EnabledRoutesOf, RouteCount;
    CountsRoutes(db, tableId);
    if column, value, n :| LegacyFrom(db, tableId, parsed, table, ctx, column, value, n, suffix) {
      ParseIntExactly(value, n);
    }
    if DeriveLegacySuffix(db, tableId, parsed, table, ctx) == Some(suffix) {
      var column := ctx["shard_column"].text;
      var value := PredicateFor(parsed.predicates, column, table).value;
      var n := ParseInt(value).value;
      ParseIntExactly(value, n);
      assert LegacyFrom(db, tableId, parsed, table, ctx, column, value, n, suffix);
    }
  }

  /**
   A factor has the value its own source gives; only without one, and only under the source key
   `route_suffix`, it has the derived suffix.
   */
  lemma FactorValueExactly(db: Store, tableId: int, f: RouteFactor, parsed: ParsedSql, table: ParsedTable,
                           ctx: RouteContext, v: string)
    ensures FactorValue(db, tableId, f, parsed, table, ctx) == Some(v)
       <==> || Given(f, parsed, table, ctx, v)
            || ((forall u :: !Given(f, parsed, table, ctx, u)) && f.sourceKey == "route_suffix"
                && exists column, value, n :: LegacyFrom(db, tableId, parsed, table, ctx, column, value, n, v))
  {
    hide ExtractFactorValue, DeriveLegacySuffix, Given, LegacyFrom, IntToString, RouteCount;
    forall u
      ensures ExtractFactorValue(f, parsed, table, ctx) == Some(u) <==> Given(f, parsed, table, ctx, u)
    {
      GivenExactly(f, parsed, table, ctx, u);
    }
    LegacySuffixExactly(db, tableId, parsed, table, ctx, v);
    if ExtractFactorValue(f, parsed, table, ctx).Some? {
      assert Given(f, parsed, table, ctx, ExtractFactorValue(f, parsed, table, ctx).value);
    }
  }

  // ------------------------------------------------------------ what a diagnostic shows

  /**
   The diagnostic shows both names, every needed factor with the value extracted for it, the rule if
   there is one, and how many enabled routes the table has.
   */
  ghost predicate Explains(db: Store, table: ParsedTable, logical: LogicalTable, found: Factors, d: RouteDiagnostic) {
    && d.originalTableName == table.tableName && d.logicalTableName == logical.tableName
    && d.missingFactors == found.missing && d.extractedValues == found.extracted
    && d.availableRouteCount == RouteCount(db, logical.id)
    && |d.requiredFactors| == |RequiredFactors(db, logical.id)|
    && forall i :: 0 <= i < |d.requiredFactors| ==>
         var name := RequiredFactors(db, logical.id)[i].factorName;
         && d.requiredFactors[i].factorName == name
         && (name in found.extracted ==> d.requiredFactors[i].providedValue == Some(found.extracted[name]))
         && (name !in found.extracted ==> d.requiredFactors[i].providedValue == None)
  }

  lemma {:induction false} FactorsShown(fs: seq<RouteFactor>, extracted: map<string, string>)
    ensures var ds := FactorDiagnostics(fs, extracted);
            && |ds| == |fs|
            && forall i :: 0 <= i < |fs| ==>
                 && ds[i].factorName == fs[i].factorName
                 && (fs[i].factorName in extracted ==> ds[i].providedValue == Some(extracted[fs[i].factorName]))
                 && (fs[i].factorName !in extracted ==> ds[i].providedValue == None)
  {
    if fs != [] {
      FactorsShown(fs[1..], extracted);
    }
  }

  lemma DiagnoseExplains(db: Store, table: ParsedTable, logical: LogicalTable, found: Factors, rule: Option<RouteRule>,
                         value: Option<string>)
    ensures var d := Diagnose(db, table, logical, RequiredFactors(db, logical.id), found, rule, value);
            && Explains(db, table, logical, found, d)
            && d.evaluatedRouteValue == value && (rule.None? ==> d.ruleName == None)
            && (rule.Some? ==> d.ruleName == Some(rule.value.ruleName))
  {
    hide RequiredFactors, EnabledRoutesOf, RouteCount, FactorDiagnostics;
    CountsRoutes(db, logical.id);
    FactorsShown(RequiredFactors(db, logical.id), found.extracted);
  }

  /**
   A table without an enabled rule is rejected for it, with no value extracted; on two the lookup
   raises; under its only rule every diagnostic shows that rule and what was extracted.
   */
  lemma DiagnosticContents(db: Store, parsed: ParsedSql, ctx: RouteContext, table: ParsedTable, logical: LogicalTable)
    requires ValidStore(db)
    ensures var r := RouteLogical(db, parsed, ctx, table, logical);
            var found := CollectFactors(db, logical.id, RequiredFactors(db, logical.id), parsed, table, ctx);
            && ((exists a, b :: a in db.rules && b in db.rules && a != b && RuleOf(a, logical.id)
                                && RuleOf(b, logical.id)) ==> r == Raise(MultipleResultsFound))
            && ((forall x :: x in db.rules ==> !RuleOf(x, logical.id)) ==>
                  && r.Ok? && r.value.Rejected? && r.value.reasonCode == "ROUTE_RULE_NOT_FOUND"
                  && r.value.diagnostic.Some? && r.value.diagnostic.value.ruleName == None
                  && r.value.diagnostic.value.evaluatedRouteValue == None
                  && Explains(db, table, logical, Factors(map[], []), r.value.diagnostic.value))
            && forall rule :: OnlyRule(db, logical.id, rule) && r.Ok? ==>
                 && r.value.diagnostic.Some? && r.value.diagnostic.value.ruleName == Some(rule.ruleName)
                 && Explains(db, table, logical, found, r.value.diagnostic.value)
  {
    hide EnabledRule, RequiredFactors, CollectFactors, EvaluateRule, EnabledRouteByValue, EnabledDatasource,
         DatasourceCodeFromId, ValidStore, Diagnose, Explains, OnlyRule, RuleOf;
    RulesKeyed(db);
    RuleLookup(db, logical.id);
    var fs := RequiredFactors(db, logical.id);
    DiagnoseExplains(db, table, logical, Factors(map[], []), None, None);
    var rule := EnabledRule(db, logical.id);
    if rule.Ok? && rule.value.Some? {
      var found := CollectFactors(db, logical.id, fs, parsed, table, ctx);
      DiagnoseExplains(db, table, logical, found, rule.value, None);
      var value := EvaluateRule(rule.value.value, found.extracted);
      if value.Ok? {
        DiagnoseExplains(db, table, logical, found, rule.value, Some(value.value));
      }
    }
  }

  lemma RulesKeyed(db: Store)
    requires ValidStore(db)
    ensures RuleKeys(db.rules)
  {
  }

  // ------------------------------------------------------------ route rules

  /** Python's `%` on integers: the remainder lies between zero and the divisor. */
  lemma PyModExactly(a: int, b: int)
    requires b != 0
    ensures var r := PyMod(a, b);
            && (exists q: int :: a == b * q + r)
            && (b > 0 ==> 0 <= r < b) && (b < 0 ==> b < r <= 0)
  {
    if b > 0 {
      assert a == b * (a / b) + PyMod(a, b);
    } else {
      assert a == b * ((-a) / (-b)) + PyMod(a, b);
    }
  }

  /**
   `int`, `str` and one-character `replace` of a value. `int` fails, with ValueError, exactly on the
   texts that write no integer; `replace` changes that character and no other, wherever it stands; what
   an operand raises escapes.
   */
  lemma ConversionsExactly(e: RuleExpr, env: map<string, string>, before: char, after: char)
    ensures var toInt, toStr, replaced := Eval(ToInt(e), env), Eval(ToStr(e), env),
                                          Eval(ReplaceChar(e, before, after), env);
            match Eval(e, env)
            case Raise(error) => toInt == Raise(error) && toStr == Raise(error) && replaced == Raise(error)
            case Ok(IntValue(n)) =>
              toInt == Ok(IntValue(n)) && toStr == Ok(TextValue(IntToString(n))) && replaced == Raise(AttributeError)
            case Ok(TextValue(s)) =>
              && (forall n :: Writes(s, n) ==> toInt == Ok(IntValue(n)))
              && ((forall n :: !Writes(s, n)) ==> toInt == Raise(ValueError))
              && toStr == Ok(TextValue(s))
              && replaced.Ok? && replaced.value.TextValue? && |replaced.value.text| == |s|
              && forall i :: 0 <= i < |s| ==> replaced.value.text[i] == if s[i] == before then after else s[i]
  {
    hide ParseInt, Writes;
    if Eval(e, env).Ok? && Eval(e, env).value.TextValue? {
      var s := Eval(e, env).value.text;
      forall n
        ensures ParseInt(s) == Some(n) <==> Writes(s, n)
      {
        ParseIntExactly(s, n);
      }
      if ParseInt(s).Some? {
        assert Writes(s, ParseInt(s).value);
      }
    }
  }

  /** `e % f`: what an operand raises escapes, the left one first; only integers have a remainder, and none by zero. */
  lemma RemainderExactly(e: RuleExpr, f: RuleExpr, env: map<string, string>)
    ensures var r := Eval(Mod(e, f), env);
            match (Eval(e, env), Eval(f, env))
            case (Raise(error), _) => r == Raise(error)
            case (_, Raise(error)) => r == Raise(error)
            case (Ok(IntValue(a)), Ok(IntValue(b))) =>
              if b == 0 then r == Raise(ZeroDivisionError)
              else
                && r.Ok? && r.value.IntValue?
                && (exists q: int :: a == b * q + r.value.n)
                && (if b > 0 then 0 <= r.value.n < b else b < r.value.n <= 0)
            case _ => r == Raise(TypeError)
  {
    hide PyMod;
    match (Eval(e, env), Eval(f, env))
    case (Ok(IntValue(a)), Ok(IntValue(b))) =>
      if b != 0 {
        PyModExactly(a, b);
      }
    case _ =>
  }
}
