/** What a route decision guarantees, and which predicates and routes it depends on. */
module RoutingProofs {
  import opened Wrappers
  import opened Text
  import opened SqlParser
  import opened SqlRewrite
  import opened Sequences
  import opened Metadata
  import opened Routing

  // ------------------------------------------------------------ targets of an allowed decision

  /** The target is an enabled registered route of a logical table, on the enabled datasource the route names. */
  ghost predicate Registered(db: Store, target: RouteTarget) {
    exists route: PhysicalRoute, datasource: Datasource, logical: LogicalTable ::
      && route in db.routes && route.enabled
      && datasource in db.datasources && datasource.enabled && datasource.id == route.datasourceId
      && logical in db.logicalTables && logical.id == route.logicalTableId
      && target.physicalTableName == route.physicalTableName
      && target.routeValue == route.routeValue
      && target.datasourceCode == datasource.code
      && target.logicalTableName == logical.tableName
  }

  /**
   A rewritten table is a logical table whose plan replaces exactly its own span; any other already has
   its physical name.
   */
  predicate PlanFits(table: ParsedTable, target: RouteTarget) {
    && target.originalTableName == table.tableName
    && match target.rewritePlan
       case None => target.physicalTableName == table.tableName
       case Some(plan) =>
         && target.logicalTableName == table.tableName
         && plan == TableRewritePlan(table.tableName, target.physicalTableName, table.tokenStart, table.tokenEnd)
  }

  /** Only logically routed tables have a diagnostic, and it shows the value the target was found with. */
  predicate DiagnosticFits(table: ParsedTable, target: RouteTarget, d: Option<RouteDiagnostic>) {
    && d.Some? == target.RequiresRewrite()
    && (d.Some? ==>
          && d.value.originalTableName == table.tableName
          && d.value.logicalTableName == target.logicalTableName
          && d.value.missingFactors == []
          && d.value.evaluatedRouteValue == Some(target.routeValue))
  }

  lemma StoreKeys(db: Store)
    requires ValidStore(db)
    ensures RouteKeys(db.routes) && LogicalTableKeys(db.logicalTables)
  {
    hide RouteKeys, FactorKeys, RuleKeys, DatasourceKeys, LogicalTableKeys, PolicyKeys, ForeignKeys;
  }

  lemma RouteByNameFound(db: Store, name: string)
    requires EnabledRouteByName(db, name).Ok? && EnabledRouteByName(db, name).value.Some?
    ensures var route := EnabledRouteByName(db, name).value.value;
            route in db.routes && route.enabled && route.physicalTableName == name
  {
    var rows := EnabledRoutesNamed(db, name);
    assert rows[0] in rows;
  }

  /** A route on a valid store leads to its own datasource, or to none that is enabled. */
  lemma RouteDatasource(db: Store, route: PhysicalRoute)
    requires ValidStore(db) && route in db.routes
    ensures EnabledDatasource(db, DatasourceCodeFromId(db, route.datasourceId)).Ok?
    ensures var d := EnabledDatasource(db, DatasourceCodeFromId(db, route.datasourceId)).value;
            d.Some? ==> d.value in db.datasources && d.value.enabled && d.value.id == route.datasourceId
  {
    hide EnabledDatasource;
    var code := DatasourceCodeFromId(db, route.datasourceId);
    DatasourceLookup(db, code);
    assert HasDatasource(db.datasources, route.datasourceId);
    var i :| 0 <= i < |db.datasources| && db.datasources[i].id == route.datasourceId;
    assert db.datasources[i] in db.datasources;
    var d := EnabledDatasource(db, code).value;
    if d.Some? {
      SameCodeSameDatasource(db.datasources, d.value, DatasourceById(db.datasources, route.datasourceId).value);
    }
  }

  /** The logical table a route belongs to, found by its key. */
  lemma RouteLogicalTable(db: Store, route: PhysicalRoute)
    requires ValidStore(db) && route in db.routes
    ensures LogicalTableById(db.logicalTables, route.logicalTableId).Some?
  {
    assert HasTable(db.logicalTables, route.logicalTableId);
    var i :| 0 <= i < |db.logicalTables| && db.logicalTables[i].id == route.logicalTableId;
    assert db.logicalTables[i] in db.logicalTables;
  }

  lemma PhysicalTargetRegistered(db: Store, table: ParsedTable, route: PhysicalRoute)
    requires ValidStore(db) && route in db.routes && route.enabled && route.physicalTableName == table.tableName
    ensures PhysicalTarget(db, table, route).Ok?
    ensures var o := PhysicalTarget(db, table, route).value;
            o.Routed? ==>
                Registered(db, o.target) && PlanFits(table, o.target) && DiagnosticFits(table, o.target, o.diagnostic)
  {
    hide EnabledDatasource, DatasourceCodeFromId, LogicalTableById, ValidStore;
    RouteDatasource(db, route);
    RouteLogicalTable(db, route);
  }

  lemma LogicalTargetRegistered(db: Store, table: ParsedTable, logical: LogicalTable, value: string, d: RouteDiagnostic)
    requires ValidStore(db) && logical in db.logicalTables && logical.tableName == table.tableName
    requires d.originalTableName == table.tableName && d.logicalTableName == logical.tableName
    requires d.missingFactors == [] && d.evaluatedRouteValue == Some(value)
    ensures LogicalTarget(db, table, logical, value, d).Ok?
    ensures var o := LogicalTarget(db, table, logical, value, d).value;
            o.Routed? ==>
                Registered(db, o.target) && PlanFits(table, o.target) && DiagnosticFits(table, o.target, o.diagnostic)
  {
    RouteLookup(db, logical.id, value);
    hide EnabledDatasource, DatasourceCodeFromId, ValidStore, EnabledRouteByValue;
    var route := EnabledRouteByValue(db, logical.id, value).value;
    if route.Some? {
      RouteDatasource(db, route.value);
    }
  }

  /** A routed table's target is registered and fits the table, and its diagnostic shows the value it was found with. */
  lemma ResolveTableRouted(db: Store, parsed: ParsedSql, ctx: RouteContext, table: ParsedTable)
    requires ValidStore(db)
    ensures var r := ResolveTable(db, parsed, ctx, table);
            r.Ok? && r.value.Routed? ==>
              && Registered(db, r.value.target)
              && PlanFits(table, r.value.target)
              && DiagnosticFits(table, r.value.target, r.value.diagnostic)
  {
    hide EnabledRouteByName, EnabledLogicalTable, PhysicalTarget, LogicalTarget, Registered, PlanFits, DiagnosticFits,
         EnabledRule, CollectFactors, EvaluateRule, RequiredFactors;
    var physical := EnabledRouteByName(db, table.tableName);
    if physical.Ok? {
      if physical.value.Some? {
        RouteByNameFound(db, table.tableName);
        PhysicalTargetRegistered(db, table, physical.value.value);
      } else {
        LogicalTableLookup(db, table.tableName);
        var lookup := EnabledLogicalTable(db, table.tableName);
        if lookup.Ok? && lookup.value.Some? {
          RouteLogicalRegistered(db, parsed, ctx, table, lookup.value.value);
        }
      }
    }
  }

  lemma RouteLogicalRegistered(db: Store, parsed: ParsedSql, ctx: RouteContext, table: ParsedTable,
                               logical: LogicalTable)
    requires ValidStore(db) && logical in db.logicalTables && logical.tableName == table.tableName
    ensures var r := RouteLogical(db, parsed, ctx, table, logical);
            r.Ok? && r.value.Routed? ==>
              && Registered(db, r.value.target)
              && PlanFits(table, r.value.target)
              && DiagnosticFits(table, r.value.target, r.value.diagnostic)
  {
    hide LogicalTarget, Registered, PlanFits, DiagnosticFits, EnabledRule, CollectFactors, EvaluateRule,
         RequiredFactors, ValidStore;
    var fs := RequiredFactors(db, logical.id);
    var rule := EnabledRule(db, logical.id);
    if rule.Ok? && rule.value.Some? {
      var found := CollectFactors(db, logical.id, fs, parsed, table, ctx);
      var value := EvaluateRule(rule.value.value, found.extracted);
      if found.missing == [] && value.Ok? {
        LogicalTargetRegistered(db, table, logical, value.value,
                                Diagnose(db, table, logical, fs, found, Some(rule.value.value), Some(value.value)));
      }
    }
  }

  // ------------------------------------------------------------ the whole decision

  /** The diagnostics of tables that are all routed, in order. */
  ghost function RoutedDiagnostics(db: Store, parsed: ParsedSql, ctx: RouteContext,
                                   tables: seq<ParsedTable>): seq<RouteDiagnostic>
    decreases |tables|
  {
    if tables == [] then []
    else
      var r := ResolveTable(db, parsed, ctx, tables[0]);
      (if r.Ok? && r.value.Routed? && r.value.diagnostic.Some? then [r.value.diagnostic.value] else [])
      + RoutedDiagnostics(db, parsed, ctx, tables[1..])
  }

  ghost predicate RoutedAs(db: Store, parsed: ParsedSql, ctx: RouteContext, table: ParsedTable, target: RouteTarget) {
    var r := ResolveTable(db, parsed, ctx, table);
    r.Ok? && r.value.Routed? && r.value.target == target
  }

  lemma {:induction false} ResolveFromTargets(db: Store, parsed: ParsedSql, ctx: RouteContext, tables: seq<ParsedTable>,
                                              targets: seq<RouteTarget>, diagnostics: seq<RouteDiagnostic>)
    ensures var r := ResolveFrom(db, parsed, ctx, tables, targets, diagnostics);
            r.Ok? ==>
              if r.value.allowed then
                && |r.value.targets| == |targets| + |tables|
                && r.value.targets[..|targets|] == targets
                && (forall i :: 0 <= i < |tables| ==>
                      RoutedAs(db, parsed, ctx, tables[i], r.value.targets[|targets| + i]))
                && r.value.diagnostics == diagnostics + RoutedDiagnostics(db, parsed, ctx, tables)
              else r.value.targets == []
    decreases |tables|
  {
    hide ResolveTable, RoutedAs, RoutedDiagnostics;
    if tables == [] {
      NoDiagnostics(db, parsed, ctx);
    } else {
      var r := ResolveTable(db, parsed, ctx, tables[0]);
      if r.Ok? && r.value.Routed? {
        var more := targets + [r.value.target];
        ResolveFromTargets(db, parsed, ctx, tables[1..], more, Append(diagnostics, r.value.diagnostic));
        var d := ResolveFrom(db, parsed, ctx, tables, targets, diagnostics);
        DiagnosticsCons(db, parsed, ctx, tables, diagnostics);
        if d.Ok? && d.value.allowed {
          RoutedFirst(db, parsed, ctx, tables, targets, r.value.target, d.value.targets);
        }
      }
    }
  }

  lemma NoDiagnostics(db: Store, parsed: ParsedSql, ctx: RouteContext)
    ensures RoutedDiagnostics(db, parsed, ctx, []) == []
  {
  }

  lemma DiagnosticsCons(db: Store, parsed: ParsedSql, ctx: RouteContext, tables: seq<ParsedTable>,
                        diagnostics: seq<RouteDiagnostic>)
    requires tables != []
    ensures var r := ResolveTable(db, parsed, ctx, tables[0]);
            r.Ok? && r.value.Routed? ==>
              Append(diagnostics, r.value.diagnostic) + RoutedDiagnostics(db, parsed, ctx, tables[1..])
              == diagnostics + RoutedDiagnostics(db, parsed, ctx, tables)
  {
    hide ResolveTable;
    var r := ResolveTable(db, parsed, ctx, tables[0]);
    if r.Ok? && r.value.Routed? {
      AppendFront(diagnostics, r.value.diagnostic, RoutedDiagnostics(db, parsed, ctx, tables[1..]));
    }
  }

  lemma AppendFront(ds: seq<RouteDiagnostic>, d: Option<RouteDiagnostic>, rest: seq<RouteDiagnostic>)
    ensures Append(ds, d) + rest == ds + ((if d.Some? then [d.value] else []) + rest)
  {
    if d.Some? {
      assert ds + [d.value] + rest == ds + ([d.value] + rest);
    } else {
      assert [] + rest == rest;
    }
  }

  lemma RoutedFirst(db: Store, parsed: ParsedSql, ctx: RouteContext, tables: seq<ParsedTable>, done: seq<RouteTarget>,
                    target: RouteTarget, all: seq<RouteTarget>)
    requires tables != []
    requires var r := ResolveTable(db, parsed, ctx, tables[0]); r.Ok? && r.value.Routed? && r.value.target == target
    requires |all| == |done| + |tables| && all[..|done| + 1] == done + [target]
    requires forall i :: 0 <= i < |tables| - 1 ==> RoutedAs(db, parsed, ctx, tables[1..][i], all[|done + [target]| + i])
    ensures all[..|done|] == done
    ensures forall i :: 0 <= i < |tables| ==> RoutedAs(db, parsed, ctx, tables[i], all[|done| + i])
  {
    assert RoutedAs(db, parsed, ctx, tables[0], target);
    hide ResolveTable, RoutedAs;
    assert all[..|done|] == all[..|done| + 1][..|done|];
    assert all[|done|] == all[..|done| + 1][|done|];
    forall i | 0 <= i < |tables|
      ensures RoutedAs(db, parsed, ctx, tables[i], all[|done| + i])
    {
      if i > 0 {
        assert RoutedAs(db, parsed, ctx, tables[1..][i - 1], all[|done + [target]| + (i - 1)]);
      }
    }
  }

  /** The targets of an allowed decision are those of its tables. */
  lemma RoutedTargets(db: Store, parsed: ParsedSql, ctx: RouteContext)
    requires ResolveSpec(db, parsed, ctx).Ok? && ResolveSpec(db, parsed, ctx).value.allowed
    ensures var targets := ResolveSpec(db, parsed, ctx).value.targets;
            && |targets| == |parsed.tables|
            && forall i :: 0 <= i < |targets| ==> RoutedAs(db, parsed, ctx, parsed.tables[i], targets[i])
  {
    hide ResolveTable, RoutedAs;
    ResolveFromTargets(db, parsed, ctx, parsed.tables, [], []);
    var targets := ResolveSpec(db, parsed, ctx).value.targets;
    forall i | 0 <= i < |targets|
      ensures RoutedAs(db, parsed, ctx, parsed.tables[i], targets[i])
    {
      assert RoutedAs(db, parsed, ctx, parsed.tables[i], targets[0 + i]);
    }
  }

  /**
   On ALLOW there is one target per parsed table, in order, each registered and fitting its table;
   the diagnostics are those of the routed tables in order. On any rejection there is no target.
   */
  lemma ResolutionInvariant(db: Store, parsed: ParsedSql, ctx: RouteContext)
    requires ValidStore(db)
    ensures var r := ResolveSpec(db, parsed, ctx);
            r.Ok? ==>
              if r.value.allowed then
                && |r.value.targets| == |parsed.tables| > 0
                && (forall i :: 0 <= i < |parsed.tables| ==>
                      Registered(db, r.value.targets[i]) && PlanFits(parsed.tables[i], r.value.targets[i]))
                && r.value.diagnostics == RoutedDiagnostics(db, parsed, ctx, parsed.tables)
                && |r.value.diagnostics| == CountRewrites(r.value.targets)
              else r.value.targets == []
  {
    hide ResolveTable, Registered, PlanFits, ValidStore;
    ResolveFromTargets(db, parsed, ctx, parsed.tables, [], []);
    var r := ResolveSpec(db, parsed, ctx);
    if r.Ok? && r.value.allowed {
      assert r.value.targets != [];
      forall i | 0 <= i < |parsed.tables|
        ensures Registered(db, r.value.targets[i]) && PlanFits(parsed.tables[i], r.value.targets[i])
      {
        assert RoutedAs(db, parsed, ctx, parsed.tables[i], r.value.targets[0 + i]);
        ResolveTableRouted(db, parsed, ctx, parsed.tables[i]);
      }
      forall i | 0 <= i < |parsed.tables|
        ensures RoutedAs(db, parsed, ctx, parsed.tables[i], r.value.targets[i])
      {
        assert RoutedAs(db, parsed, ctx, parsed.tables[i], r.value.targets[0 + i]);
      }
      DiagnosticPerRewrite(db, parsed, ctx, parsed.tables, r.value.targets);
    }
  }

  function CountRewrites(targets: seq<RouteTarget>): nat {
    if targets == [] then 0 else (if targets[0].RequiresRewrite() then 1 else 0) + CountRewrites(targets[1..])
  }

  lemma {:induction false} DiagnosticPerRewrite(db: Store, parsed: ParsedSql, ctx: RouteContext,
                                                tables: seq<ParsedTable>, targets: seq<RouteTarget>)
    requires ValidStore(db) && |tables| == |targets|
    requires forall i :: 0 <= i < |tables| ==> RoutedAs(db, parsed, ctx, tables[i], targets[i])
    ensures |RoutedDiagnostics(db, parsed, ctx, tables)| == CountRewrites(targets)
    decreases |tables|
  {
    hide ResolveTable, Registered, PlanFits, ValidStore;
    if tables != [] {
      assert RoutedAs(db, parsed, ctx, tables[0], targets[0]);
      ResolveTableRouted(db, parsed, ctx, tables[0]);
      forall i | 0 <= i < |tables| - 1
        ensures RoutedAs(db, parsed, ctx, tables[1..][i], targets[1..][i])
      {
        assert RoutedAs(db, parsed, ctx, tables[i + 1], targets[i + 1]);
      }
      DiagnosticPerRewrite(db, parsed, ctx, tables[1..], targets[1..]);
    }
  }

  // ------------------------------------------------------------ factors

  /** The names of the factors, as a set. */
  function FactorNames(fs: seq<RouteFactor>): set<string> {
    set f | f in fs :: f.factorName
  }

  function Names(s: seq<string>): set<string> {
    set x | x in s
  }

  /** Every required factor is either extracted or missing, and (names being unique) never both. */
  lemma {:induction false} FactorsSplit(db: Store, tableId: int, fs: seq<RouteFactor>, parsed: ParsedSql,
                                        table: ParsedTable, ctx: RouteContext)
    requires forall i, j :: 0 <= i < j < |fs| ==> fs[i].factorName != fs[j].factorName
    ensures var found := CollectFactors(db, tableId, fs, parsed, table, ctx);
            && found.extracted.Keys + Names(found.missing) == FactorNames(fs)
            && found.extracted.Keys !! Names(found.missing)
            && forall f :: f in fs ==>
                 FactorValue(db, tableId, f, parsed, table, ctx)
                 == if f.factorName in found.extracted then Some(found.extracted[f.factorName]) else None
  {
    hide FactorValue, FactorNames, Names;
    if fs == [] {
      assert FactorNames(fs) == {} == Names([]) by { NoNames(); }
    } else {
      var front, last := fs[..|fs| - 1], fs[|fs| - 1];
      FactorsSplit(db, tableId, front, parsed, table, ctx);
      var found := CollectFactors(db, tableId, front, parsed, table, ctx);
      NamesGrow(fs, found.missing);
      assert fs == front + [last];
    }
  }

  lemma NoNames()
    ensures FactorNames([]) == {} && Names([]) == {}
  {
  }

  lemma NamesGrow(fs: seq<RouteFactor>, missing: seq<string>)
    requires fs != [] && forall i, j :: 0 <= i < j < |fs| ==> fs[i].factorName != fs[j].factorName
    ensures var front, last := fs[..|fs| - 1], fs[|fs| - 1];
            && FactorNames(fs) == FactorNames(front) + {last.factorName}
            && last.factorName !in FactorNames(front)
            && Names(missing + [last.factorName]) == Names(missing) + {last.factorName}
            && forall f :: f in front ==> f.factorName != last.factorName
  {
    assert fs == fs[..|fs| - 1] + [fs[|fs| - 1]];
  }

  /** On a valid store a table's required factors have distinct names, so they always split. */
  lemma RequiredFactorsSplit(db: Store, tableId: int, parsed: ParsedSql, table: ParsedTable, ctx: RouteContext)
    requires ValidStore(db)
    ensures var fs := RequiredFactors(db, tableId);
            var found := CollectFactors(db, tableId, fs, parsed, table, ctx);
            && found.extracted.Keys + Names(found.missing) == FactorNames(fs)
            && found.extracted.Keys !! Names(found.missing)
            && forall f :: f in fs ==>
                 FactorValue(db, tableId, f, parsed, table, ctx)
                 == if f.factorName in found.extracted then Some(found.extracted[f.factorName]) else None
  {
    hide FactorValue, FactorNames, CollectFactors;
    RequiredNamesDistinct(db, tableId);
    FactorsSplit(db, tableId, RequiredFactors(db, tableId), parsed, table, ctx);
  }

  lemma RequiredNamesDistinct(db: Store, tableId: int)
    requires FactorKeys(db.factors)
    ensures var fs := RequiredFactors(db, tableId);
            forall i, j :: 0 <= i < j < |fs| ==> fs[i].factorName != fs[j].factorName
  {
    var rel := (a: RouteFactor, b: RouteFactor) => (a.logicalTableId, a.factorName) != (b.logicalTableId, b.factorName);
    FilterPairs(rel, (f: RouteFactor) => f.logicalTableId == tableId && f.enabled && f.required, db.factors);
    var fs := RequiredFactors(db, tableId);
    assert forall i, j :: 0 <= i < j < |fs| ==> rel(fs[i], fs[j]);
    assert forall i :: 0 <= i < |fs| ==> fs[i] in fs;
  }

  // ------------------------------------------------------------ physical names

  /** The enabled datasource of a route. */
  ghost predicate Feeds(db: Store, d: Datasource, route: PhysicalRoute) {
    d in db.datasources && d.enabled && d.id == route.datasourceId
  }

  /**
   What becomes of a table that some enabled route has as its physical name: on two routes the lookup
   raises; on one, the table stays itself and goes to that route's datasource, if that is enabled.
   */
  ghost predicate StaysItself(db: Store, table: ParsedTable, r: Result<TableOutcome>) {
    var named := EnabledRoutesNamed(db, table.tableName);
    if |named| != 1 then r == Raise(MultipleResultsFound)
    else
      && r.Ok?
      && match r.value
         case Routed(target, diagnostic) =>
           && target.originalTableName == target.physicalTableName == table.tableName
           && target.rewritePlan == None && diagnostic == None && target.routeValue == named[0].routeValue
           && exists d :: Feeds(db, d, named[0]) && d.code == target.datasourceCode
         case Rejected(reason, diagnostic) =>
           reason == "DATASOURCE_NOT_FOUND" && diagnostic == None && forall d :: !Feeds(db, d, named[0])
  }

  /** A physical name takes precedence over a logical one, whatever the request. */
  lemma PhysicalNameFirst(db: Store, parsed: ParsedSql, ctx: RouteContext, table: ParsedTable)
    requires ValidStore(db) && EnabledRoutesNamed(db, table.tableName) != []
    ensures StaysItself(db, table, ResolveTable(db, parsed, ctx, table))
  {
    hide EnabledRoutesNamed, EnabledLogicalTable, RouteLogical, EnabledDatasource, DatasourceCodeFromId,
         LogicalTableById, ValidStore;
    var named := EnabledRoutesNamed(db, table.tableName);
    if |named| == 1 {
      RouteByNameFound(db, table.tableName);
      RouteDatasource(db, named[0]);
      if EnabledDatasource(db, DatasourceCodeFromId(db, named[0].datasourceId)) == Ok(None) {
        RouteFed(db, named[0]);
      }
    }
  }

  /** A route whose datasource is enabled leads to it. */
  lemma RouteFed(db: Store, route: PhysicalRoute)
    requires ValidStore(db) && route in db.routes
    requires EnabledDatasource(db, DatasourceCodeFromId(db, route.datasourceId)) == Ok(None)
    ensures forall d :: !Feeds(db, d, route)
  {
    hide EnabledDatasource;
    DatasourceLookup(db, DatasourceCodeFromId(db, route.datasourceId));
    forall d | Feeds(db, d, route)
      ensures false
    {
      SameCodeSameDatasource(db.datasources, d, DatasourceById(db.datasources, route.datasourceId).value);
    }
  }

  // ------------------------------------------------------------ rejections and exceptions

  /** No enabled route has the name, so it is looked up as a logical name. */
  predicate NotPhysical(db: Store, name: string) {
    EnabledRoutesNamed(db, name) == []
  }

  /** The enabled logical table of this name. */
  ghost predicate Logical(db: Store, name: string, logical: LogicalTable) {
    logical in db.logicalTables && logical.enabled && logical.tableName == name
  }

  /** Some enabled logical table's physical names begin like this name. */
  ghost predicate LooksPhysical(db: Store, name: string) {
    exists t :: t in db.logicalTables && StartsAs(t, name)
  }

  /** The name starts like the enabled table's physical names: as their template does, up to its first brace if any. */
  predicate StartsAs(t: LogicalTable, name: string) {
    var template := t.physicalNameTemplate;
    t.enabled && exists n :: 0 < n <= |template| && '{' !in template[..n] && template[..n] <= name
                             && (n == |template| || template[n] == '{')
  }

  lemma StartsAsPrefix(t: LogicalTable, name: string)
    ensures var prefix := BeforeBrace(t.physicalNameTemplate);
            StartsAs(t, name) <==> t.enabled && prefix != "" && prefix <= name
  {
    var template := t.physicalNameTemplate;
    var n := IndexOf('{', template);
    assert '{' !in template[..n];
    if StartsAs(t, name) {
      var m :| 0 < m <= |template| && '{' !in template[..m] && template[..m] <= name
               && (m == |template| || template[m] == '{');
      assert forall i :: 0 <= i < m ==> template[..m][i] == template[i];
      assert m == n;
    }
  }

  lemma {:induction false} TemplatesMatched(tables: seq<LogicalTable>, name: string)
    ensures MatchesTemplate(tables, name) <==> exists t :: t in tables && StartsAs(t, name)
  {
    hide BeforeBrace, StartsAs;
    if tables != [] {
      StartsAsPrefix(tables[0], name);
      TemplatesMatched(tables[1..], name);
      assert tables == [tables[0]] + tables[1..];
      if t :| t in tables && StartsAs(t, name) {
        assert t == tables[0] || t in tables[1..];
      }
      if StartsAs(tables[0], name) {
        assert tables[0] in tables;
      }
      if t :| t in tables[1..] && StartsAs(t, name) {
        assert t in tables;
      }
    }
  }

  /**
   A name that no enabled route has is rejected without a diagnostic exactly when no enabled logical
   table has it either.
   */
  lemma UnknownNameRejected(db: Store, parsed: ParsedSql, ctx: RouteContext, table: ParsedTable)
    requires ValidStore(db) && NotPhysical(db, table.tableName)
    ensures (forall t :: !Logical(db, table.tableName, t)) <==>
            ResolveTable(db, parsed, ctx, table)
            == Ok(Rejected(if LooksPhysical(db, table.tableName) then "INVALID_PHYSICAL_TABLE"
                else "LOGICAL_TABLE_NOT_FOUND", None))
  {
    hide EnabledRoutesNamed, EnabledLogicalTable, BeforeBrace, LooksPhysical, MatchesTemplate;
    LogicalTableLookup(db, table.tableName);
    TemplatesFit(db, table.tableName);
    var lookup := EnabledLogicalTable(db, table.tableName);
    if lookup.value.Some? {
      assert Logical(db, table.tableName, lookup.value.value);
      LogicalNotUnknown(db, parsed, ctx, table, lookup.value.value);
    }
  }

  lemma TemplatesFit(db: Store, name: string)
    ensures MatchesTemplate(db.logicalTables, name) <==> LooksPhysical(db, name)
  {
    TemplatesMatched(db.logicalTables, name);
  }

  lemma LogicalNotUnknown(db: Store, parsed: ParsedSql, ctx: RouteContext, table: ParsedTable, logical: LogicalTable)
    ensures var r := RouteLogical(db, parsed, ctx, table, logical);
            r.Ok? && r.value.Rejected? ==> r.value.diagnostic.Some?
  {
    hide EnabledRule, RequiredFactors, CollectFactors, EvaluateRule, Diagnose, EnabledRouteByValue, EnabledDatasource,
         DatasourceCodeFromId;
  }

  /**
   Why a logical table is not routed: it has no rule; a required factor has no value; the computed
   value has no enabled route; or its route's datasource is not enabled. On a valid store nothing else
   stops it except two enabled rules, or a rule that fails on the extracted values.
   */
  lemma LogicalOutcome(db: Store, parsed: ParsedSql, ctx: RouteContext, table: ParsedTable, logical: LogicalTable,
                       rule: RouteRule)
    requires ValidStore(db) && EnabledRule(db, logical.id) == Ok(Some(rule))
    ensures var found := CollectFactors(db, logical.id, RequiredFactors(db, logical.id), parsed, table, ctx);
            var value := EvaluateRule(rule, found.extracted);
            match RouteLogical(db, parsed, ctx, table, logical)
            case Raise(error) => found.missing == [] && value == Raise(error)
            case Ok(Routed(target, _)) => found.missing == [] && value == Ok(target.routeValue)
            case Ok(Rejected(reason, d)) =>
              && d.Some? && d.value.missingFactors == found.missing
              && (reason == "MISSING_ROUTE_FACTOR" <==> found.missing != [])
              && (found.missing == [] ==>
                    && value.Ok? && d.value.evaluatedRouteValue == Some(value.value)
                    && (reason == "PHYSICAL_ROUTE_NOT_FOUND"
                        <==> forall r :: r in db.routes && r.enabled && r.logicalTableId == logical.id ==>
                            r.routeValue != value.value)
                    && (reason == "PHYSICAL_ROUTE_NOT_FOUND" || reason == "DATASOURCE_NOT_FOUND"))
  {
    hide EnabledRule, RequiredFactors, CollectFactors, EvaluateRule, EnabledRouteByValue, EnabledDatasource,
         DatasourceCodeFromId, ValidStore, EnabledRoutesOf, FactorDiagnostics;
    var found := CollectFactors(db, logical.id, RequiredFactors(db, logical.id), parsed, table, ctx);
    var value := EvaluateRule(rule, found.extracted);
    if found.missing == [] && value.Ok? {
      StoreKeys(db);
      RouteLookup(db, logical.id, value.value);
      var route := EnabledRouteByValue(db, logical.id, value.value).value;
      if route.Some? {
        RouteDatasource(db, route.value);
      }
    }
  }

  // ------------------------------------------------------------ alias isolation

  /** The predicates on `column`, whatever their qualifier. */
  function OnColumn(ps: seq<ParsedPredicate>, column: string): seq<ParsedPredicate> {
    if ps == [] then []
    else (if On(ps[0], column) then [ps[0]] else []) + OnColumn(ps[1..], column)
  }

  lemma {:induction false} UnqualifiedValueIsFirst(ps: seq<ParsedPredicate>, column: string)
    ensures var all := OnColumn(ps, column);
            PredicateValue(ps, column, None) == if all == [] then None else Some(all[0].value)
  {
    hide Lower, On;
    if ps != [] {
      SameQualifier(ps[0], column, "");
      UnqualifiedValueIsFirst(ps[1..], column);
    }
  }

  /** The table's own alias has a predicate on `column`, and the first such value is not empty. */
  predicate OwnValue(ps: seq<ParsedPredicate>, column: string, table: ParsedTable) {
    && table.alias.Some?
    && var own := OfAlias(ps, column, table.alias.value);
       own != [] && own[0].value != ""
  }

  /**
   The value a table is routed by: its own alias's first predicate if that is not empty, else the first
   on the column.
   */
  lemma PredicateForExact(ps: seq<ParsedPredicate>, column: string, table: ParsedTable)
    ensures PredicateFor(ps, column, table)
         == if OwnValue(ps, column, table) then Some(OfAlias(ps, column, table.alias.value)[0].value)
            else if OnColumn(ps, column) == [] then None
            else Some(OnColumn(ps, column)[0].value)
  {
    UnqualifiedValueIsFirst(ps, column);
    if table.alias.Some? {
      PredicateValueIsFirst(ps, column, table.alias.value);
    }
  }

  /** The statement column a factor reads, if it reads one. */
  function FactorColumn(f: RouteFactor, ctx: RouteContext): Option<string> {
    var sourceType := Lower(f.sourceType);
    if sourceType == "sql_predicate" then Some(f.sourceKey)
    else if sourceType == "sql_predicate_from_context" then ContextColumn(ctx, f.sourceKey)
    else None
  }

  /** On `column`, both statements give the table the same non-empty value under its own alias. */
  ghost predicate SameOwnValue(p: ParsedSql, q: ParsedSql, column: string, table: ParsedTable) {
    && OwnValue(p.predicates, column, table)
    && OwnValue(q.predicates, column, table)
    && OfAlias(p.predicates, column, table.alias.value)[0].value ==
          OfAlias(q.predicates, column, table.alias.value)[0].value
  }

  /** The factors a table's routing needs. */
  function FactorsFor(db: Store, table: ParsedTable): seq<RouteFactor> {
    match EnabledLogicalTable(db, table.tableName)
    case Ok(Some(logical)) => RequiredFactors(db, logical.id)
    case _ => []
  }

  /** Every column the factors can read is decided, equally, under the table's own alias. */
  ghost predicate DecidedAlike(fs: seq<RouteFactor>, p: ParsedSql, q: ParsedSql, ctx: RouteContext,
                               table: ParsedTable) {
    forall f :: f in fs ==>
      && (FactorColumn(f, ctx).Some? ==> SameOwnValue(p, q, FactorColumn(f, ctx).value, table))
      && (f.sourceKey == "route_suffix" && ContextColumn(ctx, "shard_column").Some? ==>
            SameOwnValue(p, q, ContextColumn(ctx, "shard_column").value, table))
  }

  lemma SameFactorValue(db: Store, tableId: int, f: RouteFactor, p: ParsedSql, q: ParsedSql, table: ParsedTable,
                        ctx: RouteContext)
    requires DecidedAlike([f], p, q, ctx, table)
    ensures FactorValue(db, tableId, f, p, table, ctx) == FactorValue(db, tableId, f, q, table, ctx)
  {
    hide PredicateFor, EnabledRoutesOf;
    assert f in [f];
    if FactorColumn(f, ctx).Some? {
      PredicateForExact(p.predicates, FactorColumn(f, ctx).value, table);
      PredicateForExact(q.predicates, FactorColumn(f, ctx).value, table);
    }
    if f.sourceKey == "route_suffix" && ContextColumn(ctx, "shard_column").Some? {
      PredicateForExact(p.predicates, ContextColumn(ctx, "shard_column").value, table);
      PredicateForExact(q.predicates, ContextColumn(ctx, "shard_column").value, table);
    }
  }

  lemma {:induction false} SameFactors(db: Store, tableId: int, fs: seq<RouteFactor>, p: ParsedSql, q: ParsedSql,
                                       table: ParsedTable, ctx: RouteContext)
    requires DecidedAlike(fs, p, q, ctx, table)
    ensures CollectFactors(db, tableId, fs, p, table, ctx) == CollectFactors(db, tableId, fs, q, table, ctx)
  {
    hide FactorValue;
    if fs != [] {
      SameFactors(db, tableId, fs[..|fs| - 1], p, q, table, ctx);
      SameFactorValue(db, tableId, fs[|fs| - 1], p, q, table, ctx);
    }
  }

  /** A table decided under its own alias is routed alike in both statements, whatever their other predicates are. */
  lemma AliasIsolation(db: Store, p: ParsedSql, q: ParsedSql, ctx: RouteContext, table: ParsedTable)
    requires DecidedAlike(FactorsFor(db, table), p, q, ctx, table)
    ensures ResolveTable(db, p, ctx, table) == ResolveTable(db, q, ctx, table)
  {
    hide EnabledRouteByName, EnabledLogicalTable, EnabledRule, PhysicalTarget, MatchesTemplate, RouteByRule,
         CollectFactors, DecidedAlike;
    var lookup := EnabledLogicalTable(db, table.tableName);
    if lookup.Ok? && lookup.value.Some? {
      var id := lookup.value.value.id;
      SameFactors(db, id, RequiredFactors(db, id), p, q, table, ctx);
    }
  }

  // ------------------------------------------------------------ the legacy suffix

  function RouteValues(routes: seq<PhysicalRoute>): set<string> {
    set r | r in routes :: r.routeValue
  }

  /** The decimals of 0 to m - 1. */
  function Decimals(m: nat): set<string> {
    set k | 0 <= k < m :: IntToString(k)
  }

  lemma {:induction false} DecimalsSize(m: nat)
    ensures |Decimals(m)| == m
  {
    hide IntToString;
    if m > 0 {
      DecimalsSize(m - 1);
      assert Decimals(m) == Decimals(m - 1) + {IntToString(m - 1)};
      forall k | 0 <= k < m - 1
        ensures IntToString(k) != IntToString(m - 1)
      {
        if IntToString(k) == IntToString(m - 1) {
          IntToStringInjective(k, m - 1);
        }
      }
    }
  }

  predicate Serves(r: PhysicalRoute, tableId: int) {
    r.logicalTableId == tableId && r.enabled
  }

  lemma HeadValueFresh(routes: seq<PhysicalRoute>, tableId: int)
    requires RouteKeys(routes) && routes != [] && Serves(routes[0], tableId)
    ensures forall r :: r in routes[1..] && Serves(r, tableId) ==> r.routeValue != routes[0].routeValue
  {
    forall r | r in routes[1..] && Serves(r, tableId)
      ensures r.routeValue != routes[0].routeValue
    {
      var j :| 0 <= j < |routes[1..]| && routes[1..][j] == r;
      assert routes[j + 1] == r;
    }
  }

  lemma RouteValuesCons(r: PhysicalRoute, rest: seq<PhysicalRoute>)
    requires forall x :: x in rest ==> x.routeValue != r.routeValue
    ensures |RouteValues([r] + rest)| == 1 + |RouteValues(rest)|
  {
    var all := [r] + rest;
    forall v | v in RouteValues(all)
      ensures v in {r.routeValue} + RouteValues(rest)
    {
      var x :| x in all && x.routeValue == v;
      assert x == r || x in rest;
    }
    assert r in all;
    assert forall x :: x in rest ==> x in all;
    assert RouteValues(all) == {r.routeValue} + RouteValues(rest);
    assert r.routeValue !in RouteValues(rest);
  }

  /** The enabled routes of one table have distinct route values, so they can be counted by value. */
  lemma {:induction false} RoutesByValue(routes: seq<PhysicalRoute>, tableId: int)
    requires RouteKeys(routes)
    ensures var own := Filter((r: PhysicalRoute) => r.logicalTableId == tableId && r.enabled, routes);
            |RouteValues(own)| == |own|
  {
    if routes != [] {
      var p := (r: PhysicalRoute) => r.logicalTableId == tableId && r.enabled;
      assert RouteKeys(routes[1..]);
      RoutesByValue(routes[1..], tableId);
      var rest := Filter(p, routes[1..]);
      if Serves(routes[0], tableId) {
        HeadValueFresh(routes, tableId);
        assert forall x :: x in rest ==> x.routeValue != routes[0].routeValue;
        hide RouteKeys, RouteValues;
        RouteValuesCons(routes[0], rest);
        assert Filter(p, routes) == [routes[0]] + rest;
      } else {
        assert Filter(p, routes) == [] + rest == rest;
      }
    }
  }

  /** Every integer value leads to an enabled route under the suffix "value mod route count". */
  ghost predicate LegacyTotal(db: Store, tableId: int) {
    var count := |EnabledRoutesOf(db, tableId)|;
    count > 0 && forall n: int :: LegacyFound(db, tableId, n, count)
  }

  ghost predicate LegacyFound(db: Store, tableId: int, n: int, count: nat)
    requires count > 0
  {
    var r := EnabledRouteByValue(db, tableId, IntToString(n % count));
    r.Ok? && r.value.Some?
  }

  lemma FoundIsListed(db: Store, tableId: int, value: string)
    requires RouteKeys(db.routes)
    ensures var r := EnabledRouteByValue(db, tableId, value);
            r.Ok? && (r.value.Some? <==> value in RouteValues(EnabledRoutesOf(db, tableId)))
  {
    RouteLookup(db, tableId, value);
    var own := EnabledRoutesOf(db, tableId);
    var r := EnabledRouteByValue(db, tableId, value).value;
    if r.Some? {
      assert r.value in own;
    }
  }

  /**
   The legacy suffix finds a route for every integer exactly when the route values are the decimals
   below their count.
   */
  lemma LegacySuffixTotal(db: Store, tableId: int)
    requires RouteKeys(db.routes) && |EnabledRoutesOf(db, tableId)| > 0
    ensures LegacyTotal(db, tableId)
       <==> RouteValues(EnabledRoutesOf(db, tableId)) == Decimals(|EnabledRoutesOf(db, tableId)|)
  {
    hide IntToString, EnabledRouteByValue;
    var own := EnabledRoutesOf(db, tableId);
    var count := |own|;
    if RouteValues(own) == Decimals(count) {
      forall n: int
        ensures LegacyFound(db, tableId, n, count)
      {
        FoundIsListed(db, tableId, IntToString(n % count));
      }
    }
    if LegacyTotal(db, tableId) {
      forall k | 0 <= k < count
        ensures IntToString(k) in RouteValues(own)
      {
        assert LegacyFound(db, tableId, k, count);
        assert k % count == k;
        FoundIsListed(db, tableId, IntToString(k));
      }
      assert Decimals(count) <= RouteValues(own);
      DecimalsSize(count);
      RoutesByValue(db.routes, tableId);
      SubsetOfSameSize(Decimals(count), RouteValues(own));
    }
  }

  lemma SubsetOfSameSize(a: set<string>, b: set<string>)
    requires a <= b && |a| == |b|
    ensures a == b
  {
    assert |b - a| == |b| - |a|;
  }

  /**
   With route values exactly the decimals of 0 to m - 1, the derived suffix of any integer value is
   that value modulo m, and the route it names exists.
   */
  lemma LegacySuffixIsModulus(db: Store, tableId: int, parsed: ParsedSql, table: ParsedTable, ctx: RouteContext, m: nat,
                              n: int)
    requires RouteKeys(db.routes) && m > 0
    requires RouteValues(EnabledRoutesOf(db, tableId)) == Decimals(m)
    requires ContextColumn(ctx, "shard_column").Some?
    requires var v := PredicateFor(parsed.predicates, ContextColumn(ctx, "shard_column").value, table);
             v.Some? && ParseInt(v.value) == Some(n)
    ensures DeriveLegacySuffix(db, tableId, parsed, table, ctx) == Some(IntToString(n % m))
    ensures LegacyFound(db, tableId, n, m)
  {
    hide IntToString, EnabledRouteByValue, PredicateFor, ParseInt;
    DecimalsSize(m);
    RoutesByValue(db.routes, tableId);
    assert |EnabledRoutesOf(db, tableId)| == m;
    FoundIsListed(db, tableId, IntToString(n % m));
  }
}
