/** An import does not change how any table that its rows do not configure is routed. */
module OtherTables {
  import opened Wrappers
  import opened Sequences
  import opened Identifiers
  import opened SqlParser
  import opened Metadata
  import opened Routing
  import opened RoutingProofs
  import opened Importer
  import opened ImporterProofs
  import opened Reimport
  import opened ReimportProofs
  import opened ReimportMerge
  import opened ReimportTwice
  import opened ReimportRuns
  import opened BundleReady
  import opened ImportRouting

  /** The bundle has no table of this name. */
  predicate NotImported(b: SyncBundle, name: string) {
    forall i :: 0 <= i < |b.logicalTables| ==> b.logicalTables[i].tableName != name
  }

  /** Filtering a store's rows and then the imported ones, none of which is meant. */
  lemma FilterOld<T(!new)>(p: T -> bool, all: seq<T>, kept: seq<T>)
    requires kept <= all && forall i :: |kept| <= i < |all| ==> !p(all[i])
    ensures Filter(p, all) == Filter(p, kept)
  {
    var added := all[|kept|..];
    assert all == kept + added;
    FilterAppend(p, kept, added);
    FilterNone(p, added);
  }

  /** The lookups by a foreign table's id find what they found before. */
  lemma SameChildren(f: Store, n: int, b: SyncBundle, id: int, value: string)
    requires id < n
    ensures var db := Merge(f, n, b);
            && RequiredFactors(db, id) == RequiredFactors(f, id)
            && EnabledRule(db, id) == EnabledRule(f, id)
            && EnabledRoutesOf(db, id) == EnabledRoutesOf(f, id)
            && EnabledRouteByValue(db, id, value) == EnabledRouteByValue(f, id, value)
  {
    hide Filter, DatasourceRows, TableRows, FactorRows, RuleRows, RouteRows, TableIndex, DatasourceIndex;
    var db := Merge(f, n, b);
    FilterOld((x: RouteFactor) => x.logicalTableId == id && x.enabled && x.required, db.factors, f.factors);
    FilterOld((x: RouteRule) => x.logicalTableId == id && x.enabled, db.rules, f.rules);
    FilterOld((x: PhysicalRoute) => x.logicalTableId == id && x.enabled, db.routes, f.routes);
    FilterOld((x: PhysicalRoute) => x.logicalTableId == id && x.routeValue == value && x.enabled, db.routes, f.routes);
  }

  lemma SameTableLookup(f: Store, n: int, b: SyncBundle, name: string)
    requires NotImported(b, name)
    ensures EnabledLogicalTable(Merge(f, n, b), name) == EnabledLogicalTable(f, name)
  {
    hide Filter, DatasourceRows, FactorRows, RuleRows, RouteRows, TableIndex, DatasourceIndex;
    var db := Merge(f, n, b);
    FilterOld((t: LogicalTable) => t.tableName == name && t.enabled, db.logicalTables, f.logicalTables);
  }

  lemma SamePhysicalLookup(f: Store, n: int, b: SyncBundle, name: string)
    requires EnabledRoutesNamed(Merge(f, n, b), name) == []
    ensures EnabledRoutesNamed(f, name) == []
  {
    hide Filter, DatasourceRows, TableRows, FactorRows, RuleRows, RouteRows;
    var db := Merge(f, n, b);
    FilterAppend((r: PhysicalRoute) => r.physicalTableName == name && r.enabled, f.routes, db.routes[|f.routes|..]);
    assert db.routes == f.routes + db.routes[|f.routes|..];
  }

  lemma {:induction false} ByIdAppend(a: seq<Datasource>, b: seq<Datasource>, id: int)
    requires DatasourceById(a, id).Some?
    ensures DatasourceById(a + b, id) == DatasourceById(a, id)
  {
    assert (a + b)[0] == a[0] && (a + b)[1..] == a[1..] + b;
    if a[0].id != id {
      ByIdAppend(a[1..], b, id);
    }
  }

  /** A foreign route leads to the datasource it led to before. */
  lemma SameDatasource(f: Store, n: int, b: SyncBundle, route: PhysicalRoute)
    requires ValidStore(Merge(f, n, b)) && Settled(f, n) && route in f.routes
    ensures var code := DatasourceCodeFromId(f, route.datasourceId);
            && DatasourceCodeFromId(Merge(f, n, b), route.datasourceId) == code
            && EnabledDatasource(Merge(f, n, b), code) == EnabledDatasource(f, code)
  {
    hide Filter, TableRows, FactorRows, RuleRows, RouteRows, DatasourceRows, NothingImported, RefersBefore, TableIndex,
         DatasourceIndex, FactorKeys, RuleKeys, RouteKeys, LogicalTableKeys, PolicyKeys, HasTable;
    var db := Merge(f, n, b);
    var rows := DatasourceRows(n, b.datasources);
    assert route in db.routes;
    RouteBefore(f, n, route);
    var k :| 0 <= k < |db.datasources| && db.datasources[k].id == route.datasourceId;
    assert k < |f.datasources| && f.datasources[k] in f.datasources;
    ByIdAppend(f.datasources, rows, route.datasourceId);
    var d := DatasourceById(f.datasources, route.datasourceId).value;
    NoOtherCode(f.datasources, rows, d);
    FilterOld((x: Datasource) => x.code == d.code && x.enabled, db.datasources, f.datasources);
  }

  lemma RouteBefore(f: Store, n: int, route: PhysicalRoute)
    requires Settled(f, n) && route in f.routes
    ensures route.datasourceId < n
  {
    hide NothingImported, RefersBefore;
  }

  lemma NoOtherCode(a: seq<Datasource>, b: seq<Datasource>, d: Datasource)
    requires DatasourceKeys(a + b) && d in a
    ensures forall i :: |a| <= i < |a + b| ==> (a + b)[i].code != d.code
  {
    var j :| 0 <= j < |a| && a[j] == d;
    assert (a + b)[j] == d;
  }

  lemma {:induction false} SameFactorsCollected(f: Store, n: int, b: SyncBundle, id: int, fs: seq<RouteFactor>,
                                                parsed: ParsedSql, t: ParsedTable, ctx: RouteContext)
    requires id < n
    ensures CollectFactors(Merge(f, n, b), id, fs, parsed, t, ctx) == CollectFactors(f, id, fs, parsed, t, ctx)
    decreases |fs|
  {
    hide Merge, ExtractFactorValue, EnabledRoutesOf, EnabledRule, RequiredFactors, EnabledRouteByValue;
    if fs != [] {
      SameChildren(f, n, b, id, "");
      SameFactorsCollected(f, n, b, id, fs[..|fs| - 1], parsed, t, ctx);
    }
  }

  lemma SameTarget(f: Store, n: int, b: SyncBundle, t: ParsedTable, logical: LogicalTable, value: string,
                   d: RouteDiagnostic)
    requires ValidStore(Merge(f, n, b)) && Settled(f, n) && logical.id < n
    ensures LogicalTarget(Merge(f, n, b), t, logical, value, d) == LogicalTarget(f, t, logical, value, d)
  {
    hide Merge, EnabledDatasource, DatasourceCodeFromId, ValidStore, Settled, EnabledRouteByValue, EnabledRoutesOf,
         EnabledRule, RequiredFactors;
    SameChildren(f, n, b, logical.id, value);
    var found := EnabledRouteByValue(f, logical.id, value);
    if found.Ok? && found.value.Some? {
      FoundRoute(f, logical.id, value);
      SameDatasource(f, n, b, found.value.value);
    }
  }

  lemma FoundRoute(db: Store, id: int, value: string)
    requires EnabledRouteByValue(db, id, value).Ok? && EnabledRouteByValue(db, id, value).value.Some?
    ensures EnabledRouteByValue(db, id, value).value.value in db.routes
  {
    var rows := Filter((r: PhysicalRoute) => r.logicalTableId == id && r.routeValue == value && r.enabled, db.routes);
    assert rows[0] in rows;
  }

  lemma FoundTable(f: Store, n: int, name: string)
    requires Settled(f, n) && EnabledLogicalTable(f, name).Ok? && EnabledLogicalTable(f, name).value.Some?
    ensures EnabledLogicalTable(f, name).value.value.id < n
  {
    hide NothingImported, RefersBefore;
    var rows := Filter((t: LogicalTable) => t.tableName == name && t.enabled, f.logicalTables);
    assert rows[0] in rows;
  }

  lemma SameLogical(f: Store, n: int, b: SyncBundle, parsed: ParsedSql, ctx: RouteContext, t: ParsedTable,
                    logical: LogicalTable)
    requires ValidStore(Merge(f, n, b)) && Settled(f, n) && logical.id < n
    ensures RouteLogical(Merge(f, n, b), parsed, ctx, t, logical) == RouteLogical(f, parsed, ctx, t, logical)
  {
    hide Merge, ValidStore, Settled, EnabledRouteByValue, EnabledRoutesOf, EnabledRule, RequiredFactors,
         CollectFactors, LogicalTarget, EvaluateRule, FactorDiagnostics;
    SameChildren(f, n, b, logical.id, "");
    var fs := RequiredFactors(f, logical.id);
    SameFactorsCollected(f, n, b, logical.id, fs, parsed, t, ctx);
    var found := CollectFactors(f, logical.id, fs, parsed, t, ctx);
    var rule := EnabledRule(f, logical.id);
    if rule.Ok? && rule.value.Some? {
      var value := EvaluateRule(rule.value.value, found.extracted);
      if value.Ok? {
        SameTarget(f, n, b, t, logical, value.value,
            Diagnose(f, t, logical, fs, found, Some(rule.value.value), Some(value.value)));
      }
    }
  }

  /** A rejection for want of any table of the name. */
  predicate Unknown(r: Result<TableOutcome>) {
    && r.Ok? && r.value.Rejected? && r.value.diagnostic == None
    && (r.value.reasonCode == "INVALID_PHYSICAL_TABLE" || r.value.reasonCode == "LOGICAL_TABLE_NOT_FOUND")
  }

  /** The same outcome; an unknown name may be unknown for the other reason, as new tables bring new templates. */
  predicate SameOutcome(a: Result<TableOutcome>, b: Result<TableOutcome>) {
    a == b || (Unknown(a) && Unknown(b))
  }

  lemma OtherResolved(f: Store, n: int, b: SyncBundle, parsed: ParsedSql, ctx: RouteContext, t: ParsedTable)
    requires ValidStore(Merge(f, n, b)) && Settled(f, n) && NotImported(b, t.tableName)
    requires EnabledRoutesNamed(Merge(f, n, b), t.tableName) == []
    ensures SameOutcome(ResolveTable(f, parsed, ctx, t), ResolveTable(Merge(f, n, b), parsed, ctx, t))
  {
    hide Merge, ValidStore, Settled, EnabledRoutesNamed, EnabledLogicalTable, RouteLogical, PhysicalTarget,
         MatchesTemplate, NotImported;
    SamePhysicalLookup(f, n, b, t.tableName);
    SameTableLookup(f, n, b, t.tableName);
    var found := EnabledLogicalTable(f, t.tableName);
    if found.Ok? && found.value.Some? {
      FoundTable(f, n, t.tableName);
      SameLogical(f, n, b, parsed, ctx, t, found.value.value);
    }
  }

  lemma UnconfiguredNotImported(hash: Hasher, rows: seq<TableConfigRow>, connection: Connection, name: string)
    requires BuildSpec(hash, rows, connection).Ok? && name !in GroupKeys(hash, Kept(rows))
    ensures NotImported(BuildSpec(hash, rows, connection).value, name)
  {
    hide BuildSpec, SortedKeys, Kept, GroupKeys;
    BuiltNamed(hash, rows, connection);
    KeysReady(hash, Kept(rows));
  }

  /**
   A committed import does not change how a table that its rows do not configure is routed: whatever
   the request, the outcome is the one on the foreign rows alone, target, datasource and diagnostics
   included. (Only a name that is unknown on both may be so for the other reason.) A name that an
   enabled route has as its physical name stays itself.
   */
  lemma OtherTableKept(s: Session, hash: Hasher, rows: seq<TableConfigRow>, connection: Connection, db: Store,
                       parsed: ParsedSql, ctx: RouteContext, t: ParsedTable)
    requires ImportedInto(s, hash, rows, connection, db) && t.tableName !in GroupKeys(hash, Kept(rows))
    ensures var r := ResolveTable(db, parsed, ctx, t);
            if EnabledRoutesNamed(db, t.tableName) == [] then
              SameOutcome(ResolveTable(Foreign(EnsureDefaultPolicy(s).db), parsed, ctx, t), r)
            else StaysItself(db, t, r)
  {
    hide ImportedInto, BuildSpec, EnabledRoutesNamed, ResolveTable, Kept, GroupKeys, Merge, Settled, Loadable,
         ValidStore, NotImported, Foreign, EnsureDefaultPolicy, StaysItself;
    assert BuildSpec(hash, rows, connection).Ok? by { ImportBuilds(s, hash, rows, connection, db); }
    var f, n := ImportedParts(s, hash, rows, connection, db);
    if EnabledRoutesNamed(db, t.tableName) == [] {
      UnconfiguredNotImported(hash, rows, connection, t.tableName);
      OtherResolved(f, n, BuildSpec(hash, rows, connection).value, parsed, ctx, t);
    } else {
      PhysicalNameFirst(db, parsed, ctx, t);
    }
  }

  /**
   Imports never reroute what they do not configure: of two imports with any run of other re-imports
   between them, a table that neither configures (nor names physically) has the same outcome after both.
   */
  lemma ImportsKeepOthers(s: Session, bs: seq<SyncBundle>, hash: Hasher, connection: Connection,
                          rows: seq<TableConfigRow>, db: Store, later: seq<TableConfigRow>, db': Store,
                          parsed: ParsedSql, ctx: RouteContext, t: ParsedTable)
    requires ImportedInto(s, hash, rows, connection, db) && ImportedInto(Attempts(s, bs), hash, later, connection, db')
    requires t.tableName !in GroupKeys(hash, Kept(rows)) && t.tableName !in GroupKeys(hash, Kept(later))
    requires EnabledRoutesNamed(db, t.tableName) == [] && EnabledRoutesNamed(db', t.tableName) == []
    ensures SameOutcome(ResolveTable(db, parsed, ctx, t), ResolveTable(db', parsed, ctx, t))
  {
    hide EnabledRoutesNamed, ResolveTable, Kept, GroupKeys, Foreign, EnsureDefaultPolicy, BuildSpec, SyncSpec,
         ValidSession, ForeignRouteOnImport, Attempts;
    RunsKeepForeign(s, bs);
    OtherTableKept(s, hash, rows, connection, db, parsed, ctx, t);
    OtherTableKept(Attempts(s, bs), hash, later, connection, db', parsed, ctx, t);
  }
}
