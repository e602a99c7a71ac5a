/** From configuration rows to checked statements: where an imported statement goes, and when its check is stable. */
module ImportedChecks {
  import opened Wrappers
  import opened Text
  import opened Sequences
  import opened Identifiers
  import opened SqlParser
  import opened SqlRewrite
  import opened RewriteTransfer
  import opened Precheck
  import opened Metadata
  import opened Routing
  import opened RoutingProofs
  import opened FilterChain
  import opened Checker
  import opened Importer
  import opened ImporterProofs
  import opened Reimport
  import opened ReimportMerge
  import opened ReimportTwice
  import opened ImportRouting
  import opened OtherTables

  // ------------------------------------------------------------ from the statement to the declared tables

  /** The rows declare this physical table and datasource for what the request asks of the table. */
  ghost predicate DeclaredFor(hash: Hasher, rows: seq<TableConfigRow>, t: ParsedTable, asked: Asked, physical: string,
                              code: string) {
    asked.AskedValue? && Declares(hash, Kept(rows), t.tableName, asked.value, physical, code)
  }

  /** The rows configure the table's name, and no enabled route has it as a physical name. */
  predicate Configured(hash: Hasher, rows: seq<TableConfigRow>, db: Store, t: ParsedTable) {
    t.tableName in GroupKeys(hash, Kept(rows)) && EnabledRoutesNamed(db, t.tableName) == []
  }

  /** A configured table is routed exactly when something is declared for it, which is then where it goes. */
  lemma RoutedWhenDeclared(s: Session, hash: Hasher, rows: seq<TableConfigRow>, connection: Connection, db: Store,
                           parsed: ParsedSql, ctx: RouteContext, t: ParsedTable)
    requires ImportedInto(s, hash, rows, connection, db) && Configured(hash, rows, db, t)
    ensures var asked := AskedOf(hash, rows, db, parsed, ctx, t);
            var r := ResolveTable(db, parsed, ctx, t);
            && (r.Ok? && r.value.Routed? <==> exists p, d :: DeclaredFor(hash, rows, t, asked, p, d))
            && (r.Ok? && r.value.Routed? ==>
                  forall p, d :: DeclaredFor(hash, rows, t, asked, p, d)
                                 <==> (p, d) == (r.value.target.physicalTableName, r.value.target.datasourceCode))
  {
    hide ImportedInto, AskedOf, ResolveTable, EnabledRoutesNamed, GroupKeys, Kept, Declares;
    ImportedTableReaches(s, hash, rows, connection, db, parsed, ctx, t);
    var r := ResolveTable(db, parsed, ctx, t);
    if r.Ok? && r.value.Routed? {
      var asked := AskedOf(hash, rows, db, parsed, ctx, t);
      assert DeclaredFor(hash, rows, t, asked, r.value.target.physicalTableName, r.value.target.datasourceCode);
    }
  }

  /** If every table is routed, so is the statement. */
  lemma {:induction false} AllRouted(db: Store, parsed: ParsedSql, ctx: RouteContext, tables: seq<ParsedTable>,
                                     targets: seq<RouteTarget>, diagnostics: seq<RouteDiagnostic>)
    requires forall t :: t in tables ==>
          ResolveTable(db, parsed, ctx, t).Ok? && ResolveTable(db, parsed, ctx, t).value.Routed?
    ensures var r := ResolveFrom(db, parsed, ctx, tables, targets, diagnostics);
            r.Ok? && r.value.allowed
    decreases |tables|
  {
    hide ResolveTable;
    if tables != [] {
      var r := ResolveTable(db, parsed, ctx, tables[0]).value;
      AllRouted(db, parsed, ctx, tables[1..], targets + [r.target], Append(diagnostics, r.diagnostic));
    }
  }

  /** Routing succeeded: the statement has targets, whether or not the filters then let it through. */
  predicate CheckRoutes(r: Result<CheckResult>) {
    r.Ok? && r.value.physicalTables != []
  }

  /** A check that routes, taken apart. */
  lemma RoutedCheck(db: Store, explain: Explainer, sql: string, ctx: RouteContext) returns (targets: seq<RouteTarget>)
    requires ValidStore(db) && CheckRoutes(CheckSpec(db, explain, sql, ctx))
    ensures var r := CheckSpec(db, explain, sql, ctx).value;
            && r.physicalTables == PhysicalNames(targets) && r.datasourceCodes == Codes(targets)
            && r.rewrittenSql == RewriteSpec(sql, RewritePlans(targets))
            && PlansFor(ParseSpec(sql).tables, PhysicalNames(targets), RewritePlans(targets))
    ensures |targets| == |ParseSpec(sql).tables|
    ensures forall i :: 0 <= i < |targets| ==> RoutedAs(db, ParseSpec(sql), ctx, ParseSpec(sql).tables[i], targets[i])
  {
    hide Evaluate, ParseSpec, ResolveSpec, RoutedAs, Registered, PlanFits, ValidStore, PlansFor, RewriteSpec,
         RewritePlans, RunSpec;
    var parsed := ParseSpec(sql);
    ResolutionInvariant(db, parsed, ctx);
    RoutedTargets(db, parsed, ctx);
    targets := ResolveSpec(db, parsed, ctx).value.targets;
    PlansFit(parsed.tables, targets);
    OriginalKept(sql);
  }

  /** The check routes exactly when the guard allows the statement and routing does. */
  lemma RoutesWhenResolved(db: Store, explain: Explainer, sql: string, ctx: RouteContext)
    requires ValidStore(db)
    ensures var route := ResolveSpec(db, ParseSpec(sql), ctx);
            CheckRoutes(CheckSpec(db, explain, sql, ctx)) <==> Evaluate(sql).allowed && route.Ok? && route.value.allowed
  {
    hide Evaluate, ParseSpec, ResolveSpec, Registered, PlanFits, ValidStore, RewriteSpec, RewritePlans, RunSpec;
    CheckIsFirstRefusal(db, explain, sql, ctx);
    ResolutionInvariant(db, ParseSpec(sql), ctx);
  }

  /**
   From the SQL text to the configuration: after a committed import, wherever a check routes a
   statement, every configured table goes to the physical table and datasource that the rows declare
   for what the request asks of it, and to nothing else; and when the physical names are identifiers
   the rewritten text, parsed again, names exactly those tables.
   */
  lemma CheckReachesDeclared(s: Session, hash: Hasher, rows: seq<TableConfigRow>, connection: Connection, db: Store,
                             explain: Explainer, sql: string, ctx: RouteContext)
    requires ImportedInto(s, hash, rows, connection, db)
    requires CheckRoutes(CheckSpec(db, explain, sql, ctx))
    ensures var r := CheckSpec(db, explain, sql, ctx).value;
            var parsed := ParseSpec(sql);
            && |r.physicalTables| == |r.datasourceCodes| == |parsed.tables|
            && (forall i, p, d :: 0 <= i < |parsed.tables| && Configured(hash, rows, db, parsed.tables[i]) ==>
                  (DeclaredFor(hash, rows, parsed.tables[i], AskedOf(hash, rows, db, parsed, ctx, parsed.tables[i]), p,
                      d)
                   <==> (p, d) == (r.physicalTables[i], r.datasourceCodes[i])))
            && (AllIdents(r.physicalTables) ==>
                  var after := ParseSpec(r.rewrittenSql).tables;
                  |after| == |parsed.tables| && forall i :: 0 <= i < |after| ==>
                      after[i].tableName == r.physicalTables[i])
  {
    hide ImportedInto, CheckSpec, ParseSpec, AskedOf, ResolveTable, Configured, DeclaredFor, PlansFor, RewriteSpec,
         RewritePlans, AllIdents, ValidStore;
    ImportIsValid(s, hash, rows, connection, db);
    var targets := RoutedCheck(db, explain, sql, ctx);
    var parsed := ParseSpec(sql);
    forall i, p, d | 0 <= i < |parsed.tables| && Configured(hash, rows, db, parsed.tables[i])
      ensures DeclaredFor(hash, rows, parsed.tables[i], AskedOf(hash, rows, db, parsed, ctx, parsed.tables[i]), p, d)
         <==> (p, d) == (targets[i].physicalTableName, targets[i].datasourceCode)
    {
      assert RoutedAs(db, parsed, ctx, parsed.tables[i], targets[i]);
      RoutedWhenDeclared(s, hash, rows, connection, db, parsed, ctx, parsed.tables[i]);
    }
    if AllIdents(PhysicalNames(targets)) {
      ParseAfterRewrite(sql, PhysicalNames(targets), RewritePlans(targets));
    }
  }

  /**
   What routes a table after an import: the one enabled route that has the name as its physical name,
   on an enabled datasource; or, for a configured table, something declared for what the request asks
   of it; or, for any other, what routed it on the foreign rows alone.
   */
  ghost predicate HasWay(s: Session, hash: Hasher, rows: seq<TableConfigRow>, db: Store, parsed: ParsedSql,
                         ctx: RouteContext, t: ParsedTable) {
    var named := EnabledRoutesNamed(db, t.tableName);
    if named != [] then |named| == 1 && exists d :: Feeds(db, d, named[0])
    else if t.tableName in GroupKeys(hash, Kept(rows)) then
      exists p, d :: DeclaredFor(hash, rows, t, AskedOf(hash, rows, db, parsed, ctx, t), p, d)
    else
      var r := ResolveTable(Foreign(EnsureDefaultPolicy(s).db), parsed, ctx, t);
      r.Ok? && r.value.Routed?
  }

  lemma RoutedByItsWay(s: Session, hash: Hasher, rows: seq<TableConfigRow>, connection: Connection, db: Store,
                       parsed: ParsedSql, ctx: RouteContext, t: ParsedTable)
    requires ImportedInto(s, hash, rows, connection, db)
    ensures var r := ResolveTable(db, parsed, ctx, t);
            r.Ok? && r.value.Routed? <==> HasWay(s, hash, rows, db, parsed, ctx, t)
  {
    hide ImportedInto, ResolveTable, AskedOf, EnabledRoutesNamed, GroupKeys, Kept, DeclaredFor, Foreign,
         EnsureDefaultPolicy, ValidStore, Feeds;
    if EnabledRoutesNamed(db, t.tableName) != [] {
      ImportIsValid(s, hash, rows, connection, db);
      PhysicalNameFirst(db, parsed, ctx, t);
    } else if t.tableName in GroupKeys(hash, Kept(rows)) {
      RoutedWhenDeclared(s, hash, rows, connection, db, parsed, ctx, t);
    } else {
      OtherTableKept(s, hash, rows, connection, db, parsed, ctx, t);
    }
  }

  /**
   After a committed import a statement is routed if and only if the guard allows it, it has a table,
   and every one of its tables has a way: as a physical name, as a configured table for which the rows
   declare what the request asks, or as a table of the foreign rows.
   */
  lemma CheckRoutesExactly(s: Session, hash: Hasher, rows: seq<TableConfigRow>, connection: Connection, db: Store,
                           explain: Explainer, sql: string, ctx: RouteContext)
    requires ImportedInto(s, hash, rows, connection, db)
    ensures var parsed := ParseSpec(sql);
            CheckRoutes(CheckSpec(db, explain, sql, ctx)) <==>
            && Evaluate(sql).allowed && parsed.tables != []
            && forall t :: t in parsed.tables ==> HasWay(s, hash, rows, db, parsed, ctx, t)
  {
    hide ImportedInto, CheckSpec, ParseSpec, ResolveTable, HasWay, ValidStore, Evaluate;
    ImportIsValid(s, hash, rows, connection, db);
    var parsed := ParseSpec(sql);
    RoutesWhenResolved(db, explain, sql, ctx);
    forall t | t in parsed.tables
      ensures var r := ResolveTable(db, parsed, ctx, t);
              r.Ok? && r.value.Routed? <==> HasWay(s, hash, rows, db, parsed, ctx, t)
    {
      RoutedByItsWay(s, hash, rows, connection, db, parsed, ctx, t);
    }
    ResolvedWhenRouted(db, parsed, ctx);
  }

  lemma ResolvedWhenRouted(db: Store, parsed: ParsedSql, ctx: RouteContext)
    ensures var r := ResolveSpec(db, parsed, ctx);
            r.Ok? && r.value.allowed <==>
            && parsed.tables != []
            && forall t :: t in parsed.tables ==>
                  ResolveTable(db, parsed, ctx, t).Ok? && ResolveTable(db, parsed, ctx, t).value.Routed?
  {
    hide ResolveTable;
    if forall t :: t in parsed.tables ==>
        ResolveTable(db, parsed, ctx, t).Ok? && ResolveTable(db, parsed, ctx, t).value.Routed? {
      AllRouted(db, parsed, ctx, parsed.tables, [], []);
    }
    var r := ResolveSpec(db, parsed, ctx);
    if parsed.tables != [] && r.Ok? && r.value.allowed {
      RoutedTargets(db, parsed, ctx);
      forall t | t in parsed.tables
        ensures ResolveTable(db, parsed, ctx, t).Ok? && ResolveTable(db, parsed, ctx, t).value.Routed?
      {
        var i :| 0 <= i < |parsed.tables| && parsed.tables[i] == t;
        assert RoutedAs(db, parsed, ctx, parsed.tables[i], r.value.targets[i]);
      }
    }
  }

  // ------------------------------------------------------------ when checks over an import are stable

  /** No two enabled routes among these have the same physical name. */
  ghost predicate Apart(routes: seq<PhysicalRoute>) {
    forall i, j :: 0 <= i < j < |routes| && routes[i].enabled && routes[j].enabled ==>
      routes[i].physicalTableName != routes[j].physicalTableName
  }

  lemma {:induction false} FilterCounts<T(!new)>(p: T -> bool, s: seq<T>)
    ensures |Filter(p, s)| <= 1 <==> forall i, j :: 0 <= i < j < |s| ==> !(p(s[i]) && p(s[j]))
  {
    if forall i, j :: 0 <= i < j < |s| ==> !(p(s[i]) && p(s[j])) {
      FilterAtMostOne(p, s);
    } else {
      var i, j :| 0 <= i < j < |s| && p(s[i]) && p(s[j]);
      assert s == s[..j] + s[j..];
      FilterAppend(p, s[..j], s[j..]);
      assert s[..j][i] in Filter(p, s[..j]);
      assert s[j..][0] in Filter(p, s[j..]);
    }
  }

  lemma UnambiguousWhenApart(db: Store)
    ensures (forall r :: r in db.routes && r.enabled ==> Unambiguous(db, r.physicalTableName)) <==> Apart(db.routes)
  {
    hide Filter;
    if Apart(db.routes) {
      forall r | r in db.routes && r.enabled
        ensures Unambiguous(db, r.physicalTableName)
      {
        FilterCounts((x: PhysicalRoute) => x.physicalTableName == r.physicalTableName && x.enabled, db.routes);
      }
    } else {
      var i, j :| 0 <= i < j < |db.routes| && db.routes[i].enabled && db.routes[j].enabled
                  && db.routes[i].physicalTableName == db.routes[j].physicalTableName;
      FilterCounts((x: PhysicalRoute) => x.physicalTableName == db.routes[i].physicalTableName && x.enabled, db.routes);
      assert db.routes[i] in db.routes && !Unambiguous(db, db.routes[i].physicalTableName);
    }
  }

  /** The rows declare this physical table for some value of a configured table. */
  ghost predicate DeclaresName(hash: Hasher, rows: seq<TableConfigRow>, key: string, value: string, physical: string) {
    key in GroupKeys(hash, Kept(rows)) && exists code :: Declares(hash, Kept(rows), key, value, physical, code)
  }

  /** The declared physical names are identifiers, each declared for one value of one table. */
  ghost predicate RowsReady(hash: Hasher, rows: seq<TableConfigRow>) {
    && (forall key, value, p :: DeclaresName(hash, rows, key, value, p) ==> IsIdent(p))
    && (forall key, value, key', value', p ::
          DeclaresName(hash, rows, key, value, p) && DeclaresName(hash, rows, key', value', p) ==>
          key == key' && value == value')
  }

  /** The enabled routes that an import leaves alone have identifiers for names, each once and none of them declared. */
  ghost predicate ForeignReady(hash: Hasher, rows: seq<TableConfigRow>, routes: seq<PhysicalRoute>) {
    && Apart(routes)
    && forall r :: r in routes && r.enabled ==>
         IsIdent(r.physicalTableName) && forall key, value :: !DeclaresName(hash, rows, key, value, r.physicalTableName)
  }

  ghost predicate RecordsApart(routes: seq<RouteRecord>) {
    forall i, j :: 0 <= i < j < |routes| ==> routes[i].physicalTableName != routes[j].physicalTableName
  }

  /** The names of the bundle's routes are the declared ones. */
  lemma NamesDeclared(hash: Hasher, rows: seq<TableConfigRow>, connection: Connection, key: string, value: string,
                      p: string)
    requires BuildSpec(hash, rows, connection).Ok?
    ensures var b := BuildSpec(hash, rows, connection).value;
            DeclaresName(hash, rows, key, value, p) <==>
            exists r :: r in b.routes && IsRouteFor(r, key, value) && r.physicalTableName == p
  {
    hide BuildSpec, Kept, Declares, GroupKeys;
    var b := BuildSpec(hash, rows, connection).value;
    if DeclaresName(hash, rows, key, value, p) {
      var code :| Declares(hash, Kept(rows), key, value, p, code);
      ImportDeclaresExactly(hash, rows, connection, key, value, p, code);
      var r :| r in b.routes && r.logicalTableName == key && SaysTriple(r, value, p, code);
      assert IsRouteFor(r, key, value);
    }
    if r :| r in b.routes && IsRouteFor(r, key, value) && r.physicalTableName == p {
      assert SaysTriple(r, value, p, r.datasourceCode);
      ImportDeclaresExactly(hash, rows, connection, key, value, p, r.datasourceCode);
    }
  }

  lemma RecordDeclared(hash: Hasher, rows: seq<TableConfigRow>, connection: Connection, r: RouteRecord)
    requires BuildSpec(hash, rows, connection).Ok? && r in BuildSpec(hash, rows, connection).value.routes
    ensures DeclaresName(hash, rows, r.logicalTableName, r.routeValue, r.physicalTableName)
  {
    hide BuildSpec, DeclaresName;
    assert IsRouteFor(r, r.logicalTableName, r.routeValue);
    NamesDeclared(hash, rows, connection, r.logicalTableName, r.routeValue, r.physicalTableName);
  }

  lemma RowsReadyRecords(hash: Hasher, rows: seq<TableConfigRow>, connection: Connection)
    requires BuildSpec(hash, rows, connection).Ok?
    requires var b := BuildSpec(hash, rows, connection).value; RoutesReady(b.logicalTables, b.datasources, b.routes)
    ensures var routes := BuildSpec(hash, rows, connection).value.routes;
            RowsReady(hash, rows) <==>
                (forall r :: r in routes ==> IsIdent(r.physicalTableName)) && RecordsApart(routes)
  {
    hide BuildSpec, DeclaresName, IsIdent, KnownTable, KnownDatasource;
    var routes := BuildSpec(hash, rows, connection).value.routes;
    if RowsReady(hash, rows) {
      forall r | r in routes
        ensures IsIdent(r.physicalTableName)
      {
        RecordDeclared(hash, rows, connection, r);
      }
      forall i, j | 0 <= i < j < |routes|
        ensures routes[i].physicalTableName != routes[j].physicalTableName
      {
        RecordDeclared(hash, rows, connection, routes[i]);
        RecordDeclared(hash, rows, connection, routes[j]);
      }
    }
    if (forall r :: r in routes ==> IsIdent(r.physicalTableName)) && RecordsApart(routes) {
      ReadyRows(hash, rows, connection);
    }
  }

  lemma ReadyRows(hash: Hasher, rows: seq<TableConfigRow>, connection: Connection)
    requires BuildSpec(hash, rows, connection).Ok?
    requires var routes := BuildSpec(hash, rows, connection).value.routes;
             (forall r :: r in routes ==> IsIdent(r.physicalTableName)) && RecordsApart(routes)
    ensures RowsReady(hash, rows)
  {
    hide BuildSpec, DeclaresName, IsIdent;
    var routes := BuildSpec(hash, rows, connection).value.routes;
    forall key, value, p | DeclaresName(hash, rows, key, value, p)
      ensures IsIdent(p)
    {
      NamesDeclared(hash, rows, connection, key, value, p);
    }
    forall key, value, key', value', p | DeclaresName(hash, rows, key, value, p) &&
        DeclaresName(hash, rows, key', value', p)
      ensures key == key' && value == value'
    {
      NamesDeclared(hash, rows, connection, key, value, p);
      NamesDeclared(hash, rows, connection, key', value', p);
      var r :| r in routes && IsRouteFor(r, key, value) && r.physicalTableName == p;
      var r' :| r' in routes && IsRouteFor(r', key', value') && r'.physicalTableName == p;
      var i :| 0 <= i < |routes| && routes[i] == r;
      var j :| 0 <= j < |routes| && routes[j] == r';
    }
  }

  /** The merged store's routes, as the foreign ones and the bundle's. */
  lemma MergedReady(f: Store, n: int, b: SyncBundle)
    ensures StoreReady(Merge(f, n, b)) <==>
            && Apart(f.routes) && RecordsApart(b.routes)
            && (forall r :: r in b.routes ==> IsIdent(r.physicalTableName))
            && forall r :: r in f.routes && r.enabled ==>
                 IsIdent(r.physicalTableName) && forall k :: 0 <= k < |b.routes| ==>
                     b.routes[k].physicalTableName != r.physicalTableName
  {
    hide IsIdent, Unambiguous, DatasourceRows, TableRows, FactorRows, RuleRows, RouteRows, TableIndex, DatasourceIndex;
    var db := Merge(f, n, b);
    UnambiguousWhenApart(db);
    MergedApart(f, n, b);
    MergedIdents(f, n, b);
  }

  lemma ApartAppended(a: seq<PhysicalRoute>, b: seq<PhysicalRoute>)
    ensures Apart(a + b) <==>
            && Apart(a) && Apart(b)
            && forall i, j :: 0 <= i < |a| && 0 <= j < |b| && a[i].enabled && b[j].enabled ==>
                  a[i].physicalTableName != b[j].physicalTableName
  {
    var all, m := a + b, |a|;
    assert all[..m] == a && all[m..] == b;
    assert forall j :: 0 <= j < |b| ==> all[m + j] == b[j];
    assert forall k :: m <= k < |all| ==> all[k] == b[k - m];
    if Apart(all) {
      forall i, j | 0 <= i < |a| && 0 <= j < |b| && a[i].enabled && b[j].enabled
        ensures a[i].physicalTableName != b[j].physicalTableName
      {
        assert all[i] == a[i] && all[m + j] == b[j];
      }
      forall i, j | 0 <= i < j < |b| && b[i].enabled && b[j].enabled
        ensures b[i].physicalTableName != b[j].physicalTableName
      {
        assert all[m + i] == b[i] && all[m + j] == b[j];
      }
    }
  }

  lemma MergedApart(f: Store, n: int, b: SyncBundle)
    ensures Apart(Merge(f, n, b).routes) <==>
            && Apart(f.routes) && RecordsApart(b.routes)
            && forall r :: r in f.routes && r.enabled ==>
                 forall k :: 0 <= k < |b.routes| ==> b.routes[k].physicalTableName != r.physicalTableName
  {
    hide DatasourceRows, TableRows, FactorRows, RuleRows, RouteRows, TableIndex, DatasourceIndex;
    var all, m := Merge(f, n, b).routes, |f.routes|;
    var rows := all[m..];
    assert all == f.routes + rows;
    assert forall k :: 0 <= k < |b.routes| ==>
        rows[k].enabled && rows[k].physicalTableName == b.routes[k].physicalTableName;
    assert Apart(rows) <==> RecordsApart(b.routes);
    ApartAppended(f.routes, rows);
  }

  lemma MergedIdents(f: Store, n: int, b: SyncBundle)
    ensures var all := Merge(f, n, b).routes;
            (forall r :: r in all && r.enabled ==> IsIdent(r.physicalTableName)) <==>
            && (forall r :: r in f.routes && r.enabled ==> IsIdent(r.physicalTableName))
            && forall r :: r in b.routes ==> IsIdent(r.physicalTableName)
  {
    hide IsIdent, DatasourceRows, TableRows, FactorRows, RuleRows, RouteRows, TableIndex, DatasourceIndex;
    var all, m := Merge(f, n, b).routes, |f.routes|;
    var rows := all[m..];
    assert all == f.routes + rows;
    assert forall k :: 0 <= k < |b.routes| ==>
        rows[k].enabled && rows[k].physicalTableName == b.routes[k].physicalTableName;
    SameIdents(rows, b.routes);
  }

  lemma SameIdents(rows: seq<PhysicalRoute>, records: seq<RouteRecord>)
    requires |rows| == |records|
    requires forall k :: 0 <= k < |records| ==>
          rows[k].enabled && rows[k].physicalTableName == records[k].physicalTableName
    ensures (forall r :: r in rows && r.enabled ==> IsIdent(r.physicalTableName)) <==>
          forall r :: r in records ==> IsIdent(r.physicalTableName)
  {
    hide IsIdent;
    forall k | 0 <= k < |records|
      ensures rows[k] in rows && records[k] in records
    {
    }
  }

  /**
   An import leaves the store ready, so that every allowed check on it is stable (AllowedIsStable), if
   and only if the physical names it declares are identifiers, each declared for one value of one
   table, and the enabled routes it leaves alone have identifiers for names too, each once and none of
   them declared.
   */
  lemma ImportedStoreReady(s: Session, hash: Hasher, rows: seq<TableConfigRow>, connection: Connection, db: Store)
    requires ImportedInto(s, hash, rows, connection, db)
    ensures StoreReady(db) <==>
          RowsReady(hash, rows) && ForeignReady(hash, rows, Foreign(EnsureDefaultPolicy(s).db).routes)
  {
    hide ImportedInto, BuildSpec, Merge, Settled, Loadable, ValidStore, RowsReady, StoreReady, RoutesReady, RulesReady,
         FactorsReady, LogicalTableKeys, RouteKeys, DatasourceKeys, KnownDatasource, DeclaresName, IsIdent, Apart,
             Foreign, EnsureDefaultPolicy, RecordsApart;
    assert BuildSpec(hash, rows, connection).Ok? by { ImportBuilds(s, hash, rows, connection, db); }
    var b := BuildSpec(hash, rows, connection).value;
    var f, n := ImportedParts(s, hash, rows, connection, db);
    ValidParts(f, n, b);
    MergedReady(f, n, b);
    RowsReadyRecords(hash, rows, connection);
    ForeignNames(hash, rows, connection, f.routes);
  }

  lemma ForeignNames(hash: Hasher, rows: seq<TableConfigRow>, connection: Connection, foreign: seq<PhysicalRoute>)
    requires BuildSpec(hash, rows, connection).Ok?
    ensures var b := BuildSpec(hash, rows, connection).value;
            ForeignReady(hash, rows, foreign) <==>
            && Apart(foreign)
            && forall r :: r in foreign && r.enabled ==>
                 IsIdent(r.physicalTableName) && forall k :: 0 <= k < |b.routes| ==>
                     b.routes[k].physicalTableName != r.physicalTableName
  {
    hide BuildSpec, DeclaresName, IsIdent, Apart;
    var b := BuildSpec(hash, rows, connection).value;
    forall r | r in foreign
      ensures (forall key, value :: !DeclaresName(hash, rows, key, value, r.physicalTableName)) <==>
              forall k :: 0 <= k < |b.routes| ==> b.routes[k].physicalTableName != r.physicalTableName
    {
      NameUndeclared(hash, rows, connection, r.physicalTableName);
    }
  }

  lemma NameUndeclared(hash: Hasher, rows: seq<TableConfigRow>, connection: Connection, p: string)
    requires BuildSpec(hash, rows, connection).Ok?
    ensures var b := BuildSpec(hash, rows, connection).value;
            (forall key, value :: !DeclaresName(hash, rows, key, value, p)) <==>
            forall k :: 0 <= k < |b.routes| ==> b.routes[k].physicalTableName != p
  {
    hide BuildSpec, DeclaresName;
    var b := BuildSpec(hash, rows, connection).value;
    if key, value :| DeclaresName(hash, rows, key, value, p) {
      NamesDeclared(hash, rows, connection, key, value, p);
    }
    if k :| 0 <= k < |b.routes| && b.routes[k].physicalTableName == p {
      RecordDeclared(hash, rows, connection, b.routes[k]);
    }
  }

  /**
   After an import that leaves the store ready, an allowed check stays allowed unless the physical names
   take its limit away.
   */
  lemma ImportedCheckIsStable(s: Session, hash: Hasher, rows: seq<TableConfigRow>, connection: Connection, db: Store,
                              explain: Explainer, sql: string, ctx: RouteContext, ctx': RouteContext)
    requires ImportedInto(s, hash, rows, connection, db)
    requires RowsReady(hash, rows) && ForeignReady(hash, rows, Foreign(EnsureDefaultPolicy(s).db).routes)
    requires CheckSpec(db, explain, sql, ctx).Ok? && CheckSpec(db, explain, sql, ctx).value.allowed
    ensures var r := CheckSpec(db, explain, sql, ctx).value;
            var again := CheckSpec(db, explain, r.rewrittenSql, ctx');
            && again.Ok?
            && (again.value.allowed <==> LimitUnderNames(db, sql, r.physicalTables).allowed)
            && (again.value.allowed ==> again.value == r.(parsedSql := again.value.parsedSql, routeDiagnostics := []))
  {
    hide ImportedInto, CheckSpec, RowsReady, ForeignReady, ValidStore, StoreReady, LimitUnderNames, Foreign,
         EnsureDefaultPolicy;
    ImportIsValid(s, hash, rows, connection, db);
    ImportedStoreReady(s, hash, rows, connection, db);
    AllowedIsStable(db, explain, sql, ctx, ctx');
  }

  // ------------------------------------------------------------ which checks raise the second time

  /** Some element of `s` has the property, and two have it. */
  ghost predicate Once<T(!new)>(p: T -> bool, s: seq<T>) {
    exists i :: 0 <= i < |s| && p(s[i])
  }

  ghost predicate Twice<T(!new)>(p: T -> bool, s: seq<T>) {
    exists i, j :: 0 <= i < j < |s| && p(s[i]) && p(s[j])
  }

  lemma TwiceAppended<T(!new)>(p: T -> bool, a: seq<T>, b: seq<T>)
    ensures Twice(p, a + b) <==> Twice(p, a) || Twice(p, b) || (Once(p, a) && Once(p, b))
  {
    var all, m := a + b, |a|;
    assert forall k :: 0 <= k < m ==> all[k] == a[k];
    assert forall k :: m <= k < |all| ==> all[k] == b[k - m];
    assert forall k :: 0 <= k < |b| ==> all[m + k] == b[k];
    if i, j :| 0 <= i < j < |all| && p(all[i]) && p(all[j]) {
      if i >= m {
        assert p(b[i - m]) && p(b[j - m]);
      } else if j >= m {
        assert p(a[i]) && p(b[j - m]);
      }
    }
    TwiceKept(p, a, b);
  }

  lemma TwiceKept<T(!new)>(p: T -> bool, a: seq<T>, b: seq<T>)
    ensures Twice(p, a) || Twice(p, b) || (Once(p, a) && Once(p, b)) ==> Twice(p, a + b)
  {
    var all, m := a + b, |a|;
    if i, j :| 0 <= i < j < |a| && p(a[i]) && p(a[j]) {
      assert p(all[i]) && p(all[j]);
    }
    if i, j :| 0 <= i < j < |b| && p(b[i]) && p(b[j]) {
      assert p(all[m + i]) && p(all[m + j]);
    }
    if i, j :| 0 <= i < |a| && 0 <= j < |b| && p(a[i]) && p(b[j]) {
      assert p(all[i]) && p(all[m + j]);
    }
  }

  function Bears(name: string): PhysicalRoute -> bool {
    (r: PhysicalRoute) => r.physicalTableName == name && r.enabled
  }

  /** The rows declare the name for two pairs of a table and a value. */
  ghost predicate DeclaredTwice(hash: Hasher, rows: seq<TableConfigRow>, name: string) {
    exists key, value, key', value' ::
      (key, value) != (key', value') && DeclaresName(hash, rows, key, value, name) &&
          DeclaresName(hash, rows, key', value', name)
  }

  ghost predicate Declared(hash: Hasher, rows: seq<TableConfigRow>, name: string) {
    exists key, value :: DeclaresName(hash, rows, key, value, name)
  }

  /** The name is declared twice, or once and also on an enabled foreign route, or on two of those. */
  ghost predicate Shared(hash: Hasher, rows: seq<TableConfigRow>, foreign: seq<PhysicalRoute>, name: string) {
    || DeclaredTwice(hash, rows, name)
    || (Declared(hash, rows, name) && Once(Bears(name), foreign))
    || Twice(Bears(name), foreign)
  }

  lemma RecordsTwice(hash: Hasher, rows: seq<TableConfigRow>, connection: Connection, name: string,
                     imported: seq<PhysicalRoute>)
    requires BuildSpec(hash, rows, connection).Ok?
    requires var b := BuildSpec(hash, rows, connection).value;
             && RoutesReady(b.logicalTables, b.datasources, b.routes) && |imported| == |b.routes|
             && forall k :: 0 <= k < |b.routes| ==>
                   imported[k].enabled && imported[k].physicalTableName == b.routes[k].physicalTableName
    ensures Twice(Bears(name), imported) <==> DeclaredTwice(hash, rows, name)
    ensures Once(Bears(name), imported) <==> Declared(hash, rows, name)
  {
    hide BuildSpec, DeclaresName, KnownTable, KnownDatasource;
    var routes := BuildSpec(hash, rows, connection).value.routes;
    assert forall k :: 0 <= k < |routes| ==> (Bears(name)(imported[k]) <==> routes[k].physicalTableName == name);
    NameUndeclared(hash, rows, connection, name);
    if i, j :| 0 <= i < j < |imported| && Bears(name)(imported[i]) && Bears(name)(imported[j]) {
      RecordDeclared(hash, rows, connection, routes[i]);
      RecordDeclared(hash, rows, connection, routes[j]);
    }
    if DeclaredTwice(hash, rows, name) {
      TwoRecords(hash, rows, connection, name);
    }
  }

  lemma TwoRecords(hash: Hasher, rows: seq<TableConfigRow>, connection: Connection, name: string)
    requires BuildSpec(hash, rows, connection).Ok? && DeclaredTwice(hash, rows, name)
    ensures var routes := BuildSpec(hash, rows, connection).value.routes;
            exists i, j :: 0 <= i < j < |routes| && routes[i].physicalTableName == name &&
                routes[j].physicalTableName == name
  {
    hide BuildSpec, DeclaresName;
    var routes := BuildSpec(hash, rows, connection).value.routes;
    var key, value, key', value' :|
      (key, value) != (key', value') && DeclaresName(hash, rows, key, value, name) &&
          DeclaresName(hash, rows, key', value', name);
    NamesDeclared(hash, rows, connection, key, value, name);
    NamesDeclared(hash, rows, connection, key', value', name);
    var r :| r in routes && IsRouteFor(r, key, value) && r.physicalTableName == name;
    var r' :| r' in routes && IsRouteFor(r', key', value') && r'.physicalTableName == name;
    var i :| 0 <= i < |routes| && routes[i] == r;
    var j :| 0 <= j < |routes| && routes[j] == r';
    assert i != j;
    assert if i < j then routes[i].physicalTableName == name else routes[j].physicalTableName == name;
  }

  /** After a committed import, a name is on two enabled routes exactly when it is shared. */
  lemma SharedExactly(s: Session, hash: Hasher, rows: seq<TableConfigRow>, connection: Connection, db: Store,
                      name: string)
    requires ImportedInto(s, hash, rows, connection, db)
    ensures Unambiguous(db, name) <==> !Shared(hash, rows, Foreign(EnsureDefaultPolicy(s).db).routes, name)
  {
    hide ImportedInto, BuildSpec, Settled, Loadable, ValidStore, RoutesReady, RulesReady, FactorsReady,
         LogicalTableKeys, RouteKeys, DatasourceKeys, KnownDatasource, Foreign, EnsureDefaultPolicy, Twice, Once,
             Declared, DeclaredTwice, DatasourceRows, TableRows, FactorRows, RuleRows, RouteRows, TableIndex,
                 DatasourceIndex;
    assert BuildSpec(hash, rows, connection).Ok? by { ImportBuilds(s, hash, rows, connection, db); }
    var b := BuildSpec(hash, rows, connection).value;
    var f, n := ImportedParts(s, hash, rows, connection, db);
    ValidParts(f, n, b);
    var imported := db.routes[|f.routes|..];
    assert db.routes == f.routes + imported;
    TwiceAppended(Bears(name), f.routes, imported);
    RecordsTwice(hash, rows, connection, name, imported);
    UnambiguousOnce(db, name);
  }

  lemma UnambiguousOnce(db: Store, name: string)
    ensures Unambiguous(db, name) <==> !Twice(Bears(name), db.routes)
  {
    hide Filter;
    var p := (r: PhysicalRoute) => r.physicalTableName == name && r.enabled;
    FilterCounts(p, db.routes);
    assert forall i :: 0 <= i < |db.routes| ==> (p(db.routes[i]) <==> Bears(name)(db.routes[i]));
  }

  /**
   After a committed import, the second check of an allowed statement with identifiers for physical
   names raises if and only if one of those names is declared for two pairs of a table and a value, or
   is declared and also on an enabled foreign route, or is on two of those.
   */
  lemma ImportedRecheckRaises(s: Session, hash: Hasher, rows: seq<TableConfigRow>, connection: Connection, db: Store,
                              explain: Explainer, sql: string, ctx: RouteContext, ctx': RouteContext)
    requires ImportedInto(s, hash, rows, connection, db)
    requires CheckSpec(db, explain, sql, ctx).Ok? && CheckSpec(db, explain, sql, ctx).value.allowed
    requires AllIdents(CheckSpec(db, explain, sql, ctx).value.physicalTables)
    ensures var names := CheckSpec(db, explain, sql, ctx).value.physicalTables;
            var again := CheckSpec(db, explain, CheckSpec(db, explain, sql, ctx).value.rewrittenSql, ctx');
            && (again.Raise? <==> exists name ::
                  name in names && Shared(hash, rows, Foreign(EnsureDefaultPolicy(s).db).routes, name))
            && (again.Raise? ==> again.error == MultipleResultsFound)
  {
    hide ImportedInto, CheckSpec, ValidStore, LimitUnderNames, Foreign, EnsureDefaultPolicy, Shared, Unambiguous,
         Splits, ParseSpec, AllIdents;
    ImportIsValid(s, hash, rows, connection, db);
    CheckFixpoint(db, explain, sql, ctx, ctx');
    var names := CheckSpec(db, explain, sql, ctx).value.physicalTables;
    forall name | name in names
      ensures Unambiguous(db, name) <==> !Shared(hash, rows, Foreign(EnsureDefaultPolicy(s).db).routes, name)
    {
      SharedExactly(s, hash, rows, connection, db, name);
    }
  }

  /** Two sources that configure one table name share it, and the store is not ready. */
  lemma TwoSourcesNotReady(s: Session, hash: Hasher, rows: seq<TableConfigRow>, connection: Connection, db: Store,
                           name: string, a: TableConfigRow, b: TableConfigRow)
    requires ImportedInto(s, hash, rows, connection, db)
    requires name in GroupKeys(hash, Kept(rows)) && GroupStyle(hash, Kept(rows), name) == BySource
    requires a in GroupSegments(hash, Kept(rows), name) && b in GroupSegments(hash, Kept(rows), name)
    requires a.tableName == b.tableName && SourceOrUnknown(a) != SourceOrUnknown(b)
    ensures Shared(hash, rows, Foreign(EnsureDefaultPolicy(s).db).routes, a.tableName)
    ensures !StoreReady(db)
  {
    hide ImportedInto, Kept, GroupKeys, GroupSegments, StyleOf, StoreReady, ForeignReady, Foreign, EnsureDefaultPolicy,
         IsIdent, SourceOrUnknown, MakeDatasourceCode;
    ImportedStoreReady(s, hash, rows, connection, db);
    SourceDeclares(hash, rows, name, a);
    SourceDeclares(hash, rows, name, b);
    assert DeclaredTwice(hash, rows, a.tableName);
  }

  /** So an allowed statement that is routed to that name always raises when it is checked again. */
  lemma TwoSourcesRaise(s: Session, hash: Hasher, rows: seq<TableConfigRow>, connection: Connection, db: Store,
                        name: string, a: TableConfigRow, b: TableConfigRow, explain: Explainer, sql: string,
                        ctx: RouteContext, ctx': RouteContext)
    requires ImportedInto(s, hash, rows, connection, db)
    requires name in GroupKeys(hash, Kept(rows)) && GroupStyle(hash, Kept(rows), name) == BySource
    requires a in GroupSegments(hash, Kept(rows), name) && b in GroupSegments(hash, Kept(rows), name)
    requires a.tableName == b.tableName && SourceOrUnknown(a) != SourceOrUnknown(b)
    requires CheckSpec(db, explain, sql, ctx).Ok? && CheckSpec(db, explain, sql, ctx).value.allowed
    requires AllIdents(CheckSpec(db, explain, sql, ctx).value.physicalTables)
    requires a.tableName in CheckSpec(db, explain, sql, ctx).value.physicalTables
    ensures CheckSpec(db, explain, CheckSpec(db, explain, sql, ctx).value.rewrittenSql, ctx') ==
          Raise(MultipleResultsFound)
  {
    hide ImportedInto, Kept, GroupKeys, GroupSegments, StyleOf, StoreReady, Foreign, EnsureDefaultPolicy,
         SourceOrUnknown, CheckSpec, Shared, AllIdents;
    TwoSourcesNotReady(s, hash, rows, connection, db, name, a, b);
    ImportedRecheckRaises(s, hash, rows, connection, db, explain, sql, ctx, ctx');
  }

  lemma SourceDeclares(hash: Hasher, rows: seq<TableConfigRow>, name: string, row: TableConfigRow)
    requires name in GroupKeys(hash, Kept(rows)) && GroupStyle(hash, Kept(rows), name) == BySource
    requires row in GroupSegments(hash, Kept(rows), name)
    ensures DeclaresName(hash, rows, name, SourceOrUnknown(row), row.tableName)
  {
    hide Kept, GroupKeys, GroupSegments, StyleOf, SourceOrUnknown, MakeDatasourceCode;
    var code := MakeDatasourceCode(hash, row.sourceName);
    var c := Claim(SourceOrUnknown(row), row.tableName, code, row);
    assert c in RowClaims(hash, BySource, row);
    assert ClaimedBy(hash, BySource, GroupSegments(hash, Kept(rows), name), c);
    assert Declares(hash, Kept(rows), name, SourceOrUnknown(row), row.tableName, code);
  }
}
