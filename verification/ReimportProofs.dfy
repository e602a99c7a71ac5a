/** Every statement of a re-import keeps the store valid. */
module ReimportProofs {
  import opened Wrappers
  import opened Sequences
  import opened Metadata
  import opened Importer
  import opened Reimport

  // ------------------------------------------------------------ every statement keeps the keys

  ghost predicate IdsBelow(db: Store, n: int) {
    && (forall r :: r in db.datasources ==> r.id < n)
    && (forall r :: r in db.logicalTables ==> r.id < n)
    && (forall r :: r in db.factors ==> r.id < n)
    && (forall r :: r in db.rules ==> r.id < n)
    && (forall r :: r in db.routes ==> r.id < n)
    && (forall r :: r in db.policies ==> r.id < n)
  }

  /** All keys and foreign keys hold and the id counter is ahead of every id. */
  ghost predicate ValidSession(s: Session) {
    ValidStore(s.db) && IdsBelow(s.db, s.nextId)
  }

  lemma RoutesOutsideKeys(routes: seq<PhysicalRoute>, ids: set<int>)
    requires RouteKeys(routes)
    ensures RouteKeys(RoutesOutside(routes, ids))
  {
    var rel := (a: PhysicalRoute, b: PhysicalRoute) => a.id != b.id &&
        (a.logicalTableId, a.routeValue) != (b.logicalTableId, b.routeValue);
    FilterPairs(rel, (r: PhysicalRoute) => r.logicalTableId !in ids, routes);
    var f := RoutesOutside(routes, ids);
    assert forall i, j :: 0 <= i < j < |f| ==> rel(f[i], f[j]);
  }

  lemma FactorsOutsideKeys(factors: seq<RouteFactor>, ids: set<int>)
    requires FactorKeys(factors)
    ensures FactorKeys(FactorsOutside(factors, ids))
  {
    var rel := (a: RouteFactor, b: RouteFactor) => a.id != b.id &&
        (a.logicalTableId, a.factorName) != (b.logicalTableId, b.factorName);
    FilterPairs(rel, (f: RouteFactor) => f.logicalTableId !in ids, factors);
    var f := FactorsOutside(factors, ids);
    assert forall i, j :: 0 <= i < j < |f| ==> rel(f[i], f[j]);
  }

  lemma RulesOutsideKeys(rules: seq<RouteRule>, ids: set<int>)
    requires RuleKeys(rules)
    ensures RuleKeys(RulesOutside(rules, ids))
  {
    var rel := (a: RouteRule, b: RouteRule) => a.id != b.id &&
        (a.logicalTableId, a.ruleName) != (b.logicalTableId, b.ruleName);
    FilterPairs(rel, (r: RouteRule) => r.logicalTableId !in ids, rules);
    var f := RulesOutside(rules, ids);
    assert forall i, j :: 0 <= i < j < |f| ==> rel(f[i], f[j]);
  }

  lemma TablesOutsideKeys(tables: seq<LogicalTable>, ids: set<int>)
    requires LogicalTableKeys(tables)
    ensures LogicalTableKeys(TablesOutside(tables, ids))
    ensures forall id :: HasTable(tables, id) && id !in ids ==> HasTable(TablesOutside(tables, ids), id)
  {
    var rel := (a: LogicalTable, b: LogicalTable) => a.id != b.id && a.tableName != b.tableName;
    FilterPairs(rel, (t: LogicalTable) => t.id !in ids, tables);
    var f := TablesOutside(tables, ids);
    assert forall i, j :: 0 <= i < j < |f| ==> rel(f[i], f[j]);
    forall id | HasTable(tables, id) && id !in ids
      ensures HasTable(f, id)
    {
      var i :| 0 <= i < |tables| && tables[i].id == id;
      assert tables[i] in f;
    }
  }

  lemma DatasourcesOutsideKeys(datasources: seq<Datasource>, ids: set<int>)
    requires DatasourceKeys(datasources)
    ensures DatasourceKeys(DatasourcesOutside(datasources, ids))
    ensures forall id :: HasDatasource(datasources, id) && id !in ids ==>
          HasDatasource(DatasourcesOutside(datasources, ids), id)
  {
    var rel := (a: Datasource, b: Datasource) => a.id != b.id && a.code != b.code;
    FilterPairs(rel, (d: Datasource) => d.id !in ids, datasources);
    var f := DatasourcesOutside(datasources, ids);
    assert forall i, j :: 0 <= i < j < |f| ==> rel(f[i], f[j]);
    forall id | HasDatasource(datasources, id) && id !in ids
      ensures HasDatasource(f, id)
    {
      var i :| 0 <= i < |datasources| && datasources[i].id == id;
      assert datasources[i] in f;
    }
  }

  /** Deleting the rows that refer to some tables keeps everything valid. */
  lemma DeleteChildrenKeepsValid(s: Session, ids: set<int>)
    requires ValidSession(s)
    ensures ValidSession(DeleteChildren(s, ids))
    ensures !TableReferenced(DeleteChildren(s, ids).db, ids)
  {
    RoutesOutsideKeys(s.db.routes, ids);
    FactorsOutsideKeys(s.db.factors, ids);
    RulesOutsideKeys(s.db.rules, ids);
    NoChildrenLeft(s, ids);
    hide DatasourceKeys, FactorKeys, RuleKeys, RouteKeys, PolicyKeys, LogicalTableKeys, HasTable, HasDatasource,
         TableReferenced;
  }

  lemma NoChildrenLeft(s: Session, ids: set<int>)
    ensures !TableReferenced(DeleteChildren(s, ids).db, ids)
  {
    hide Filter;
    var d := DeleteChildren(s, ids).db;
    assert forall i :: 0 <= i < |d.factors| ==> d.factors[i] in d.factors;
    assert forall i :: 0 <= i < |d.rules| ==> d.rules[i] in d.rules;
    assert forall i :: 0 <= i < |d.routes| ==> d.routes[i] in d.routes;
  }

  /** The database lets tables go only when nothing refers to them, so the foreign keys survive. */
  lemma DeleteTablesKeepsValid(s: Session, ids: set<int>)
    requires ValidSession(s) && DeleteTables(s, ids).Ok?
    ensures ValidSession(DeleteTables(s, ids).value)
  {
    TablesOutsideKeys(s.db.logicalTables, ids);
    hide DatasourceKeys, FactorKeys, RuleKeys, RouteKeys, PolicyKeys, LogicalTableKeys, HasTable, HasDatasource;
    var db := s.db;
    forall r | r in db.factors ensures r.logicalTableId !in ids { var i :| 0 <= i < |db.factors| &&
        db.factors[i] == r; }
    forall r | r in db.rules ensures r.logicalTableId !in ids { var i :| 0 <= i < |db.rules| && db.rules[i] == r; }
    forall r | r in db.routes ensures r.logicalTableId !in ids { var i :| 0 <= i < |db.routes| && db.routes[i] == r; }
  }

  lemma DeleteDatasourcesKeepsValid(s: Session, ids: set<int>)
    requires ValidSession(s) && DeleteDatasources(s, ids).Ok?
    ensures ValidSession(DeleteDatasources(s, ids).value)
  {
    DatasourcesOutsideKeys(s.db.datasources, ids);
    hide DatasourceKeys, FactorKeys, RuleKeys, RouteKeys, PolicyKeys, LogicalTableKeys, HasTable, HasDatasource;
    var db := s.db;
    forall r | r in db.routes ensures r.datasourceId !in ids { var i :| 0 <= i < |db.routes| && db.routes[i] == r; }
  }

  lemma AddDatasourceKeepsValid(s: Session, r: DatasourceRecord)
    requires ValidSession(s) && AddDatasource(s, r).Ok?
    ensures ValidSession(AddDatasource(s, r).value)
  {
    var ds := s.db.datasources;
    assert forall i :: 0 <= i < |ds| ==> ds[i] in ds;
    var all := AddDatasource(s, r).value.db.datasources;
    forall id | HasDatasource(ds, id)
      ensures HasDatasource(all, id)
    {
      var i :| 0 <= i < |ds| && ds[i].id == id;
      assert all[i].id == id;
    }
    hide FactorKeys, RuleKeys, RouteKeys, PolicyKeys, LogicalTableKeys, HasTable, HasDatasource;
  }

  lemma AddTableKeepsValid(s: Session, r: LogicalTableRecord)
    requires ValidSession(s) && AddTable(s, r).Ok?
    ensures ValidSession(AddTable(s, r).value)
  {
    var ts := s.db.logicalTables;
    assert forall i :: 0 <= i < |ts| ==> ts[i] in ts;
    var all := AddTable(s, r).value.db.logicalTables;
    forall id | HasTable(ts, id)
      ensures HasTable(all, id)
    {
      var i :| 0 <= i < |ts| && ts[i].id == id;
      assert all[i].id == id;
    }
    hide FactorKeys, RuleKeys, RouteKeys, PolicyKeys, DatasourceKeys, HasTable, HasDatasource;
  }

  lemma {:induction false} ImportedTableIdFound(ts: seq<LogicalTable>, name: string)
    ensures var id := ImportedTableId(ts, name);
            id.Some? ==> HasTable(ts, id.value)
  {
    if ts != [] && !(FromImport(ts[0].extra) && ts[0].tableName == name) {
      ImportedTableIdFound(ts[1..], name);
      var id := ImportedTableId(ts, name);
      if id.Some? {
        var i :| 0 <= i < |ts[1..]| && ts[1..][i].id == id.value;
        assert ts[i + 1].id == id.value;
      }
    }
  }

  lemma {:induction false} ImportedDatasourceIdFound(ds: seq<Datasource>, code: string)
    ensures var id := ImportedDatasourceId(ds, code);
            id.Some? ==> HasDatasource(ds, id.value)
  {
    if ds != [] && !(FromImport(ds[0].extra) && ds[0].code == code) {
      ImportedDatasourceIdFound(ds[1..], code);
      var id := ImportedDatasourceId(ds, code);
      if id.Some? {
        var i :| 0 <= i < |ds[1..]| && ds[1..][i].id == id.value;
        assert ds[i + 1].id == id.value;
      }
    }
  }

  lemma AddFactorKeepsValid(s: Session, r: FactorRecord)
    requires ValidSession(s) && AddFactor(s, r).Ok?
    ensures ValidSession(AddFactor(s, r).value)
  {
    ImportedTableIdFound(s.db.logicalTables, r.logicalTableName);
    var fs := s.db.factors;
    assert forall i :: 0 <= i < |fs| ==> fs[i] in fs;
    hide ImportedTableId, RuleKeys, RouteKeys, PolicyKeys, DatasourceKeys, LogicalTableKeys, HasTable, HasDatasource;
  }

  lemma AddRuleKeepsValid(s: Session, r: RuleRecord)
    requires ValidSession(s) && AddRule(s, r).Ok?
    ensures ValidSession(AddRule(s, r).value)
  {
    ImportedTableIdFound(s.db.logicalTables, r.logicalTableName);
    var rs := s.db.rules;
    assert forall i :: 0 <= i < |rs| ==> rs[i] in rs;
    hide ImportedTableId, FactorKeys, RouteKeys, PolicyKeys, DatasourceKeys, LogicalTableKeys, HasTable, HasDatasource;
  }

  lemma AddRouteKeepsValid(s: Session, r: RouteRecord)
    requires ValidSession(s) && AddRoute(s, r).Ok?
    ensures ValidSession(AddRoute(s, r).value)
  {
    ImportedTableIdFound(s.db.logicalTables, r.logicalTableName);
    ImportedDatasourceIdFound(s.db.datasources, r.datasourceCode);
    var rs := s.db.routes;
    assert forall i :: 0 <= i < |rs| ==> rs[i] in rs;
    hide ImportedTableId, ImportedDatasourceId, FactorKeys, RuleKeys, PolicyKeys, DatasourceKeys, LogicalTableKeys,
         HasTable, HasDatasource;
  }

  lemma PolicyKeepsValid(s: Session)
    requires ValidSession(s)
    ensures ValidSession(EnsureDefaultPolicy(s))
  {
    var ps := s.db.policies;
    assert forall i :: 0 <= i < |ps| ==> ps[i] in ps;
    hide FactorKeys, RuleKeys, RouteKeys, DatasourceKeys, LogicalTableKeys, HasTable, HasDatasource;
  }

  /** If every single insert keeps the store valid, every prefix of the insert loop does. */
  lemma {:induction false} AddAllKeepsValid<T(!new)>(add: (Session, T) -> Result<Session>, s: Session, rs: seq<T>)
    requires ValidSession(s)
    requires forall t: Session, r: T :: ValidSession(t) && add(t, r).Ok? ==> ValidSession(add(t, r).value)
    ensures AddAll(add, s, rs).Ok? ==> ValidSession(AddAll(add, s, rs).value)
  {
    hide ValidSession;
    if rs != [] {
      AddAllKeepsValid(add, s, rs[..|rs| - 1]);
    }
  }

  lemma AddsKeepValid()
    ensures forall t: Session, r :: ValidSession(t) && AddDatasource(t, r).Ok? ==>
          ValidSession(AddDatasource(t, r).value)
    ensures forall t: Session, r :: ValidSession(t) && AddTable(t, r).Ok? ==> ValidSession(AddTable(t, r).value)
    ensures forall t: Session, r :: ValidSession(t) && AddFactor(t, r).Ok? ==> ValidSession(AddFactor(t, r).value)
    ensures forall t: Session, r :: ValidSession(t) && AddRule(t, r).Ok? ==> ValidSession(AddRule(t, r).value)
    ensures forall t: Session, r :: ValidSession(t) && AddRoute(t, r).Ok? ==> ValidSession(AddRoute(t, r).value)
  {
    hide ValidSession, AddDatasource, AddTable, AddFactor, AddRule, AddRoute;
    forall t: Session, r | ValidSession(t) &&
        AddDatasource(t, r).Ok? ensures ValidSession(AddDatasource(t, r).value) { AddDatasourceKeepsValid(t, r); }
    forall t: Session, r | ValidSession(t) &&
        AddTable(t, r).Ok? ensures ValidSession(AddTable(t, r).value) { AddTableKeepsValid(t, r); }
    forall t: Session, r | ValidSession(t) &&
        AddFactor(t, r).Ok? ensures ValidSession(AddFactor(t, r).value) { AddFactorKeepsValid(t, r); }
    forall t: Session, r | ValidSession(t) &&
        AddRule(t, r).Ok? ensures ValidSession(AddRule(t, r).value) { AddRuleKeepsValid(t, r); }
    forall t: Session, r | ValidSession(t) &&
        AddRoute(t, r).Ok? ensures ValidSession(AddRoute(t, r).value) { AddRouteKeepsValid(t, r); }
  }

  lemma DeletePreviousKeepsValid(s: Session)
    requires ValidSession(s) && DeletePreviousImport(s).Ok?
    ensures ValidSession(DeletePreviousImport(s).value)
  {
    hide ValidSession, DeleteChildren, DeleteTables, DeleteDatasources;
    var ids := ImportedTableIds(s.db.logicalTables);
    DeleteChildrenKeepsValid(s, ids);
    DeleteTablesKeepsValid(DeleteChildren(s, ids), ids);
    var cleared := DeleteTables(DeleteChildren(s, ids), ids).value;
    DeleteDatasourcesKeepsValid(cleared, ImportedDatasourceIds(cleared.db.datasources));
  }

  /** A committed re-import leaves a valid store. */
  lemma SyncKeepsValid(s: Session, b: SyncBundle)
    requires ValidSession(s) && SyncSpec(s, b).Ok?
    ensures ValidSession(SyncSpec(s, b).value)
  {
    hide ValidSession, EnsureDefaultPolicy, DeletePreviousImport, AddAll, AddDatasource, AddTable, AddFactor, AddRule,
         AddRoute;
    PolicyKeepsValid(s);
    DeletePreviousKeepsValid(EnsureDefaultPolicy(s));
    AddsKeepValid();
    var s0 := DeletePreviousImport(EnsureDefaultPolicy(s)).value;
    AddAllKeepsValid(AddDatasource, s0, b.datasources);
    var s1 := AddDatasources(s0, b.datasources).value;
    AddAllKeepsValid(AddTable, s1, b.logicalTables);
    var s2 := AddTables(s1, b.logicalTables).value;
    AddAllKeepsValid(AddFactor, s2, b.factors);
    var s3 := AddFactors(s2, b.factors).value;
    AddAllKeepsValid(AddRule, s3, b.rules);
    var s4 := AddRules(s3, b.rules).value;
    AddAllKeepsValid(AddRoute, s4, b.routes);
  }
}
