/** The rows a committed re-import leaves, field by field, and the policy it installs. */
module ReimportContents {
  import opened Metadata
  import opened Importer
  import opened Reimport
  import opened ReimportProofs
  import opened ReimportMerge
  import FilterChain
  import Redis

  /** The row was imported from the shard configuration. */
  predicate Marked(extra: map<string, string>) {
    "sync_origin" in extra && extra["sync_origin"] == "spy.table_config"
  }

  /** The table of this id was imported. */
  predicate OfMarked(db: Store, tableId: int) {
    exists t :: t in db.logicalTables && t.id == tableId && Marked(t.extra)
  }

  lemma ImportedIds(db: Store)
    ensures forall id :: id in ImportedTableIds(db.logicalTables) <==> OfMarked(db, id)
    ensures forall d :: d in db.datasources && Marked(d.extra) ==> d.id in ImportedDatasourceIds(db.datasources)
  {
  }

  /** What a re-import keeps: the rows without the mark, and of the rest those that belong to no marked table. */
  lemma ForeignExactly(db: Store)
    requires ValidStore(db)
    ensures var f := Foreign(db);
            && (forall d :: d in f.datasources <==> d in db.datasources && !Marked(d.extra))
            && (forall t :: t in f.logicalTables <==> t in db.logicalTables && !Marked(t.extra))
            && (forall x :: x in f.factors <==> x in db.factors && !OfMarked(db, x.logicalTableId))
            && (forall x :: x in f.rules <==> x in db.rules && !OfMarked(db, x.logicalTableId))
            && (forall x :: x in f.routes <==> x in db.routes && !OfMarked(db, x.logicalTableId))
            && f.policies == db.policies
  {
    ImportedIds(db);
    forall d | d in db.datasources && d.id in ImportedDatasourceIds(db.datasources)
      ensures Marked(d.extra)
    {
      var e :| e in db.datasources && FromImport(e.extra) && e.id == d.id;
      SameCodeSameDatasource(db.datasources, d, e);
    }
    forall t | t in db.logicalTables && OfMarked(db, t.id)
      ensures Marked(t.extra)
    {
      var u :| u in db.logicalTables && u.id == t.id && Marked(u.extra);
      SameIdSameTable(db.logicalTables, t, u);
    }
    hide ImportedTableIds, ImportedDatasourceIds, OfMarked, Marked, ValidStore;
  }

  // ------------------------------------------------------------ the imported rows

  const MARK: map<string, string> := map["sync_origin" := "spy.table_config"]

  predicate DatasourceFrom(d: Datasource, r: DatasourceRecord) {
    && d.code == r.code && d.displayName == r.displayName && d.connection == r.connection
    && d.dbType == "mysql" && d.enabled && d.extra == MARK && d.keyPrefixes == Unset
  }

  predicate TableFrom(t: LogicalTable, r: LogicalTableRecord) {
    && t.tableName == r.tableName && t.routeSource == r.routeSource
    && t.physicalNameTemplate == r.physicalNameTemplate && t.enabled && t.extra == MARK
  }

  /** The store's table of this name has this id. */
  predicate IsTable(db: Store, id: int, name: string) {
    exists t :: t in db.logicalTables && t.id == id && t.tableName == name && Marked(t.extra)
  }

  predicate IsDatasource(db: Store, id: int, code: string) {
    exists d :: d in db.datasources && d.id == id && d.code == code && Marked(d.extra)
  }

  predicate FactorFrom(db: Store, f: RouteFactor, r: FactorRecord) {
    && IsTable(db, f.logicalTableId, r.logicalTableName)
    && f.factorName == r.factorName && f.sourceType == r.sourceType && f.sourceKey == r.sourceKey
    && f.required && f.enabled
  }

  predicate RuleFrom(db: Store, x: RouteRule, r: RuleRecord) {
    && IsTable(db, x.logicalTableId, r.logicalTableName)
    && x.ruleName == r.ruleName && x.ruleType == r.ruleType && x.expression == r.expression && x.enabled
  }

  predicate RouteFrom(db: Store, x: PhysicalRoute, r: RouteRecord) {
    && IsTable(db, x.logicalTableId, r.logicalTableName) && IsDatasource(db, x.datasourceId, r.datasourceCode)
    && x.routeValue == r.routeValue && x.physicalTableName == r.physicalTableName && x.enabled
  }

  ghost predicate DatasourcesHeld(db: Store, f: Store, rs: seq<DatasourceRecord>) {
    && |db.datasources| == |f.datasources| + |rs| && f.datasources <= db.datasources
    && forall i :: 0 <= i < |rs| ==> DatasourceFrom(db.datasources[|f.datasources| + i], rs[i])
  }

  ghost predicate TablesHeld(db: Store, f: Store, rs: seq<LogicalTableRecord>) {
    && |db.logicalTables| == |f.logicalTables| + |rs| && f.logicalTables <= db.logicalTables
    && forall i :: 0 <= i < |rs| ==> TableFrom(db.logicalTables[|f.logicalTables| + i], rs[i])
  }

  ghost predicate FactorsHeld(db: Store, f: Store, rs: seq<FactorRecord>) {
    && |db.factors| == |f.factors| + |rs| && f.factors <= db.factors
    && forall i :: 0 <= i < |rs| ==> FactorFrom(db, db.factors[|f.factors| + i], rs[i])
  }

  ghost predicate RulesHeld(db: Store, f: Store, rs: seq<RuleRecord>) {
    && |db.rules| == |f.rules| + |rs| && f.rules <= db.rules
    && forall i :: 0 <= i < |rs| ==> RuleFrom(db, db.rules[|f.rules| + i], rs[i])
  }

  ghost predicate RoutesHeld(db: Store, f: Store, rs: seq<RouteRecord>) {
    && |db.routes| == |f.routes| + |rs| && f.routes <= db.routes
    && forall i :: 0 <= i < |rs| ==> RouteFrom(db, db.routes[|f.routes| + i], rs[i])
  }

  /** The store is the rows of `f`, then one row per record of the bundle, in order, each enabled and linked by name. */
  ghost predicate Holds(db: Store, f: Store, b: SyncBundle) {
    && DatasourcesHeld(db, f, b.datasources) && TablesHeld(db, f, b.logicalTables)
    && FactorsHeld(db, f, b.factors) && RulesHeld(db, f, b.rules) && RoutesHeld(db, f, b.routes)
  }

  lemma TableLinked(f: Store, n: int, b: SyncBundle, name: string)
    requires TableIndex(b.logicalTables, name) < |b.logicalTables|
    ensures IsTable(Merge(f, n, b), n + |b.datasources| + TableIndex(b.logicalTables, name), name)
  {
    var db := Merge(f, n, b);
    var i := TableIndex(b.logicalTables, name);
    var t := db.logicalTables[|f.logicalTables| + i];
    assert t == NewTableRow(n + |b.datasources| + i, b.logicalTables[i]);
    assert t in db.logicalTables;
  }

  lemma DatasourceLinked(f: Store, n: int, b: SyncBundle, code: string)
    requires DatasourceIndex(b.datasources, code) < |b.datasources|
    ensures IsDatasource(Merge(f, n, b), n + DatasourceIndex(b.datasources, code), code)
  {
    var db := Merge(f, n, b);
    var i := DatasourceIndex(b.datasources, code);
    var d := db.datasources[|f.datasources| + i];
    assert d == NewDatasourceRow(n + i, b.datasources[i]);
    assert d in db.datasources;
  }

  lemma FactorLinked(f: Store, n: int, b: SyncBundle)
    requires FactorsReady(b.logicalTables, b.factors)
    ensures FactorsHeld(Merge(f, n, b), f, b.factors)
  {
    hide TableIndex, IsTable;
    forall i | 0 <= i < |b.factors|
      ensures IsTable(Merge(f, n, b), Merge(f, n, b).factors[|f.factors| + i].logicalTableId,
                      b.factors[i].logicalTableName)
    {
      TableLinked(f, n, b, b.factors[i].logicalTableName);
    }
  }

  lemma RuleLinked(f: Store, n: int, b: SyncBundle)
    requires RulesReady(b.logicalTables, b.rules)
    ensures RulesHeld(Merge(f, n, b), f, b.rules)
  {
    hide TableIndex, IsTable;
    forall i | 0 <= i < |b.rules|
      ensures IsTable(Merge(f, n, b), Merge(f, n, b).rules[|f.rules| + i].logicalTableId, b.rules[i].logicalTableName)
    {
      TableLinked(f, n, b, b.rules[i].logicalTableName);
    }
  }

  lemma RouteLinked(f: Store, n: int, b: SyncBundle)
    requires RoutesReady(b.logicalTables, b.datasources, b.routes)
    ensures RoutesHeld(Merge(f, n, b), f, b.routes)
  {
    hide TableIndex, DatasourceIndex, IsTable, IsDatasource;
    forall i | 0 <= i < |b.routes|
      ensures IsTable(Merge(f, n, b), Merge(f, n, b).routes[|f.routes| + i].logicalTableId,
                      b.routes[i].logicalTableName)
      ensures IsDatasource(Merge(f, n, b), Merge(f, n, b).routes[|f.routes| + i].datasourceId,
                           b.routes[i].datasourceCode)
    {
      TableLinked(f, n, b, b.routes[i].logicalTableName);
      DatasourceLinked(f, n, b, b.routes[i].datasourceCode);
    }
  }

  lemma MergeHolds(f: Store, n: int, b: SyncBundle)
    requires Loadable(f, b)
    ensures Holds(Merge(f, n, b), f, b)
  {
    FactorLinked(f, n, b);
    RuleLinked(f, n, b);
    RouteLinked(f, n, b);
    hide FactorsHeld, RulesHeld, RoutesHeld, FactorsReady, RulesReady, RoutesReady, FreshCodes, FreshNames;
  }

  // ------------------------------------------------------------ the default policy

  /** The policy a store without the default one is given. */
  predicate IsDefaultPolicy(p: Policy) {
    && p.policyCode == "default_select_guard" && p.allowSqlTypes == ["select"]
    && p.requireLimit && p.maxLimit == 1000 && p.enabled
  }

  predicate HasDefaultPolicy(db: Store) {
    exists p :: p in db.policies && p.policyCode == "default_select_guard"
  }

  lemma PolicyEnsured(s: Session)
    ensures var p := EnsureDefaultPolicy(s);
            && p.db == s.db.(policies := p.db.policies)
            && (HasDefaultPolicy(s.db) ==> p == s)
            && (!HasDefaultPolicy(s.db) ==>
                  && p.nextId == s.nextId + 1 && |p.db.policies| == |s.db.policies| + 1
                  && s.db.policies <= p.db.policies
                  && IsDefaultPolicy(p.db.policies[|s.db.policies|]) && p.db.policies[|s.db.policies|].id == s.nextId)
  {
    if HasDefaultPolicy(s.db) {
      var p :| p in s.db.policies && p.policyCode == "default_select_guard";
      var i :| 0 <= i < |s.db.policies| && s.db.policies[i] == p;
      assert s.db.policies[i].policyCode == DEFAULT_POLICY_CODE;
    } else {
      assert forall i :: 0 <= i < |s.db.policies| ==> s.db.policies[i] in s.db.policies;
    }
  }

  // ------------------------------------------------------------ the store after a commit

  /**
   A committed re-import leaves the unmarked rows, then one row per record of the bundle, and the
   policies it found, with the default one (SELECT only, a limit required, at most 1000) after them if it
   was not among them.
   */
  lemma CommittedExactly(s: Session, b: SyncBundle)
    requires ValidSession(s) && SyncSpec(s, b).Ok?
    ensures var db := SyncSpec(s, b).value.db;
            && Holds(db, Foreign(s.db), b)
            && s.db.policies <= db.policies
            && (HasDefaultPolicy(s.db) ==> db.policies == s.db.policies)
            && (!HasDefaultPolicy(s.db) ==>
                  |db.policies| == |s.db.policies| + 1 && IsDefaultPolicy(db.policies[|s.db.policies|]))
  {
    hide EnsureDefaultPolicy, SyncSpec, Loadable, ForeignRouteOnImport, ValidSession, Holds, HasDefaultPolicy,
         IsDefaultPolicy;
    SyncExactly(s, b);
    PolicyEnsured(s);
    var p := EnsureDefaultPolicy(s);
    MergeHolds(Foreign(p.db), p.nextId, b);
    SameForeign(s.db, p.db, Merge(Foreign(p.db), p.nextId, b), b);
  }

  lemma SameForeign(a: Store, c: Store, db: Store, b: SyncBundle)
    requires c == a.(policies := c.policies) && Holds(db, Foreign(c), b)
    ensures Holds(db, Foreign(a), b)
  {
    hide DatasourceFrom, TableFrom, FactorFrom, RuleFrom, RouteFrom;
  }

  /** On a store without a default policy, an import makes the filters demand a SELECT with a limit of at most 1000. */
  lemma ImportInstallsPolicy(s: Session, b: SyncBundle, policy: Policy)
    requires ValidSession(s) && SyncSpec(s, b).Ok? && !HasDefaultPolicy(s.db)
    ensures FilterChain.DefaultPolicy(SyncSpec(s, b).value.db, policy) ==> IsDefaultPolicy(policy)
    ensures exists p :: FilterChain.DefaultPolicy(SyncSpec(s, b).value.db, p)
  {
    hide SyncSpec, ValidSession, Holds;
    CommittedExactly(s, b);
    var db := SyncSpec(s, b).value.db;
    var n := |s.db.policies|;
    assert FilterChain.DefaultPolicy(db, db.policies[n]);
    assert forall k :: 0 <= k < n ==> db.policies[k] == s.db.policies[k] && s.db.policies[k] in s.db.policies;
    if FilterChain.DefaultPolicy(db, policy) {
      var i :| 0 <= i < |db.policies| && db.policies[i] == policy;
    }
  }

  /** No imported datasource is ever a candidate of the Redis gate. */
  lemma ImportedNeverRedis(s: Session, b: SyncBundle, d: Datasource)
    requires ValidSession(s) && SyncSpec(s, b).Ok?
    ensures d in Redis.Candidates(SyncSpec(s, b).value.db) ==> d in s.db.datasources && !Marked(d.extra)
  {
    hide SyncSpec, TablesHeld, FactorsHeld, RulesHeld, RoutesHeld, ValidStore;
    CommittedExactly(s, b);
    ForeignExactly(s.db);
    hide Foreign;
    var db := SyncSpec(s, b).value.db;
    var n := |Foreign(s.db).datasources|;
    forall k | n <= k < |db.datasources|
      ensures db.datasources[k].dbType == "mysql"
    {
      assert DatasourceFrom(db.datasources[n + (k - n)], b.datasources[k - n]);
    }
    if d in Redis.Candidates(db) {
      var i :| 0 <= i < |db.datasources| && db.datasources[i] == d;
      assert db.datasources[i] == Foreign(s.db).datasources[i];
    }
  }
}
