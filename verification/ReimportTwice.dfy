/** No foreign row changes, and a second re-import of the same bundle changes nothing but ids. */
module ReimportTwice {
  import opened Wrappers
  import opened Sequences
  import opened Metadata
  import opened Importer
  import opened Reimport
  import opened ReimportProofs
  import opened ReimportMerge

  // ------------------------------------------------------------ the foreign rows of a merged store

  /** All table and datasource ids of `f` are below `n`, and its rows refer to nothing later. */
  ghost predicate Settled(f: Store, n: int) {
    && NothingImported(f)
    && RefersBefore(f, n)
    && (forall i :: 0 <= i < |f.logicalTables| ==> f.logicalTables[i].id < n)
    && (forall i :: 0 <= i < |f.datasources| ==> f.datasources[i].id < n)
    && (forall i :: 0 <= i < |f.routes| ==> f.routes[i].datasourceId < n)
  }

  lemma MergedTableIds(f: seq<LogicalTable>, t: int, rs: seq<LogicalTableRecord>)
    requires forall x :: x in f ==> !FromImport(x.extra)
    ensures ImportedTableIds(f + TableRows(t, rs)) == IndexRange(t, t + |rs|)
  {
    var all := f + TableRows(t, rs);
    assert forall k :: 0 <= k < |f| ==> all[k] in f;
    var want := IndexRange(t, t + |rs|);
    forall id | id in ImportedTableIds(all)
      ensures id in want
    {
      var x :| x in all && FromImport(x.extra) && x.id == id;
      var k :| 0 <= k < |all| && all[k] == x;
      assert x == NewTableRow(t + (k - |f|), rs[k - |f|]);
    }
    forall id | id in want
      ensures id in ImportedTableIds(all)
    {
      var i := id - t;
      assert all[|f| + i] in all && FromImport(all[|f| + i].extra);
    }
  }

  lemma MergedDatasourceIds(f: seq<Datasource>, n: int, rs: seq<DatasourceRecord>)
    requires forall x :: x in f ==> !FromImport(x.extra)
    ensures ImportedDatasourceIds(f + DatasourceRows(n, rs)) == IndexRange(n, n + |rs|)
  {
    var all := f + DatasourceRows(n, rs);
    assert forall k :: 0 <= k < |f| ==> all[k] in f;
    var want := IndexRange(n, n + |rs|);
    forall id | id in ImportedDatasourceIds(all)
      ensures id in want
    {
      var x :| x in all && FromImport(x.extra) && x.id == id;
      var k :| 0 <= k < |all| && all[k] == x;
      assert x == NewDatasourceRow(n + (k - |f|), rs[k - |f|]);
    }
    forall id | id in want
      ensures id in ImportedDatasourceIds(all)
    {
      var i := id - n;
      assert all[|f| + i] in all && FromImport(all[|f| + i].extra);
    }
  }

  lemma MergedIds(f: Store, n: int, b: SyncBundle)
    requires NothingImported(f)
    ensures var m, t := Merge(f, n, b), n + |b.datasources|;
            && ImportedTableIds(m.logicalTables) == IndexRange(t, t + |b.logicalTables|)
            && ImportedDatasourceIds(m.datasources) == IndexRange(n, t)
  {
    hide ImportedTableIds, ImportedDatasourceIds, IndexRange;
    MergedTableIds(f.logicalTables, n + |b.datasources|, b.logicalTables);
    MergedDatasourceIds(f.datasources, n, b.datasources);
  }

  lemma ForeignTablesBack(f: Store, n: int, b: SyncBundle, ids: set<int>)
    requires Settled(f, n) && ids == IndexRange(n + |b.datasources|, n + |b.datasources| + |b.logicalTables|)
    ensures TablesOutside(Merge(f, n, b).logicalTables, ids) == f.logicalTables
  {
    hide Filter, NothingImported, IndexRange;
    FilterSplit((x: LogicalTable) => x.id !in ids, f.logicalTables, TableRows(n + |b.datasources|, b.logicalTables));
  }

  lemma ForeignDatasourcesBack(f: Store, n: int, b: SyncBundle, ids: set<int>)
    requires Settled(f, n) && ids == IndexRange(n, n + |b.datasources|)
    ensures DatasourcesOutside(Merge(f, n, b).datasources, ids) == f.datasources
    ensures !DatasourceReferenced(f.routes, ids)
  {
    hide Filter, NothingImported, IndexRange;
    FilterSplit((x: Datasource) => x.id !in ids, f.datasources, DatasourceRows(n, b.datasources));
  }

  /** The foreign rows of a merged store are the rows it was merged from. */
  lemma ForeignOfMerge(f: Store, n: int, b: SyncBundle)
    requires Settled(f, n) && FactorsReady(b.logicalTables, b.factors) && RulesReady(b.logicalTables, b.rules)
    requires RoutesReady(b.logicalTables, b.datasources, b.routes)
    ensures Foreign(Merge(f, n, b)) == f
    ensures !ForeignRouteOnImport(Merge(f, n, b))
  {
    hide ImportedTableIds, ImportedDatasourceIds, Filter, Merge, Settled, IndexRange, FactorsReady, RulesReady,
         RoutesReady, RoutesOutside, FactorsOutside, RulesOutside, TablesOutside, DatasourcesOutside,
             DatasourceReferenced;
    SettledParts(f, n);
    MergedIds(f, n, b);
    var ids := IndexRange(n + |b.datasources|, n + |b.datasources| + |b.logicalTables|);
    ForeignRoutesBack(f, n, b, ids);
    ForeignFactorsBack(f, n, b, ids);
    ForeignRulesBack(f, n, b, ids);
    ForeignTablesBack(f, n, b, ids);
    ForeignDatasourcesBack(f, n, b, IndexRange(n, n + |b.datasources|));
    SamePolicies(f, n, b);
  }

  lemma SamePolicies(f: Store, n: int, b: SyncBundle)
    ensures Merge(f, n, b).policies == f.policies
  {
  }

  lemma SettledParts(f: Store, n: int)
    requires Settled(f, n)
    ensures NothingImported(f)
  {
  }

  lemma ForeignRoutesBack(f: Store, n: int, b: SyncBundle, ids: set<int>)
    requires Settled(f, n) && RoutesReady(b.logicalTables, b.datasources, b.routes)
    requires ids == IndexRange(n + |b.datasources|, n + |b.datasources| + |b.logicalTables|)
    ensures RoutesOutside(Merge(f, n, b).routes, ids) == f.routes
  {
    hide Filter, TableIndex, DatasourceIndex, NothingImported;
    var t := n + |b.datasources|;
    var rows :=
        RouteRows(t + |b.logicalTables| + |b.factors| + |b.rules|, t, n, b.logicalTables, b.datasources, b.routes);
    forall i | 0 <= i < |rows|
      ensures rows[i].logicalTableId in ids
    {
      assert KnownTable(b.logicalTables, b.routes[i].logicalTableName);
      assert rows[i].logicalTableId == t + TableIndex(b.logicalTables, b.routes[i].logicalTableName);
    }
    FilterSplit((r: PhysicalRoute) => r.logicalTableId !in ids, f.routes, rows);
  }

  lemma ForeignFactorsBack(f: Store, n: int, b: SyncBundle, ids: set<int>)
    requires Settled(f, n) && FactorsReady(b.logicalTables, b.factors)
    requires ids == IndexRange(n + |b.datasources|, n + |b.datasources| + |b.logicalTables|)
    ensures FactorsOutside(Merge(f, n, b).factors, ids) == f.factors
  {
    hide Filter, TableIndex, NothingImported;
    var t := n + |b.datasources|;
    var rows := FactorRows(t + |b.logicalTables|, t, b.logicalTables, b.factors);
    forall i | 0 <= i < |rows|
      ensures rows[i].logicalTableId in ids
    {
      assert KnownTable(b.logicalTables, b.factors[i].logicalTableName);
      assert rows[i].logicalTableId == t + TableIndex(b.logicalTables, b.factors[i].logicalTableName);
    }
    FilterSplit((r: RouteFactor) => r.logicalTableId !in ids, f.factors, rows);
  }

  lemma ForeignRulesBack(f: Store, n: int, b: SyncBundle, ids: set<int>)
    requires Settled(f, n) && RulesReady(b.logicalTables, b.rules)
    requires ids == IndexRange(n + |b.datasources|, n + |b.datasources| + |b.logicalTables|)
    ensures RulesOutside(Merge(f, n, b).rules, ids) == f.rules
  {
    hide Filter, TableIndex, NothingImported;
    var t := n + |b.datasources|;
    var rows := RuleRows(t + |b.logicalTables| + |b.factors|, t, b.logicalTables, b.rules);
    forall i | 0 <= i < |rows|
      ensures rows[i].logicalTableId in ids
    {
      assert KnownTable(b.logicalTables, b.rules[i].logicalTableName);
      assert rows[i].logicalTableId == t + TableIndex(b.logicalTables, b.rules[i].logicalTableName);
    }
    FilterSplit((r: RouteRule) => r.logicalTableId !in ids, f.rules, rows);
  }

  lemma ForeignIsSettled(s: Session)
    requires ValidSession(s) && !ForeignRouteOnImport(s.db)
    ensures Settled(Foreign(s.db), s.nextId)
  {
    hide ForeignRouteOnImport, ValidSession, Foreign, NothingImported, RefersBefore, DeletePreviousImport;
    DeletePreviousExactly(s);
    DeletePreviousKeepsValid(s);
    ForeignHasNoImport(s.db);
    ValidRefersBefore(Session(Foreign(s.db), s.nextId));
    SettledIds(Session(Foreign(s.db), s.nextId));
  }

  lemma SettledIds(s: Session)
    requires ValidSession(s)
    ensures forall i :: 0 <= i < |s.db.logicalTables| ==> s.db.logicalTables[i].id < s.nextId
    ensures forall i :: 0 <= i < |s.db.datasources| ==> s.db.datasources[i].id < s.nextId
    ensures forall i :: 0 <= i < |s.db.routes| ==> s.db.routes[i].datasourceId < s.nextId
  {
    var db := s.db;
    assert forall i :: 0 <= i < |db.logicalTables| ==> db.logicalTables[i] in db.logicalTables;
    assert forall i :: 0 <= i < |db.datasources| ==> db.datasources[i] in db.datasources;
    forall i | 0 <= i < |db.routes|
      ensures db.routes[i].datasourceId < s.nextId
    {
      assert db.routes[i] in db.routes;
      var k :| 0 <= k < |db.datasources| && db.datasources[k].id == db.routes[i].datasourceId;
    }
  }

  /** A committed re-import touches no foreign row. */
  lemma ForeignUntouched(s: Session, b: SyncBundle)
    requires ValidSession(s) && SyncSpec(s, b).Ok?
    ensures Foreign(SyncSpec(s, b).value.db) == Foreign(EnsureDefaultPolicy(s).db)
    ensures !ForeignRouteOnImport(SyncSpec(s, b).value.db)
  {
    hide ValidSession, SyncSpec, EnsureDefaultPolicy, Foreign, ForeignRouteOnImport, Merge, Settled, FactorsReady,
         RulesReady, RoutesReady, FreshCodes, FreshNames;
    SyncExactly(s, b);
    PolicyKeepsValid(s);
    var p := EnsureDefaultPolicy(s);
    ForeignIsSettled(p);
    ForeignOfMerge(Foreign(p.db), p.nextId, b);
  }

  // ------------------------------------------------------------ twice

  lemma PolicyStays(s: Session, b: SyncBundle)
    requires ValidSession(s) && SyncSpec(s, b).Ok?
    ensures EnsureDefaultPolicy(SyncSpec(s, b).value) == SyncSpec(s, b).value
  {
    hide ValidSession, SyncSpec, EnsureDefaultPolicy;
    SyncExactly(s, b);
    PolicyPresent(s);
    var p := EnsureDefaultPolicy(s);
    assert SyncSpec(s, b).value.db.policies == p.db.policies;
    PolicyEnough(SyncSpec(s, b).value);
  }

  predicate HasDefaultPolicy(ps: seq<Policy>) {
    exists i :: 0 <= i < |ps| && ps[i].policyCode == DEFAULT_POLICY_CODE
  }

  lemma PolicyPresent(s: Session)
    ensures HasDefaultPolicy(EnsureDefaultPolicy(s).db.policies)
  {
    var ps := EnsureDefaultPolicy(s).db.policies;
    if !HasDefaultPolicy(s.db.policies) {
      assert ps[|ps| - 1].policyCode == DEFAULT_POLICY_CODE;
    }
  }

  lemma PolicyEnough(s: Session)
    requires HasDefaultPolicy(s.db.policies)
    ensures EnsureDefaultPolicy(s) == s
  {
  }

  /** The default policy decides nothing about a re-import. */
  lemma PolicyApart(s: Session, b: SyncBundle)
    ensures ForeignRouteOnImport(EnsureDefaultPolicy(s).db) == ForeignRouteOnImport(s.db)
    ensures Loadable(Foreign(EnsureDefaultPolicy(s).db), b) == Loadable(Foreign(s.db), b)
  {
    hide FreshCodes, FreshNames, FactorsReady, RulesReady, RoutesReady, RoutesOutside, FactorsOutside, RulesOutside,
         TablesOutside, DatasourcesOutside,
         ImportedTableIds, ImportedDatasourceIds, DatasourceReferenced;
  }

  /** Importing the same bundle again commits, and differs only in the number its ids start from. */
  lemma SyncTwice(s: Session, b: SyncBundle)
    requires ValidSession(s) && SyncSpec(s, b).Ok?
    ensures var p := EnsureDefaultPolicy(s);
            var once := SyncSpec(s, b).value;
            && once.db == Merge(Foreign(p.db), p.nextId, b)
            && SyncSpec(once, b) == Ok(Session(Merge(Foreign(p.db), once.nextId, b), once.nextId + Size(b)))
            && View(SyncSpec(once, b).value.db) == View(once.db)
  {
    hide ValidSession, SyncSpec, EnsureDefaultPolicy, Foreign, ForeignRouteOnImport, Merge, Loadable, View, Settled;
    var p, once := EnsureDefaultPolicy(s), SyncSpec(s, b).value;
    SyncExactly(s, b);
    SyncKeepsValid(s, b);
    ForeignUntouched(s, b);
    PolicyStays(s, b);
    SyncExactly(once, b);
    PolicyKeepsValid(s);
    ForeignIsSettled(p);
    ViewOfMerge(Foreign(p.db), p.nextId, once.nextId, b);
  }

  // ------------------------------------------------------------ the store up to ids

  datatype FactorView = FactorView(table: string, factor: RouteFactor)
  datatype RuleView = RuleView(table: string, rule: RouteRule)
  datatype RouteView = RouteView(table: string, datasource: string, route: PhysicalRoute)

  datatype StoreView = StoreView(
    datasources: seq<Datasource>, logicalTables: seq<LogicalTable>, factors: seq<FactorView>, rules: seq<RuleView>,
    routes: seq<RouteView>)

  function TableName(ts: seq<LogicalTable>, id: int): string {
    match LogicalTableById(ts, id) case None => "" case Some(t) => t.tableName
  }

  function CodeOf(ds: seq<Datasource>, id: int): string {
    match DatasourceById(ds, id) case None => "" case Some(d) => d.code
  }

  /** The store with every id dropped and every reference replaced by the name it stands for. */
  function View(db: Store): StoreView {
    StoreView(
      seq(|db.datasources|, i requires 0 <= i < |db.datasources| => db.datasources[i].(id := 0)),
      seq(|db.logicalTables|, i requires 0 <= i < |db.logicalTables| => db.logicalTables[i].(id := 0)),
      FactorViews(db.logicalTables, db.factors),
      RuleViews(db.logicalTables, db.rules),
      RouteViews(db.logicalTables, db.datasources, db.routes))
  }

  function FactorViews(ts: seq<LogicalTable>, fs: seq<RouteFactor>): (v: seq<FactorView>)
    ensures |v| == |fs|
    ensures forall i :: 0 <= i < |fs| ==>
          v[i] == FactorView(TableName(ts, fs[i].logicalTableId), fs[i].(id := 0, logicalTableId := 0))
  {
    seq(|fs|, i requires 0 <= i < |fs| => FactorView(TableName(ts, fs[i].logicalTableId),
        fs[i].(id := 0, logicalTableId := 0)))
  }

  function RuleViews(ts: seq<LogicalTable>, rs: seq<RouteRule>): (v: seq<RuleView>)
    ensures |v| == |rs|
    ensures forall i :: 0 <= i < |rs| ==>
          v[i] == RuleView(TableName(ts, rs[i].logicalTableId), rs[i].(id := 0, logicalTableId := 0))
  {
    seq(|rs|, i requires 0 <= i < |rs| => RuleView(TableName(ts, rs[i].logicalTableId),
        rs[i].(id := 0, logicalTableId := 0)))
  }

  function RouteViews(ts: seq<LogicalTable>, ds: seq<Datasource>, rs: seq<PhysicalRoute>): (v: seq<RouteView>)
    ensures |v| == |rs|
    ensures forall i :: 0 <= i < |rs| ==>
              v[i] == RouteView(TableName(ts, rs[i].logicalTableId), CodeOf(ds, rs[i].datasourceId),
                                rs[i].(id := 0, logicalTableId := 0, datasourceId := 0))
  {
    seq(|rs|, i requires 0 <= i < |rs| =>
      RouteView(TableName(ts, rs[i].logicalTableId), CodeOf(ds, rs[i].datasourceId),
          rs[i].(id := 0, logicalTableId := 0, datasourceId := 0)))
  }

  /** A table id of a merged store leads to the foreign table or to the record's name. */
  lemma {:induction false} MergedTableName(f: seq<LogicalTable>, t: int, rs: seq<LogicalTableRecord>, id: int)
    ensures HasTable(f, id) ==> TableName(f + TableRows(t, rs), id) == TableName(f, id)
    ensures !HasTable(f, id) && 0 <= id - t < |rs| ==> TableName(f + TableRows(t, rs), id) == rs[id - t].tableName
    ensures !HasTable(f, id) && !(0 <= id - t < |rs|) ==> TableName(f + TableRows(t, rs), id) == ""
    decreases |f| + |rs|
  {
    var all := f + TableRows(t, rs);
    if f != [] {
      assert all[0] == f[0];
      assert all[1..] == f[1..] + TableRows(t, rs);
      MergedTableName(f[1..], t, rs, id);
      HasTableTail(f, id);
    } else if rs != [] {
      assert all[0] == NewTableRow(t, rs[0]);
      assert all[1..] == [] + TableRows(t + 1, rs[1..]);
      MergedTableName([], t + 1, rs[1..], id);
    }
  }

  lemma HasTableTail(ts: seq<LogicalTable>, id: int)
    requires ts != []
    ensures HasTable(ts, id) <==> ts[0].id == id || HasTable(ts[1..], id)
  {
    if HasTable(ts[1..], id) {
      var i :| 0 <= i < |ts[1..]| && ts[1..][i].id == id;
      assert ts[i + 1].id == id;
    }
  }

  lemma HasDatasourceTail(ds: seq<Datasource>, id: int)
    requires ds != []
    ensures HasDatasource(ds, id) <==> ds[0].id == id || HasDatasource(ds[1..], id)
  {
    if HasDatasource(ds[1..], id) {
      var i :| 0 <= i < |ds[1..]| && ds[1..][i].id == id;
      assert ds[i + 1].id == id;
    }
  }

  lemma {:induction false} MergedCode(f: seq<Datasource>, n: int, rs: seq<DatasourceRecord>, id: int)
    ensures HasDatasource(f, id) ==> CodeOf(f + DatasourceRows(n, rs), id) == CodeOf(f, id)
    ensures !HasDatasource(f, id) && 0 <= id - n < |rs| ==> CodeOf(f + DatasourceRows(n, rs), id) == rs[id - n].code
    ensures !HasDatasource(f, id) && !(0 <= id - n < |rs|) ==> CodeOf(f + DatasourceRows(n, rs), id) == ""
    decreases |f| + |rs|
  {
    var all := f + DatasourceRows(n, rs);
    if f != [] {
      assert all[0] == f[0];
      assert all[1..] == f[1..] + DatasourceRows(n, rs);
      MergedCode(f[1..], n, rs, id);
      HasDatasourceTail(f, id);
    } else if rs != [] {
      assert all[0] == NewDatasourceRow(n, rs[0]);
      assert all[1..] == [] + DatasourceRows(n + 1, rs[1..]);
      MergedCode([], n + 1, rs[1..], id);
    }
  }

  lemma NewIdsFree(f: Store, n: int)
    requires Settled(f, n)
    ensures forall id :: HasTable(f.logicalTables, id) ==> id < n
    ensures forall id :: HasDatasource(f.datasources, id) ==> id < n
  {
    hide NothingImported, RefersBefore;
  }

  /** The name behind an old id, and behind a new one, does not depend on where the new ids start. */
  lemma SameTableName(f: Store, n: int, m: int, b: SyncBundle, id: int, name: string)
    requires Settled(f, n) && Settled(f, m)
    ensures id < n && id < m ==>
              TableName(Merge(f, n, b).logicalTables, id) == TableName(Merge(f, m, b).logicalTables, id)
    ensures KnownTable(b.logicalTables, name) ==>
              && TableName(Merge(f, n, b).logicalTables, n + |b.datasources| + TableIndex(b.logicalTables, name)) ==
                    name
              && TableName(Merge(f, m, b).logicalTables, m + |b.datasources| + TableIndex(b.logicalTables, name)) ==
                    name
  {
    hide TableName, LogicalTableById, HasTable, Settled, FactorRows, RuleRows, RouteRows, DatasourceRows, TableRows,
         TableIndex;
    NewIdsFree(f, n);
    NewIdsFree(f, m);
    var a, c := n + |b.datasources|, m + |b.datasources|;
    MergedTableName(f.logicalTables, a, b.logicalTables, id);
    MergedTableName(f.logicalTables, c, b.logicalTables, id);
    MergedTableName(f.logicalTables, a, b.logicalTables, a + TableIndex(b.logicalTables, name));
    MergedTableName(f.logicalTables, c, b.logicalTables, c + TableIndex(b.logicalTables, name));
  }

  lemma SameCode(f: Store, n: int, m: int, b: SyncBundle, id: int, code: string)
    requires Settled(f, n) && Settled(f, m)
    ensures id < n && id < m ==> CodeOf(Merge(f, n, b).datasources, id) == CodeOf(Merge(f, m, b).datasources, id)
    ensures KnownDatasource(b.datasources, code) ==>
              && CodeOf(Merge(f, n, b).datasources, n + DatasourceIndex(b.datasources, code)) == code
              && CodeOf(Merge(f, m, b).datasources, m + DatasourceIndex(b.datasources, code)) == code
  {
    hide CodeOf, DatasourceById, HasDatasource, Settled, FactorRows, RuleRows, RouteRows, DatasourceRows, TableRows,
         DatasourceIndex;
    NewIdsFree(f, n);
    NewIdsFree(f, m);
    MergedCode(f.datasources, n, b.datasources, id);
    MergedCode(f.datasources, m, b.datasources, id);
    MergedCode(f.datasources, n, b.datasources, n + DatasourceIndex(b.datasources, code));
    MergedCode(f.datasources, m, b.datasources, m + DatasourceIndex(b.datasources, code));
  }

  lemma SettledLater(f: Store, n: int, m: int)
    requires Settled(f, n) && n <= m
    ensures Settled(f, m)
  {
  }

  /** Up to ids, a merged store does not depend on the first free id. */
  lemma ViewOfMerge(f: Store, n: int, m: int, b: SyncBundle)
    requires Settled(f, n) && n <= m && Loadable(f, b)
    ensures View(Merge(f, m, b)) == View(Merge(f, n, b))
  {
    SettledLater(f, n, m);
    hide Settled;
    SameFactorViews(f, n, m, b);
    SameRuleViews(f, n, m, b);
    SameRouteViews(f, n, m, b);
    SameRowViews(f, n, m, b);
  }

  lemma SameRowViews(f: Store, n: int, m: int, b: SyncBundle)
    ensures View(Merge(f, m, b)).datasources == View(Merge(f, n, b)).datasources
    ensures View(Merge(f, m, b)).logicalTables == View(Merge(f, n, b)).logicalTables
  {
    hide FactorViews, RuleViews, RouteViews, FactorRows, RuleRows, RouteRows;
  }

  lemma SameFactorViews(f: Store, n: int, m: int, b: SyncBundle)
    requires Settled(f, n) && Settled(f, m) && FactorsReady(b.logicalTables, b.factors)
    ensures FactorViews(Merge(f, m, b).logicalTables, Merge(f, m, b).factors) ==
          FactorViews(Merge(f, n, b).logicalTables, Merge(f, n, b).factors)
  {
    hide TableName, TableIndex, KnownTable, RuleRows, RouteRows, DatasourceRows, TableRows, Settled, FactorsReady;
    var a, c := Merge(f, n, b), Merge(f, m, b);
    forall i | 0 <= i < |a.factors|
      ensures FactorViews(c.logicalTables, c.factors)[i] == FactorViews(a.logicalTables, a.factors)[i]
    {
      SameFactorView(f, n, m, b, i);
    }
  }

  lemma SameFactorView(f: Store, n: int, m: int, b: SyncBundle, i: nat)
    requires Settled(f, n) && Settled(f, m) && FactorsReady(b.logicalTables, b.factors)
    requires i < |f.factors| + |b.factors|
    ensures var a, c := Merge(f, n, b), Merge(f, m, b);
            TableName(c.logicalTables, c.factors[i].logicalTableId) ==
                TableName(a.logicalTables, a.factors[i].logicalTableId)
  {
    hide TableName, TableIndex, RuleRows, RouteRows, DatasourceRows, TableRows, KnownTable, NothingImported;
    var a := Merge(f, n, b);
    SameTableName(f, n, m, b, a.factors[i].logicalTableId, if i < |f.factors| then ""
        else b.factors[i - |f.factors|].logicalTableName);
  }

  lemma SameRuleView(f: Store, n: int, m: int, b: SyncBundle, i: nat)
    requires Settled(f, n) && Settled(f, m) && RulesReady(b.logicalTables, b.rules)
    requires i < |f.rules| + |b.rules|
    ensures var a, c := Merge(f, n, b), Merge(f, m, b);
            TableName(c.logicalTables, c.rules[i].logicalTableId) ==
                TableName(a.logicalTables, a.rules[i].logicalTableId)
  {
    hide TableName, TableIndex, FactorRows, RouteRows, DatasourceRows, TableRows, KnownTable, NothingImported;
    var a := Merge(f, n, b);
    SameTableName(f, n, m, b, a.rules[i].logicalTableId, if i < |f.rules| then ""
        else b.rules[i - |f.rules|].logicalTableName);
  }

  lemma SameRuleViews(f: Store, n: int, m: int, b: SyncBundle)
    requires Settled(f, n) && Settled(f, m) && RulesReady(b.logicalTables, b.rules)
    ensures RuleViews(Merge(f, m, b).logicalTables, Merge(f, m, b).rules) ==
          RuleViews(Merge(f, n, b).logicalTables, Merge(f, n, b).rules)
  {
    hide TableName, TableIndex, KnownTable, FactorRows, RouteRows, DatasourceRows, TableRows, Settled, RulesReady;
    var a, c := Merge(f, n, b), Merge(f, m, b);
    forall i | 0 <= i < |a.rules|
      ensures RuleViews(c.logicalTables, c.rules)[i] == RuleViews(a.logicalTables, a.rules)[i]
    {
      SameRuleView(f, n, m, b, i);
    }
  }

  lemma SameRouteView(f: Store, n: int, m: int, b: SyncBundle, i: nat)
    requires Settled(f, n) && Settled(f, m) && RoutesReady(b.logicalTables, b.datasources, b.routes)
    requires i < |f.routes| + |b.routes|
    ensures var a, c := Merge(f, n, b), Merge(f, m, b);
            && TableName(c.logicalTables, c.routes[i].logicalTableId) ==
                  TableName(a.logicalTables, a.routes[i].logicalTableId)
            && CodeOf(c.datasources, c.routes[i].datasourceId) == CodeOf(a.datasources, a.routes[i].datasourceId)
  {
    hide TableName, TableIndex, DatasourceIndex, CodeOf, FactorRows, RuleRows, DatasourceRows, TableRows, KnownTable,
         KnownDatasource, NothingImported;
    var a := Merge(f, n, b);
    SameRouteTable(f, n, m, b, i);
    SameCode(f, n, m, b, a.routes[i].datasourceId, if i < |f.routes| then ""
        else b.routes[i - |f.routes|].datasourceCode);
  }

  lemma SameRouteTable(f: Store, n: int, m: int, b: SyncBundle, i: nat)
    requires Settled(f, n) && Settled(f, m) && RoutesReady(b.logicalTables, b.datasources, b.routes)
    requires i < |f.routes| + |b.routes|
    ensures TableName(Merge(f, m, b).logicalTables, Merge(f, m, b).routes[i].logicalTableId)
         == TableName(Merge(f, n, b).logicalTables, Merge(f, n, b).routes[i].logicalTableId)
  {
    hide TableName, TableIndex, DatasourceIndex, CodeOf, FactorRows, RuleRows, DatasourceRows, TableRows, KnownTable,
         KnownDatasource, NothingImported;
    var a := Merge(f, n, b);
    SameTableName(f, n, m, b, a.routes[i].logicalTableId, if i < |f.routes| then ""
        else b.routes[i - |f.routes|].logicalTableName);
  }

  lemma SameRouteViews(f: Store, n: int, m: int, b: SyncBundle)
    requires Settled(f, n) && Settled(f, m) && RoutesReady(b.logicalTables, b.datasources, b.routes)
    ensures RouteViews(Merge(f, m, b).logicalTables, Merge(f, m, b).datasources, Merge(f, m, b).routes)
         == RouteViews(Merge(f, n, b).logicalTables, Merge(f, n, b).datasources, Merge(f, n, b).routes)
  {
    hide TableName, TableIndex, DatasourceIndex, CodeOf, FactorRows, RuleRows, DatasourceRows, TableRows, RoutesReady,
         Settled;
    var a, c := Merge(f, n, b), Merge(f, m, b);
    forall i | 0 <= i < |a.routes|
      ensures RouteViews(c.logicalTables, c.datasources, c.routes)[i] ==
            RouteViews(a.logicalTables, a.datasources, a.routes)[i]
    {
      SameRouteView(f, n, m, b, i);
    }
  }
}
