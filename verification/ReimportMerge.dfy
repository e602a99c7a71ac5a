/**
 The store after a re-import, written out: the rows that are not imported, then the bundle's rows
 with consecutive fresh ids. From it follow exactly when a re-import commits, that no foreign row
 changes, and that importing the same bundle again changes nothing but ids.
 */
module ReimportMerge {
  import opened Wrappers
  import opened Metadata
  import opened Importer
  import opened Reimport
  import opened ReimportProofs

  // ------------------------------------------------------------ the foreign rows

  /** The store without the imported tables, what refers to them, and the imported datasources. */
  function Foreign(db: Store): Store {
    var ids := ImportedTableIds(db.logicalTables);
    db.(
      routes := RoutesOutside(db.routes, ids),
      factors := FactorsOutside(db.factors, ids),
      rules := RulesOutside(db.rules, ids),
      logicalTables := TablesOutside(db.logicalTables, ids),
      datasources := DatasourcesOutside(db.datasources, ImportedDatasourceIds(db.datasources)))
  }

  /** A route of a table that is not imported points at an imported datasource. */
  predicate ForeignRouteOnImport(db: Store) {
    DatasourceReferenced(RoutesOutside(db.routes, ImportedTableIds(db.logicalTables)),
        ImportedDatasourceIds(db.datasources))
  }

  /**
   The delete phase leaves exactly the foreign rows, and is refused exactly when a foreign route needs
   an imported datasource.
   */
  lemma DeletePreviousExactly(s: Session)
    ensures DeletePreviousImport(s)
         == if ForeignRouteOnImport(s.db) then Raise(IntegrityError) else Ok(Session(Foreign(s.db), s.nextId))
  {
    var ids := ImportedTableIds(s.db.logicalTables);
    NotReferenced(s, ids);
    hide RoutesOutside, FactorsOutside, RulesOutside, TablesOutside, DatasourcesOutside, TableReferenced,
         DatasourceReferenced, ImportedTableIds, ImportedDatasourceIds;
  }

  lemma NotReferenced(s: Session, ids: set<int>)
    ensures !TableReferenced(DeleteChildren(s, ids).db, ids)
  {
    var d := DeleteChildren(s, ids).db;
    assert forall i :: 0 <= i < |d.factors| ==> d.factors[i] in d.factors;
    assert forall i :: 0 <= i < |d.rules| ==> d.rules[i] in d.rules;
    assert forall i :: 0 <= i < |d.routes| ==> d.routes[i] in d.routes;
  }

  // ------------------------------------------------------------ the loaded rows

  function DatasourceRows(n: int, rs: seq<DatasourceRecord>): (rows: seq<Datasource>)
    ensures |rows| == |rs| && forall i :: 0 <= i < |rs| ==> rows[i] == NewDatasourceRow(n + i, rs[i])
  {
    seq(|rs|, i requires 0 <= i < |rs| => NewDatasourceRow(n + i, rs[i]))
  }

  function TableRows(n: int, rs: seq<LogicalTableRecord>): (rows: seq<LogicalTable>)
    ensures |rows| == |rs| && forall i :: 0 <= i < |rs| ==> rows[i] == NewTableRow(n + i, rs[i])
  {
    seq(|rs|, i requires 0 <= i < |rs| => NewTableRow(n + i, rs[i]))
  }

  /** The position of the record of this name, or the number of records. */
  function TableIndex(rs: seq<LogicalTableRecord>, name: string): (i: nat)
    ensures i <= |rs|
    ensures i < |rs| ==> rs[i].tableName == name
    ensures forall k :: 0 <= k < i ==> rs[k].tableName != name
  {
    if rs == [] || rs[0].tableName == name then 0 else 1 + TableIndex(rs[1..], name)
  }

  function DatasourceIndex(rs: seq<DatasourceRecord>, code: string): (i: nat)
    ensures i <= |rs|
    ensures i < |rs| ==> rs[i].code == code
    ensures forall k :: 0 <= k < i ==> rs[k].code != code
  {
    if rs == [] || rs[0].code == code then 0 else 1 + DatasourceIndex(rs[1..], code)
  }

  function FactorRows(n: int, tableBase: int, ts: seq<LogicalTableRecord>,
                      rs: seq<FactorRecord>): (rows: seq<RouteFactor>)
    ensures |rows| == |rs|
    ensures forall i :: 0 <= i < |rs| ==>
          rows[i] == NewFactorRow(n + i, tableBase + TableIndex(ts, rs[i].logicalTableName), rs[i])
  {
    seq(|rs|, i requires 0 <= i < |rs| => NewFactorRow(n + i, tableBase +
        TableIndex(ts, rs[i].logicalTableName), rs[i]))
  }

  function RuleRows(n: int, tableBase: int, ts: seq<LogicalTableRecord>, rs: seq<RuleRecord>): (rows: seq<RouteRule>)
    ensures |rows| == |rs|
    ensures forall i :: 0 <= i < |rs| ==>
          rows[i] == NewRuleRow(n + i, tableBase + TableIndex(ts, rs[i].logicalTableName), rs[i])
  {
    seq(|rs|, i requires 0 <= i < |rs| => NewRuleRow(n + i, tableBase + TableIndex(ts, rs[i].logicalTableName), rs[i]))
  }

  function RouteRows(n: int, tableBase: int, datasourceBase: int, ts: seq<LogicalTableRecord>,
                     ds: seq<DatasourceRecord>, rs: seq<RouteRecord>): (rows: seq<PhysicalRoute>)
    ensures |rows| == |rs|
    ensures forall i :: 0 <= i < |rs| ==>
              rows[i] == NewRouteRow(n + i, tableBase + TableIndex(ts, rs[i].logicalTableName),
                                     datasourceBase + DatasourceIndex(ds, rs[i].datasourceCode), rs[i])
  {
    seq(|rs|, i requires 0 <= i < |rs| =>
      NewRouteRow(n + i, tableBase + TableIndex(ts, rs[i].logicalTableName), datasourceBase +
          DatasourceIndex(ds, rs[i].datasourceCode), rs[i]))
  }

  /** The foreign store `f` with the bundle's rows appended, their ids counting up from `n`. */
  function Merge(f: Store, n: int, b: SyncBundle): Store {
    var t := n + |b.datasources|;
    var factors := t + |b.logicalTables|;
    var rules := factors + |b.factors|;
    var routes := rules + |b.rules|;
    f.(
      datasources := f.datasources + DatasourceRows(n, b.datasources),
      logicalTables := f.logicalTables + TableRows(t, b.logicalTables),
      factors := f.factors + FactorRows(factors, t, b.logicalTables, b.factors),
      rules := f.rules + RuleRows(rules, t, b.logicalTables, b.rules),
      routes := f.routes + RouteRows(routes, t, n, b.logicalTables, b.datasources, b.routes))
  }

  function Size(b: SyncBundle): nat {
    |b.datasources| + |b.logicalTables| + |b.factors| + |b.rules| + |b.routes|
  }

  // ------------------------------------------------------------ one list at a time

  predicate FreshCodes(ds: seq<Datasource>, rs: seq<DatasourceRecord>) {
    && (forall i :: 0 <= i < |rs| ==> !CodeTaken(ds, rs[i].code))
    && (forall i, j :: 0 <= i < j < |rs| ==> rs[i].code != rs[j].code)
  }

  predicate FreshNames(ts: seq<LogicalTable>, rs: seq<LogicalTableRecord>) {
    && (forall i :: 0 <= i < |rs| ==> !NameTaken(ts, rs[i].tableName))
    && (forall i, j :: 0 <= i < j < |rs| ==> rs[i].tableName != rs[j].tableName)
  }

  lemma CodeTakenAppend(ds: seq<Datasource>, n: int, rs: seq<DatasourceRecord>, code: string)
    ensures CodeTaken(ds + DatasourceRows(n, rs), code) <==>
          CodeTaken(ds, code) || exists i :: 0 <= i < |rs| && rs[i].code == code
  {
    var all := ds + DatasourceRows(n, rs);
    if CodeTaken(ds, code) {
      var i :| 0 <= i < |ds| && ds[i].code == code;
      assert all[i].code == code;
    }
    if i :| 0 <= i < |rs| && rs[i].code == code {
      assert all[|ds| + i].code == code;
    }
  }

  lemma FreshCodesSnoc(ds: seq<Datasource>, n: int, front: seq<DatasourceRecord>, last: DatasourceRecord)
    ensures FreshCodes(ds, front + [last])
       <==> FreshCodes(ds, front) && !CodeTaken(ds + DatasourceRows(n, front), last.code)
  {
    CodeTakenAppend(ds, n, front, last.code);
    hide CodeTaken;
    var all := front + [last];
    assert all[|front|] == last;
    assert forall i :: 0 <= i < |front| ==> all[i] == front[i];
  }

  lemma {:induction false} AddDatasourcesIs(s: Session, rs: seq<DatasourceRecord>)
    ensures var r := AddDatasources(s, rs);
            && (r.Ok? <==> FreshCodes(s.db.datasources, rs))
            && (r.Ok? ==>
                  r.value ==
                      Session(s.db.(datasources := s.db.datasources + DatasourceRows(s.nextId, rs)), s.nextId + |rs|))
  {
    hide FreshCodes, CodeTaken, DatasourceRows, NewDatasourceRow, AddDatasource;
    if rs == [] {
      AddDatasourcesNone(s);
    } else {
      var front, last := rs[..|rs| - 1], rs[|rs| - 1];
      assert rs == front + [last];
      AddDatasourcesIs(s, front);
      FreshCodesSnoc(s.db.datasources, s.nextId, front, last);
      DatasourceRowsSnoc(s.nextId, front, last);
      if FreshCodes(s.db.datasources, front) {
        AddDatasourceIs(Session(s.db.(datasources := s.db.datasources + DatasourceRows(s.nextId, front)), s.nextId +
            |front|), last);
      }
    }
  }

  lemma AddDatasourceIs(s: Session, r: DatasourceRecord)
    ensures AddDatasource(s, r) ==
            if CodeTaken(s.db.datasources, r.code) then Raise(IntegrityError)
            else Ok(Session(s.db.(datasources := s.db.datasources + [NewDatasourceRow(s.nextId, r)]), s.nextId + 1))
  {
  }

  lemma AddDatasourcesNone(s: Session)
    ensures FreshCodes(s.db.datasources, [])
    ensures s.db.datasources + DatasourceRows(s.nextId, []) == s.db.datasources
  {
  }

  lemma DatasourceRowsSnoc(n: int, front: seq<DatasourceRecord>, last: DatasourceRecord)
    ensures DatasourceRows(n, front + [last]) == DatasourceRows(n, front) + [NewDatasourceRow(n + |front|, last)]
  {
  }

  lemma NameTakenAppend(ts: seq<LogicalTable>, n: int, rs: seq<LogicalTableRecord>, name: string)
    ensures NameTaken(ts + TableRows(n, rs), name) <==>
          NameTaken(ts, name) || exists i :: 0 <= i < |rs| && rs[i].tableName == name
  {
    var all := ts + TableRows(n, rs);
    if NameTaken(ts, name) {
      var i :| 0 <= i < |ts| && ts[i].tableName == name;
      assert all[i].tableName == name;
    }
    if i :| 0 <= i < |rs| && rs[i].tableName == name {
      assert all[|ts| + i].tableName == name;
    }
  }

  lemma FreshNamesSnoc(ts: seq<LogicalTable>, n: int, front: seq<LogicalTableRecord>, last: LogicalTableRecord)
    ensures FreshNames(ts, front + [last])
       <==> FreshNames(ts, front) && !NameTaken(ts + TableRows(n, front), last.tableName)
  {
    NameTakenAppend(ts, n, front, last.tableName);
    hide NameTaken;
    var all := front + [last];
    assert all[|front|] == last;
    assert forall i :: 0 <= i < |front| ==> all[i] == front[i];
  }

  lemma {:induction false} AddTablesIs(s: Session, rs: seq<LogicalTableRecord>)
    ensures var r := AddTables(s, rs);
            && (r.Ok? <==> FreshNames(s.db.logicalTables, rs))
            && (r.Ok? ==>
                  r.value ==
                      Session(s.db.(logicalTables := s.db.logicalTables + TableRows(s.nextId, rs)), s.nextId + |rs|))
  {
    hide FreshNames, NameTaken, TableRows, NewTableRow, AddTable;
    if rs == [] {
      AddTablesNone(s);
    } else {
      var front, last := rs[..|rs| - 1], rs[|rs| - 1];
      assert rs == front + [last];
      AddTablesIs(s, front);
      FreshNamesSnoc(s.db.logicalTables, s.nextId, front, last);
      TableRowsSnoc(s.nextId, front, last);
      if FreshNames(s.db.logicalTables, front) {
        AddTableIs(Session(s.db.(logicalTables := s.db.logicalTables + TableRows(s.nextId, front)), s.nextId +
            |front|), last);
      }
    }
  }

  lemma AddTableIs(s: Session, r: LogicalTableRecord)
    ensures AddTable(s, r) ==
            if NameTaken(s.db.logicalTables, r.tableName) then Raise(IntegrityError)
            else Ok(Session(s.db.(logicalTables := s.db.logicalTables + [NewTableRow(s.nextId, r)]), s.nextId + 1))
  {
  }

  lemma AddTablesNone(s: Session)
    ensures FreshNames(s.db.logicalTables, [])
    ensures s.db.logicalTables + TableRows(s.nextId, []) == s.db.logicalTables
  {
  }

  lemma TableRowsSnoc(n: int, front: seq<LogicalTableRecord>, last: LogicalTableRecord)
    ensures TableRows(n, front + [last]) == TableRows(n, front) + [NewTableRow(n + |front|, last)]
  {
  }

  /** The tables loaded into `ts` at `base` from the records `rs`, with none imported before. */
  ghost predicate LoadedTables(ts: seq<LogicalTable>, base: int, rs: seq<LogicalTableRecord>) {
    exists f: seq<LogicalTable> :: (forall t :: t in f ==> !FromImport(t.extra)) && ts == f + TableRows(base, rs)
  }

  ghost predicate LoadedDatasources(ds: seq<Datasource>, base: int, rs: seq<DatasourceRecord>) {
    exists f: seq<Datasource> :: (forall d :: d in f ==> !FromImport(d.extra)) && ds == f + DatasourceRows(base, rs)
  }

  /** Looking an imported name up finds the row of its record. */
  lemma {:induction false} LoadedTableId(f: seq<LogicalTable>, base: int, rs: seq<LogicalTableRecord>, name: string)
    requires forall t :: t in f ==> !FromImport(t.extra)
    ensures ImportedTableId(f + TableRows(base, rs), name)
         == if TableIndex(rs, name) < |rs| then Some(base + TableIndex(rs, name)) else None
    decreases |f| + |rs|
  {
    var all := f + TableRows(base, rs);
    if f != [] {
      assert all[0] == f[0] && all[0] in f;
      assert all[1..] == f[1..] + TableRows(base, rs);
      LoadedTableId(f[1..], base, rs, name);
    } else if rs != [] {
      assert all[0] == NewTableRow(base, rs[0]);
      assert all[1..] == [] + TableRows(base + 1, rs[1..]);
      if rs[0].tableName != name {
        LoadedTableId([], base + 1, rs[1..], name);
      }
    }
  }

  lemma {:induction false} LoadedDatasourceId(f: seq<Datasource>, base: int, rs: seq<DatasourceRecord>, code: string)
    requires forall d :: d in f ==> !FromImport(d.extra)
    ensures ImportedDatasourceId(f + DatasourceRows(base, rs), code)
         == if DatasourceIndex(rs, code) < |rs| then Some(base + DatasourceIndex(rs, code)) else None
    decreases |f| + |rs|
  {
    var all := f + DatasourceRows(base, rs);
    if f != [] {
      assert all[0] == f[0] && all[0] in f;
      assert all[1..] == f[1..] + DatasourceRows(base, rs);
      LoadedDatasourceId(f[1..], base, rs, code);
    } else if rs != [] {
      assert all[0] == NewDatasourceRow(base, rs[0]);
      assert all[1..] == [] + DatasourceRows(base + 1, rs[1..]);
      if rs[0].code != code {
        LoadedDatasourceId([], base + 1, rs[1..], code);
      }
    }
  }

  lemma TableIdIn(ts: seq<LogicalTable>, base: int, rs: seq<LogicalTableRecord>, name: string)
    requires LoadedTables(ts, base, rs)
    ensures ImportedTableId(ts, name) == if TableIndex(rs, name) < |rs| then Some(base + TableIndex(rs, name)) else None
  {
    var f: seq<LogicalTable> :| (forall t :: t in f ==> !FromImport(t.extra)) && ts == f + TableRows(base, rs);
    LoadedTableId(f, base, rs, name);
  }

  lemma DatasourceIdIn(ds: seq<Datasource>, base: int, rs: seq<DatasourceRecord>, code: string)
    requires LoadedDatasources(ds, base, rs)
    ensures ImportedDatasourceId(ds, code) == if DatasourceIndex(rs, code) < |rs| then
          Some(base + DatasourceIndex(rs, code)) else None
  {
    var f: seq<Datasource> :| (forall d :: d in f ==> !FromImport(d.extra)) && ds == f + DatasourceRows(base, rs);
    LoadedDatasourceId(f, base, rs, code);
  }

  predicate KnownTable(ts: seq<LogicalTableRecord>, name: string) {
    TableIndex(ts, name) < |ts|
  }

  predicate KnownDatasource(ds: seq<DatasourceRecord>, code: string) {
    DatasourceIndex(ds, code) < |ds|
  }

  /** Names of known tables have the same position only if they are the same. */
  lemma SameIndexSameName(ts: seq<LogicalTableRecord>, a: string, b: string)
    requires KnownTable(ts, a) && KnownTable(ts, b)
    ensures TableIndex(ts, a) == TableIndex(ts, b) <==> a == b
  {
  }

  predicate FactorsReady(ts: seq<LogicalTableRecord>, rs: seq<FactorRecord>) {
    && (forall i :: 0 <= i < |rs| ==> KnownTable(ts, rs[i].logicalTableName))
    && (forall i, j :: 0 <= i < j < |rs| ==>
          (rs[i].logicalTableName, rs[i].factorName) != (rs[j].logicalTableName, rs[j].factorName))
  }

  predicate RulesReady(ts: seq<LogicalTableRecord>, rs: seq<RuleRecord>) {
    && (forall i :: 0 <= i < |rs| ==> KnownTable(ts, rs[i].logicalTableName))
    && (forall i, j :: 0 <= i < j < |rs| ==>
          (rs[i].logicalTableName, rs[i].ruleName) != (rs[j].logicalTableName, rs[j].ruleName))
  }

  predicate RoutesReady(ts: seq<LogicalTableRecord>, ds: seq<DatasourceRecord>, rs: seq<RouteRecord>) {
    && (forall i :: 0 <= i < |rs| ==>
          KnownTable(ts, rs[i].logicalTableName) && KnownDatasource(ds, rs[i].datasourceCode))
    && (forall i, j :: 0 <= i < j < |rs| ==>
          (rs[i].logicalTableName, rs[i].routeValue) != (rs[j].logicalTableName, rs[j].routeValue))
  }

  /** No row refers to an id from `base` on. */
  predicate FactorsBefore(fs: seq<RouteFactor>, base: int) { forall i :: 0 <= i < |fs| ==> fs[i].logicalTableId < base }

  predicate RulesBefore(rs: seq<RouteRule>, base: int) { forall i :: 0 <= i < |rs| ==> rs[i].logicalTableId < base }

  predicate RoutesBefore(rs: seq<PhysicalRoute>,
                         base: int) { forall i :: 0 <= i < |rs| ==> rs[i].logicalTableId < base }

  predicate FactorListed(rs: seq<FactorRecord>, r: FactorRecord) {
    exists i :: 0 <= i < |rs| && (rs[i].logicalTableName, rs[i].factorName) == (r.logicalTableName, r.factorName)
  }

  lemma FactorTakenAppend(fs: seq<RouteFactor>, n: int, base: int, ts: seq<LogicalTableRecord>, rs: seq<FactorRecord>,
                          r: FactorRecord)
    requires FactorsBefore(fs, base) && KnownTable(ts, r.logicalTableName) && FactorsReady(ts, rs)
    ensures FactorTaken(fs + FactorRows(n, base, ts, rs), base + TableIndex(ts, r.logicalTableName), r.factorName) <==>
          FactorListed(rs, r)
  {
    hide FactorRows, TableIndex, KnownTable;
    var id := base + TableIndex(ts, r.logicalTableName);
    var rows := FactorRows(n, base, ts, rs);
    if k :| 0 <= k < |fs + rows| && (fs + rows)[k].logicalTableId == id && (fs + rows)[k].factorName == r.factorName {
      assert k >= |fs| && (fs + rows)[k] == rows[k - |fs|];
      SameIndexSameName(ts, rs[k - |fs|].logicalTableName, r.logicalTableName);
    }
    if FactorListed(rs, r) {
      FactorListedTaken(fs, n, base, ts, rs, r);
    }
  }

  lemma FactorListedTaken(fs: seq<RouteFactor>, n: int, base: int, ts: seq<LogicalTableRecord>, rs: seq<FactorRecord>,
                          r: FactorRecord)
    requires FactorListed(rs, r)
    ensures FactorTaken(fs + FactorRows(n, base, ts, rs), base + TableIndex(ts, r.logicalTableName), r.factorName)
  {
    hide FactorRows, TableIndex;
    var all := fs + FactorRows(n, base, ts, rs);
    var i :| 0 <= i < |rs| && (rs[i].logicalTableName, rs[i].factorName) == (r.logicalTableName, r.factorName);
    assert all[|fs| + i] == FactorRows(n, base, ts, rs)[i];
  }

  lemma FactorsReadySnoc(ts: seq<LogicalTableRecord>, rs: seq<FactorRecord>, r: FactorRecord)
    ensures FactorsReady(ts, rs + [r]) <==>
          FactorsReady(ts, rs) && KnownTable(ts, r.logicalTableName) && !FactorListed(rs, r)
  {
    hide KnownTable;
    var all := rs + [r];
    if FactorsReady(ts, all) {
      assert forall i :: 0 <= i < |rs| ==> rs[i] == all[i];
      assert all[|rs|] == r;
    }
  }

  lemma FactorRowsSnoc(n: int, base: int, ts: seq<LogicalTableRecord>, rs: seq<FactorRecord>, r: FactorRecord)
    ensures FactorRows(n, base, ts, rs + [r])
         == FactorRows(n, base, ts, rs) + [NewFactorRow(n + |rs|, base + TableIndex(ts, r.logicalTableName), r)]
  {
  }

  lemma AddFactorIs(s: Session, base: int, ts: seq<LogicalTableRecord>, r: FactorRecord)
    requires LoadedTables(s.db.logicalTables, base, ts)
    ensures AddFactor(s, r)
         == if !KnownTable(ts, r.logicalTableName) then Raise(KeyError)
            else if FactorTaken(s.db.factors, base + TableIndex(ts, r.logicalTableName), r.factorName) then
                Raise(IntegrityError)
            else Ok(Session(s.db.(factors := s.db.factors +
                [NewFactorRow(s.nextId, base + TableIndex(ts, r.logicalTableName), r)]), s.nextId + 1))
  {
    hide LoadedTables, ImportedTableId, FactorTaken, TableIndex;
    TableIdIn(s.db.logicalTables, base, ts, r.logicalTableName);
  }

  lemma {:induction false} AddFactorsIs(s: Session, base: int, ts: seq<LogicalTableRecord>, rs: seq<FactorRecord>)
    requires LoadedTables(s.db.logicalTables, base, ts) && FactorsBefore(s.db.factors, base)
    ensures var r := AddFactors(s, rs);
            && (r.Ok? <==> FactorsReady(ts, rs))
            && (r.Ok? ==>
                  r.value ==
                      Session(s.db.(factors := s.db.factors + FactorRows(s.nextId, base, ts, rs)), s.nextId + |rs|))
  {
    hide LoadedTables, FactorsBefore, FactorTaken, FactorListed, TableIndex, FactorsReady, FactorRows, NewFactorRow,
         AddFactor, KnownTable;
    if rs == [] {
      AddFactorsNone(s, base, ts);
    } else {
      var front, last := rs[..|rs| - 1], rs[|rs| - 1];
      assert rs == front + [last];
      AddFactorsIs(s, base, ts, front);
      FactorsReadySnoc(ts, front, last);
      FactorRowsSnoc(s.nextId, base, ts, front, last);
      if FactorsReady(ts, front) {
        var before :=
            Session(s.db.(factors := s.db.factors + FactorRows(s.nextId, base, ts, front)), s.nextId + |front|);
        AddFactorIs(before, base, ts, last);
        if KnownTable(ts, last.logicalTableName) {
          FactorTakenAppend(s.db.factors, s.nextId, base, ts, front, last);
        }
      }
    }
  }

  lemma AddFactorsNone(s: Session, base: int, ts: seq<LogicalTableRecord>)
    ensures FactorsReady(ts, [])
    ensures s.db.factors + FactorRows(s.nextId, base, ts, []) == s.db.factors
  {
  }

  predicate RuleListed(rs: seq<RuleRecord>, r: RuleRecord) {
    exists i :: 0 <= i < |rs| && (rs[i].logicalTableName, rs[i].ruleName) == (r.logicalTableName, r.ruleName)
  }

  lemma RuleTakenAppend(fs: seq<RouteRule>, n: int, base: int, ts: seq<LogicalTableRecord>, rs: seq<RuleRecord>,
                        r: RuleRecord)
    requires RulesBefore(fs, base) && KnownTable(ts, r.logicalTableName) && RulesReady(ts, rs)
    ensures RuleTaken(fs + RuleRows(n, base, ts, rs), base + TableIndex(ts, r.logicalTableName), r.ruleName) <==>
          RuleListed(rs, r)
  {
    hide RuleRows, TableIndex, KnownTable;
    var id := base + TableIndex(ts, r.logicalTableName);
    var rows := RuleRows(n, base, ts, rs);
    if k :| 0 <= k < |fs + rows| && (fs + rows)[k].logicalTableId == id && (fs + rows)[k].ruleName == r.ruleName {
      assert k >= |fs| && (fs + rows)[k] == rows[k - |fs|];
      SameIndexSameName(ts, rs[k - |fs|].logicalTableName, r.logicalTableName);
    }
    if RuleListed(rs, r) {
      RuleListedTaken(fs, n, base, ts, rs, r);
    }
  }

  lemma RuleListedTaken(fs: seq<RouteRule>, n: int, base: int, ts: seq<LogicalTableRecord>, rs: seq<RuleRecord>,
                        r: RuleRecord)
    requires RuleListed(rs, r)
    ensures RuleTaken(fs + RuleRows(n, base, ts, rs), base + TableIndex(ts, r.logicalTableName), r.ruleName)
  {
    hide RuleRows, TableIndex;
    var all := fs + RuleRows(n, base, ts, rs);
    var i :| 0 <= i < |rs| && (rs[i].logicalTableName, rs[i].ruleName) == (r.logicalTableName, r.ruleName);
    assert all[|fs| + i] == RuleRows(n, base, ts, rs)[i];
  }

  lemma RulesReadySnoc(ts: seq<LogicalTableRecord>, rs: seq<RuleRecord>, r: RuleRecord)
    ensures RulesReady(ts, rs + [r]) <==> RulesReady(ts, rs) && KnownTable(ts, r.logicalTableName) && !RuleListed(rs, r)
  {
    hide KnownTable;
    var all := rs + [r];
    if RulesReady(ts, all) {
      assert forall i :: 0 <= i < |rs| ==> rs[i] == all[i];
      assert all[|rs|] == r;
    }
  }

  lemma RuleRowsSnoc(n: int, base: int, ts: seq<LogicalTableRecord>, rs: seq<RuleRecord>, r: RuleRecord)
    ensures RuleRows(n, base, ts, rs + [r])
         == RuleRows(n, base, ts, rs) + [NewRuleRow(n + |rs|, base + TableIndex(ts, r.logicalTableName), r)]
  {
  }

  lemma AddRuleIs(s: Session, base: int, ts: seq<LogicalTableRecord>, r: RuleRecord)
    requires LoadedTables(s.db.logicalTables, base, ts)
    ensures AddRule(s, r)
         == if !KnownTable(ts, r.logicalTableName) then Raise(KeyError)
            else if RuleTaken(s.db.rules, base + TableIndex(ts, r.logicalTableName), r.ruleName) then
                Raise(IntegrityError)
            else Ok(Session(s.db.(rules := s.db.rules +
                [NewRuleRow(s.nextId, base + TableIndex(ts, r.logicalTableName), r)]), s.nextId + 1))
  {
    hide LoadedTables, ImportedTableId, RuleTaken, TableIndex;
    TableIdIn(s.db.logicalTables, base, ts, r.logicalTableName);
  }

  lemma {:induction false} AddRulesIs(s: Session, base: int, ts: seq<LogicalTableRecord>, rs: seq<RuleRecord>)
    requires LoadedTables(s.db.logicalTables, base, ts) && RulesBefore(s.db.rules, base)
    ensures var r := AddRules(s, rs);
            && (r.Ok? <==> RulesReady(ts, rs))
            && (r.Ok? ==>
                  r.value == Session(s.db.(rules := s.db.rules + RuleRows(s.nextId, base, ts, rs)), s.nextId + |rs|))
  {
    hide LoadedTables, RulesBefore, RuleTaken, RuleListed, TableIndex, RulesReady, RuleRows, NewRuleRow, AddRule,
         KnownTable;
    if rs == [] {
      AddRulesNone(s, base, ts);
    } else {
      var front, last := rs[..|rs| - 1], rs[|rs| - 1];
      assert rs == front + [last];
      AddRulesIs(s, base, ts, front);
      RulesReadySnoc(ts, front, last);
      RuleRowsSnoc(s.nextId, base, ts, front, last);
      if RulesReady(ts, front) {
        var before := Session(s.db.(rules := s.db.rules + RuleRows(s.nextId, base, ts, front)), s.nextId + |front|);
        AddRuleIs(before, base, ts, last);
        if KnownTable(ts, last.logicalTableName) {
          RuleTakenAppend(s.db.rules, s.nextId, base, ts, front, last);
        }
      }
    }
  }

  lemma AddRulesNone(s: Session, base: int, ts: seq<LogicalTableRecord>)
    ensures RulesReady(ts, [])
    ensures s.db.rules + RuleRows(s.nextId, base, ts, []) == s.db.rules
  {
  }

  predicate RouteListed(rs: seq<RouteRecord>, r: RouteRecord) {
    exists i :: 0 <= i < |rs| && (rs[i].logicalTableName, rs[i].routeValue) == (r.logicalTableName, r.routeValue)
  }

  lemma RouteTakenAppend(fs: seq<PhysicalRoute>, n: int, base: int, dsBase: int, ts: seq<LogicalTableRecord>,
                         ds: seq<DatasourceRecord>, rs: seq<RouteRecord>, r: RouteRecord)
    requires RoutesBefore(fs, base) && KnownTable(ts, r.logicalTableName) && RoutesReady(ts, ds, rs)
    ensures var all := fs + RouteRows(n, base, dsBase, ts, ds, rs);
            RouteTaken(all, base + TableIndex(ts, r.logicalTableName), r.routeValue) <==> RouteListed(rs, r)
  {
    hide DatasourceIndex;
    var all := fs + RouteRows(n, base, dsBase, ts, ds, rs);
    var id := base + TableIndex(ts, r.logicalTableName);
    if RouteTaken(all, id, r.routeValue) {
      var k :| 0 <= k < |all| && all[k].logicalTableId == id && all[k].routeValue == r.routeValue;
      assert k >= |fs|;
      SameIndexSameName(ts, rs[k - |fs|].logicalTableName, r.logicalTableName);
    }
    if RouteListed(rs, r) {
      var i :| 0 <= i < |rs| && (rs[i].logicalTableName, rs[i].routeValue) == (r.logicalTableName, r.routeValue);
      assert all[|fs| + i].logicalTableId == id && all[|fs| + i].routeValue == r.routeValue;
    }
  }

  lemma RoutesReadySnoc(ts: seq<LogicalTableRecord>, ds: seq<DatasourceRecord>, rs: seq<RouteRecord>, r: RouteRecord)
    ensures RoutesReady(ts, ds, rs + [r]) <==>
            && RoutesReady(ts, ds, rs) && !RouteListed(rs, r)
            && KnownTable(ts, r.logicalTableName) && KnownDatasource(ds, r.datasourceCode)
  {
    hide KnownTable, KnownDatasource;
    var all := rs + [r];
    if RoutesReady(ts, ds, all) {
      assert forall i :: 0 <= i < |rs| ==> rs[i] == all[i];
      assert all[|rs|] == r;
    }
  }

  lemma RouteRowsSnoc(n: int, base: int, dsBase: int, ts: seq<LogicalTableRecord>, ds: seq<DatasourceRecord>,
                      rs: seq<RouteRecord>, r: RouteRecord)
    ensures RouteRows(n, base, dsBase, ts, ds, rs + [r])
         == RouteRows(n, base, dsBase, ts, ds, rs)
            + [NewRouteRow(n + |rs|, base + TableIndex(ts, r.logicalTableName), dsBase +
                DatasourceIndex(ds, r.datasourceCode), r)]
  {
    hide TableIndex, DatasourceIndex;
  }

  lemma AddRouteIs(s: Session, base: int, dsBase: int, ts: seq<LogicalTableRecord>, ds: seq<DatasourceRecord>,
                   r: RouteRecord)
    requires LoadedTables(s.db.logicalTables, base, ts) && LoadedDatasources(s.db.datasources, dsBase, ds)
    ensures AddRoute(s, r)
         == if !KnownTable(ts, r.logicalTableName) || !KnownDatasource(ds, r.datasourceCode) then Raise(KeyError)
            else if RouteTaken(s.db.routes, base + TableIndex(ts, r.logicalTableName), r.routeValue) then
                Raise(IntegrityError)
            else Ok(Session(s.db.(routes := s.db.routes
                              + [NewRouteRow(s.nextId, base + TableIndex(ts, r.logicalTableName), dsBase +
                                  DatasourceIndex(ds, r.datasourceCode), r)]),
                            s.nextId + 1))
  {
    hide LoadedTables, LoadedDatasources, ImportedTableId, ImportedDatasourceId, RouteTaken, TableIndex,
         DatasourceIndex;
    TableIdIn(s.db.logicalTables, base, ts, r.logicalTableName);
    DatasourceIdIn(s.db.datasources, dsBase, ds, r.datasourceCode);
  }

  lemma {:induction false} AddRoutesIs(s: Session, base: int, dsBase: int, ts: seq<LogicalTableRecord>,
                                       ds: seq<DatasourceRecord>, rs: seq<RouteRecord>)
    requires LoadedTables(s.db.logicalTables, base, ts) && LoadedDatasources(s.db.datasources, dsBase, ds)
    requires RoutesBefore(s.db.routes, base)
    ensures var r := AddRoutes(s, rs);
            && (r.Ok? <==> RoutesReady(ts, ds, rs))
            && (r.Ok? ==>
                  r.value ==
                      Session(s.db.(routes := s.db.routes + RouteRows(s.nextId, base, dsBase, ts, ds, rs)), s.nextId +
                          |rs|))
  {
    hide LoadedTables, LoadedDatasources, RoutesBefore, RouteTaken, RouteListed, TableIndex, DatasourceIndex,
         RoutesReady, RouteRows, NewRouteRow, AddRoute, KnownTable, KnownDatasource;
    if rs == [] {
      AddRoutesNone(s, base, dsBase, ts, ds);
    } else {
      var front, last := rs[..|rs| - 1], rs[|rs| - 1];
      assert rs == front + [last];
      AddRoutesIs(s, base, dsBase, ts, ds, front);
      RoutesReadySnoc(ts, ds, front, last);
      RouteRowsSnoc(s.nextId, base, dsBase, ts, ds, front, last);
      if RoutesReady(ts, ds, front) {
        var before :=
            Session(s.db.(routes := s.db.routes + RouteRows(s.nextId, base, dsBase, ts, ds, front)), s.nextId +
                |front|);
        AddRouteIs(before, base, dsBase, ts, ds, last);
        if KnownTable(ts, last.logicalTableName) {
          RouteTakenAppend(s.db.routes, s.nextId, base, dsBase, ts, ds, front, last);
        }
      }
    }
  }

  lemma AddRoutesNone(s: Session, base: int, dsBase: int, ts: seq<LogicalTableRecord>, ds: seq<DatasourceRecord>)
    ensures RoutesReady(ts, ds, [])
    ensures s.db.routes + RouteRows(s.nextId, base, dsBase, ts, ds, []) == s.db.routes
  {
  }

  // ------------------------------------------------------------ the whole load

  /** What a bundle must satisfy to be loaded beside the foreign rows `f`. */
  predicate Loadable(f: Store, b: SyncBundle) {
    && FreshCodes(f.datasources, b.datasources)
    && FreshNames(f.logicalTables, b.logicalTables)
    && FactorsReady(b.logicalTables, b.factors)
    && RulesReady(b.logicalTables, b.rules)
    && RoutesReady(b.logicalTables, b.datasources, b.routes)
  }

  ghost predicate NothingImported(f: Store) {
    && (forall t :: t in f.logicalTables ==> !FromImport(t.extra))
    && (forall d :: d in f.datasources ==> !FromImport(d.extra))
  }

  /** Rows refer only to tables older than `n`. */
  ghost predicate RefersBefore(f: Store, n: int) {
    FactorsBefore(f.factors, n) && RulesBefore(f.rules, n) && RoutesBefore(f.routes, n)
  }

  lemma RefersLater(f: Store, n: int, m: int)
    requires RefersBefore(f, n) && n <= m
    ensures RefersBefore(f, m)
  {
  }

  /** Loading a bundle beside foreign rows succeeds exactly when it is loadable, and then appends its rows. */
  lemma LoadExactly(s: Session, b: SyncBundle)
    requires NothingImported(s.db) && RefersBefore(s.db, s.nextId)
    ensures var r := Load(s, b);
            && (r.Ok? <==> Loadable(s.db, b))
            && (r.Ok? ==> r.value == Session(Merge(s.db, s.nextId, b), s.nextId + Size(b)))
  {
    hide AddAll, AddDatasource, AddTable, AddFactor, AddRule, AddRoute, FreshCodes, FreshNames, FactorsReady,
         RulesReady, RoutesReady, DatasourceRows, TableRows, FactorRows, RuleRows, RouteRows, NothingImported,
             RefersBefore, FactorsBefore, RulesBefore, RoutesBefore;
    AddDatasourcesIs(s, b.datasources);
    if FreshCodes(s.db.datasources, b.datasources) {
      var s1 := AddDatasources(s, b.datasources).value;
      AddTablesIs(s1, b.logicalTables);
      if FreshNames(s.db.logicalTables, b.logicalTables) {
        var s2 := AddTables(s1, b.logicalTables).value;
        LoadChildren(s, b, s1, s2);
      }
    }
  }

  lemma LoadChildren(s: Session, b: SyncBundle, s1: Session, s2: Session)
    requires NothingImported(s.db) && RefersBefore(s.db, s.nextId)
    requires s1 ==
          Session(s.db.(datasources := s.db.datasources + DatasourceRows(s.nextId, b.datasources)), s.nextId +
              |b.datasources|)
    requires s2 ==
          Session(s1.db.(logicalTables := s1.db.logicalTables + TableRows(s1.nextId, b.logicalTables)), s1.nextId +
              |b.logicalTables|)
    ensures var r3 := AddFactors(s2, b.factors);
            && (r3.Ok? <==> FactorsReady(b.logicalTables, b.factors))
            && (r3.Ok? ==>
                  var r4 := AddRules(r3.value, b.rules);
                  && (r4.Ok? <==> RulesReady(b.logicalTables, b.rules))
                  && (r4.Ok? ==>
                        var r5 := AddRoutes(r4.value, b.routes);
                        && (r5.Ok? <==> RoutesReady(b.logicalTables, b.datasources, b.routes))
                        && (r5.Ok? ==> r5.value == Session(Merge(s.db, s.nextId, b), s.nextId + Size(b)))))
  {
    hide AddAll, AddDatasource, AddTable, AddFactor, AddRule, AddRoute, FreshCodes, FreshNames, FactorsReady,
         RulesReady, RoutesReady, DatasourceRows, TableRows, FactorRows, RuleRows, RouteRows, FactorsBefore,
             RulesBefore, RoutesBefore, LoadedTables, LoadedDatasources, NothingImported;
    var base := s1.nextId;
    RefersLater(s.db, s.nextId, base);
    NowLoaded(s, b);
    AddFactorsIs(s2, base, b.logicalTables, b.factors);
    var r3 := AddFactors(s2, b.factors);
    if r3.Ok? {
      AddRulesIs(r3.value, base, b.logicalTables, b.rules);
      var r4 := AddRules(r3.value, b.rules);
      if r4.Ok? {
        AddRoutesIs(r4.value, base, s.nextId, b.logicalTables, b.datasources, b.routes);
      }
    }
  }

  lemma NowLoaded(s: Session, b: SyncBundle)
    requires NothingImported(s.db)
    ensures LoadedTables(s.db.logicalTables + TableRows(s.nextId + |b.datasources|, b.logicalTables), s.nextId +
          |b.datasources|, b.logicalTables)
    ensures LoadedDatasources(s.db.datasources + DatasourceRows(s.nextId, b.datasources), s.nextId, b.datasources)
  {
  }

  lemma TableIdsBelow(db: Store, n: int, id: int)
    requires IdsBelow(db, n) && HasTable(db.logicalTables, id)
    ensures id < n
  {
    var i :| 0 <= i < |db.logicalTables| && db.logicalTables[i].id == id;
    assert db.logicalTables[i] in db.logicalTables;
  }

  lemma ValidRefersBefore(s: Session)
    requires ValidSession(s)
    ensures RefersBefore(s.db, s.nextId)
  {
    hide HasTable, HasDatasource;
    var db := s.db;
    forall i | 0 <= i < |db.factors| ensures db.factors[i].logicalTableId < s.nextId {
      assert db.factors[i] in db.factors;
      TableIdsBelow(db, s.nextId, db.factors[i].logicalTableId);
    }
    forall i | 0 <= i < |db.rules| ensures db.rules[i].logicalTableId < s.nextId {
      assert db.rules[i] in db.rules;
      TableIdsBelow(db, s.nextId, db.rules[i].logicalTableId);
    }
    forall i | 0 <= i < |db.routes| ensures db.routes[i].logicalTableId < s.nextId {
      assert db.routes[i] in db.routes;
      TableIdsBelow(db, s.nextId, db.routes[i].logicalTableId);
    }
  }

  lemma ForeignHasNoImport(db: Store)
    ensures NothingImported(Foreign(db))
  {
    var f := Foreign(db);
    forall t | t in f.logicalTables ensures !FromImport(t.extra) {
      assert t in db.logicalTables && t.id !in ImportedTableIds(db.logicalTables);
    }
    forall d | d in f.datasources ensures !FromImport(d.extra) {
      assert d in db.datasources && d.id !in ImportedDatasourceIds(db.datasources);
    }
  }

  /**
   A re-import can commit: no foreign route needs an imported datasource, and the bundle fits beside the
   foreign rows.
   */
  predicate CanSync(db: Store, b: SyncBundle) {
    !ForeignRouteOnImport(db) && Loadable(Foreign(db), b)
  }

  /**
   A re-import commits exactly when it can; it then leaves the foreign rows as they were and the
   bundle's rows after them, numbered from the first free id.
   */
  lemma SyncExactly(s: Session, b: SyncBundle)
    requires ValidSession(s)
    ensures var p := EnsureDefaultPolicy(s);
            && (SyncSpec(s, b).Ok? <==> CanSync(p.db, b))
            && (SyncSpec(s, b).Ok? ==>
                  SyncSpec(s, b).value == Session(Merge(Foreign(p.db), p.nextId, b), p.nextId + Size(b)))
  {
    hide EnsureDefaultPolicy, DeletePreviousImport, Load, Loadable, Merge, Foreign, ForeignRouteOnImport, ValidSession,
         RefersBefore, NothingImported;
    var p := EnsureDefaultPolicy(s);
    PolicyKeepsValid(s);
    DeletePreviousExactly(p);
    if !ForeignRouteOnImport(p.db) {
      DeletePreviousKeepsValid(p);
      var cleared := Session(Foreign(p.db), p.nextId);
      ForeignHasNoImport(p.db);
      ValidRefersBefore(cleared);
      LoadExactly(cleared, b);
    }
  }
}
