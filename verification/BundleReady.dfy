/**
 When the bundle built from configuration rows can be loaded: a condition on the rows and on the foreign
 rows of the store.
 */
module BundleReady {
  import opened Text
  import opened Sequences
  import opened Identifiers
  import opened Metadata
  import opened Importer
  import opened ImporterProofs
  import opened ImportOrder
  import opened Reimport
  import opened ReimportProofs
  import opened ReimportMerge
  import opened ReimportTwice

  /** The route value an unsharded row claims. */
  function UnshardedValue(style: Style, row: TableConfigRow): string {
    if style.BySource? then SourceOrUnknown(row) else "0"
  }

  /** Different deduplicated rows of an unsharded group claim different route values. */
  ghost predicate OneRowPerValue(segments: seq<TableConfigRow>) {
    !IsSharded(segments) ==>
      forall a, b :: a in segments && b in segments && a != b ==>
          UnshardedValue(StyleOf(segments), a) != UnshardedValue(StyleOf(segments), b)
  }

  /** No two rows of the store or the bundle would share a datasource code or a table name. */
  ghost predicate NoClash(f: Store, b: SyncBundle) {
    && (forall i :: 0 <= i < |b.datasources| ==> !CodeTaken(f.datasources, b.datasources[i].code))
    && (forall i :: 0 <= i < |b.logicalTables| ==> !NameTaken(f.logicalTables, b.logicalTables[i].tableName))
  }

  // ------------------------------------------------------------ the routes of an unsharded group

  /** Without skipping, the routes are the claims themselves, one by one. */
  lemma {:induction false} EmitAll(key: string, claims: seq<Claim>)
    requires EmitClaims(key, false, claims).Ok?
    ensures var routes := EmitClaims(key, false, claims).value.routes;
            |routes| == |claims| && forall i :: 0 <= i < |claims| ==> routes[i] == Record(key, claims[i])
  {
    if claims != [] {
      EmitAll(key, claims[..|claims| - 1]);
    }
  }

  lemma {:induction false} UnshardedClaims(hash: Hasher, style: Style, rows: seq<TableConfigRow>)
    requires !Sharded(style)
    ensures var claims := AllClaims(hash, style, rows);
            |claims| == |rows| && forall i :: 0 <= i < |rows| ==> claims[i].routeValue == UnshardedValue(style, rows[i])
  {
    hide MakeDatasourceCode;
    if rows != [] {
      UnshardedClaims(hash, style, rows[..|rows| - 1]);
    }
  }

  lemma SegmentsNoDuplicates(rows: seq<TableConfigRow>)
    requires SegmentsDistinct(rows)
    ensures NoDuplicates(SortRows(rows))
    ensures forall r :: r in SortRows(rows) <==> r in rows
  {
    SortByNoDuplicates((a: TableConfigRow, b: TableConfigRow) => RowLeq(a, b), rows);
    SortBySame((a: TableConfigRow, b: TableConfigRow) => RowLeq(a, b), rows);
  }

  /** An unsharded group's route values are distinct exactly when its rows claim distinct values. */
  lemma UnshardedDistinct(hash: Hasher, kept: seq<TableConfigRow>, key: string)
    requires GroupRoutes(hash, kept, key).Ok? && !Sharded(GroupStyle(hash, kept, key))
    ensures ValuesDistinct(GroupRoutes(hash, kept, key).value) <==> OneRowPerValue(GroupSegments(hash, kept, key))
  {
    hide Dedupe, GroupRows, StyleOf, SortRows, AllClaims, EmitClaims, UnshardedValue, SegmentsDistinct;
    DedupeDistinct(GroupRows(hash, kept, key));
    var segments := GroupSegments(hash, kept, key);
    var style := StyleOf(segments);
    StyleSharded(segments);
    var sorted := SortRows(segments);
    SegmentsNoDuplicates(segments);
    UnshardedClaims(hash, style, sorted);
    EmitAll(key, AllClaims(hash, style, sorted));
    var routes := GroupRoutes(hash, kept, key).value;
    assert forall i :: 0 <= i < |routes| ==> routes[i].routeValue == UnshardedValue(style, sorted[i]);
    ValuesOfRows(style, segments, sorted, routes);
  }

  lemma StyleSharded(segments: seq<TableConfigRow>)
    ensures Sharded(StyleOf(segments)) <==> IsSharded(segments)
  {
  }

  lemma ValuesOfRows(style: Style, segments: seq<TableConfigRow>, sorted: seq<TableConfigRow>, routes: seq<RouteRecord>)
    requires |routes| == |sorted| && NoDuplicates(sorted) && forall r :: r in sorted <==> r in segments
    requires forall i :: 0 <= i < |routes| ==> routes[i].routeValue == UnshardedValue(style, sorted[i])
    ensures ValuesDistinct(routes)
       <==> forall a, b :: a in segments && b in segments && a != b ==>
           UnshardedValue(style, a) != UnshardedValue(style, b)
  {
    hide UnshardedValue;
    if ValuesDistinct(routes) {
      forall a, b | a in segments && b in segments && a != b
        ensures UnshardedValue(style, a) != UnshardedValue(style, b)
      {
        assert a in sorted && b in sorted;
        var i :| 0 <= i < |sorted| && sorted[i] == a;
        var j :| 0 <= j < |sorted| && sorted[j] == b;
        assert routes[i].routeValue != routes[j].routeValue;
      }
    }
    if forall a, b :: a in segments && b in segments && a != b ==>
        UnshardedValue(style, a) != UnshardedValue(style, b) {
      forall i, j | 0 <= i < j < |routes|
        ensures routes[i].routeValue != routes[j].routeValue
      {
        assert sorted[i] in segments && sorted[j] in segments;
      }
    }
  }

  // ------------------------------------------------------------ all routes

  /** Route values are distinct within every group. */
  ghost predicate GroupValuesDistinct(hash: Hasher, kept: seq<TableConfigRow>, keys: seq<string>) {
    forall key :: key in keys ==> GroupRoutes(hash, kept, key).Ok? && ValuesDistinct(GroupRoutes(hash, kept, key).value)
  }

  ghost predicate PairsDistinct(routes: seq<RouteRecord>) {
    forall i, j :: 0 <= i < j < |routes| ==>
      (routes[i].logicalTableName, routes[i].routeValue) != (routes[j].logicalTableName, routes[j].routeValue)
  }

  lemma PairsOfAppend(a: seq<RouteRecord>, b: seq<RouteRecord>, key: string)
    requires forall r :: r in a ==> r.logicalTableName != key
    requires forall r :: r in b ==> r.logicalTableName == key
    ensures PairsDistinct(a + b) <==> PairsDistinct(a) && ValuesDistinct(b)
  {
    var all := a + b;
    if PairsDistinct(all) {
      assert forall i :: 0 <= i < |a| ==> all[i] == a[i];
      assert forall i, j :: 0 <= i < j < |a| ==>
          (all[i].logicalTableName, all[i].routeValue) != (all[j].logicalTableName, all[j].routeValue);
      forall i, j | 0 <= i < j < |b|
        ensures b[i].routeValue != b[j].routeValue
      {
        assert b[i] in b && b[j] in b;
        assert all[|a| + i] == b[i] && all[|a| + j] == b[j];
      }
    }
    if PairsDistinct(a) && ValuesDistinct(b) {
      forall i, j | 0 <= i < j < |all|
        ensures (all[i].logicalTableName, all[i].routeValue) != (all[j].logicalTableName, all[j].routeValue)
      {
        assert i < |a| ==> all[i] == a[i] && all[i] in a;
        assert j >= |a| ==> all[j] == b[j - |a|] && all[j] in b;
        assert i >= |a| ==> all[i] == b[i - |a|] && all[i] in b;
      }
    }
  }

  /** The bundle's routes satisfy the unique key exactly when each group's do. */
  lemma {:induction false} BuiltPairs(hash: Hasher, kept: seq<TableConfigRow>, keys: seq<string>)
    requires forall key :: key in keys ==> GroupRows(hash, kept, key) != []
    requires NoDuplicates(keys) && BuildGroups(hash, kept, keys).Ok?
    ensures PairsDistinct(BuildGroups(hash, kept, keys).value.routes) <==> GroupValuesDistinct(hash, kept, keys)
  {
    hide GroupRoutes, FactorRecords, RuleFor, GroupRows, GroupSegments, GroupStyle, TableRecord, RoutesBuilt,
         TablesBuilt, FactorsBuilt, ShardedDistinct, PairsDistinct, ValuesDistinct, GroupValuesDistinct, NoDuplicates;
    if keys == [] {
      NoPairs(hash, kept);
    } else {
      var front, key := keys[..|keys| - 1], keys[|keys| - 1];
      assert keys == front + [key];
      FrontOfKeys(front, key);
      BuiltPairs(hash, kept, front);
      BuiltGroups(hash, kept, front);
      var p := BuildGroups(hash, kept, front).value;
      NotNamed(hash, kept, front, p.routes, key);
      GroupRoutesNamed(hash, kept, key);
      PairsOfAppend(p.routes, GroupRoutes(hash, kept, key).value, key);
      GroupValuesNext(hash, kept, front, key);
    }
  }

  lemma NoPairs(hash: Hasher, kept: seq<TableConfigRow>)
    ensures PairsDistinct([]) && GroupValuesDistinct(hash, kept, [])
  {
  }

  lemma GroupValuesNext(hash: Hasher, kept: seq<TableConfigRow>, front: seq<string>, key: string)
    requires GroupRoutes(hash, kept, key).Ok?
    ensures GroupValuesDistinct(hash, kept, front + [key])
       <==> GroupValuesDistinct(hash, kept, front) && ValuesDistinct(GroupRoutes(hash, kept, key).value)
  {
    hide GroupRoutes, ValuesDistinct;
    InSnoc(front, key);
  }

  lemma NotNamed(hash: Hasher, kept: seq<TableConfigRow>, keys: seq<string>, routes: seq<RouteRecord>, key: string)
    requires RoutesBuilt(hash, kept, keys, routes) && key !in keys
    ensures forall r :: r in routes ==> r.logicalTableName != key
  {
    hide GroupRoutes;
  }

  /** All unsharded groups have one row per route value. */
  ghost predicate RowsUnambiguous(hash: Hasher, kept: seq<TableConfigRow>) {
    forall key :: key in GroupKeys(hash, kept) ==> OneRowPerValue(GroupSegments(hash, kept, key))
  }

  lemma GroupDistinct(hash: Hasher, kept: seq<TableConfigRow>, key: string)
    requires GroupRoutes(hash, kept, key).Ok?
    ensures ValuesDistinct(GroupRoutes(hash, kept, key).value) <==> OneRowPerValue(GroupSegments(hash, kept, key))
  {
    hide GroupRoutes, Dedupe, GroupRows, StyleOf, ValuesDistinct, IsSharded;
    var segments := GroupSegments(hash, kept, key);
    StyleSharded(segments);
    if Sharded(GroupStyle(hash, kept, key)) {
      GroupRoutesNamed(hash, kept, key);
    } else {
      UnshardedDistinct(hash, kept, key);
    }
  }

  lemma ImportPairs(hash: Hasher, rows: seq<TableConfigRow>, connection: Connection)
    requires BuildSpec(hash, rows, connection).Ok?
    ensures PairsDistinct(BuildSpec(hash, rows, connection).value.routes) <==> RowsUnambiguous(hash, Kept(rows))
  {
    hide GroupKeys, BuildGroups, SortedKeys, GroupRows, Kept, GroupRoutes, GroupSegments, OneRowPerValue,
         ValuesDistinct, PairsDistinct;
    var kept := Kept(rows);
    KeysReady(hash, kept);
    BuiltPairs(hash, kept, SortedKeys(hash, kept));
    BuildRaisesOnGroup(hash, kept, SortedKeys(hash, kept));
    forall key | key in GroupKeys(hash, kept)
      ensures GroupRoutes(hash, kept, key).Ok?
      ensures ValuesDistinct(GroupRoutes(hash, kept, key).value) <==> OneRowPerValue(GroupSegments(hash, kept, key))
    {
      GroupRaises(hash, kept, key);
      GroupDistinct(hash, kept, key);
    }
  }

  // ------------------------------------------------------------ names and codes are known

  predicate CodesApart(ds: seq<DatasourceRecord>) {
    forall i, j :: 0 <= i < j < |ds| ==> ds[i].code != ds[j].code
  }

  lemma SetDefaultApart(ds: seq<DatasourceRecord>, d: DatasourceRecord)
    requires CodesApart(ds)
    ensures CodesApart(SetDefault(ds, d))
  {
  }

  lemma {:induction false} CodesDistinct(hash: Hasher, kept: seq<TableConfigRow>, connection: Connection)
    ensures CodesApart(Datasources(hash, kept, connection))
  {
    hide NewDatasource, SetDefault;
    if kept != [] {
      CodesDistinct(hash, kept[..|kept| - 1], connection);
      SetDefaultApart(Datasources(hash, kept[..|kept| - 1], connection),
          NewDatasource(hash, kept[|kept| - 1], connection));
    }
  }

  lemma SortedDistinct(ds: seq<DatasourceRecord>)
    requires CodesApart(ds)
    ensures CodesApart(SortDatasources(ds))
  {
    var leq := (a: DatasourceRecord, b: DatasourceRecord) => TextLeq(a.code, b.code);
    SortByNoDuplicates(leq, ds);
    SortBySame(leq, ds);
    var s := SortDatasources(ds);
    forall i, j | 0 <= i < j < |s|
      ensures s[i].code != s[j].code
    {
      assert s[i] in ds && s[j] in ds;
    }
  }

  lemma RowIsKept(hash: Hasher, kept: seq<TableConfigRow>, key: string, row: TableConfigRow)
    requires row in GroupSegments(hash, kept, key)
    ensures row in kept
  {
    hide GroupKey, Dedupe;
    DedupeRows(GroupRows(hash, kept, key));
    GroupRowsAre(hash, kept, key);
  }

  lemma ClaimCode(hash: Hasher, style: Style, row: TableConfigRow, c: Claim)
    requires c in RowClaims(hash, style, row)
    ensures c.datasourceCode == MakeDatasourceCode(hash, row.sourceName)
  {
    hide MakeDatasourceCode, IntToString;
    ShardClaimsAre(hash, row, row.beginIndex, row.endIndex + 1);
  }

  /** Every route's datasource is among the bundle's datasources. */
  lemma RouteCodeKnown(hash: Hasher, kept: seq<TableConfigRow>, connection: Connection, key: string, r: RouteRecord)
    requires GroupRoutes(hash, kept, key).Ok? && r in GroupRoutes(hash, kept, key).value
    ensures HasCode(SortDatasources(Datasources(hash, kept, connection)), r.datasourceCode)
  {
    hide GroupRoutes, GroupSegments, StyleOf, MakeDatasourceCode, RowClaims, AllRouted, ValuesDistinct, HasCode,
         SortDatasources;
    GroupDeclares(hash, kept, key);
    assert Declares(hash, kept, key, r.routeValue, r.physicalTableName, r.datasourceCode);
    var segments := GroupSegments(hash, kept, key);
    var c :| ClaimedBy(hash, StyleOf(segments), segments, c) && c.datasourceCode == r.datasourceCode;
    var row :| row in segments && c in RowClaims(hash, StyleOf(segments), row);
    ClaimCode(hash, StyleOf(segments), row, c);
    RowIsKept(hash, kept, key, row);
    CodesAre(hash, kept, connection, r.datasourceCode);
    SortedCodes(Datasources(hash, kept, connection), r.datasourceCode);
  }

  lemma KnownFromKeys(ts: seq<LogicalTableRecord>, keys: seq<string>, name: string)
    requires |ts| == |keys| && forall i :: 0 <= i < |keys| ==> ts[i].tableName == keys[i]
    ensures KnownTable(ts, name) <==> name in keys
  {
  }

  lemma KnownFromCode(ds: seq<DatasourceRecord>, code: string)
    ensures KnownDatasource(ds, code) <==> HasCode(ds, code)
  {
  }

  /** Every route of a bundle names a table and a datasource of the bundle. */
  lemma BuiltRoutesKnown(hash: Hasher, rows: seq<TableConfigRow>, connection: Connection)
    requires BuildSpec(hash, rows, connection).Ok?
    ensures var b := BuildSpec(hash, rows, connection).value;
            forall i :: 0 <= i < |b.routes| ==>
              KnownTable(b.logicalTables, b.routes[i].logicalTableName) &&
                  KnownDatasource(b.datasources, b.routes[i].datasourceCode)
  {
    hide BuildGroups, SortedKeys, Kept, GroupRoutes, GroupStyle, KnownTable, KnownDatasource, FactorsBuilt,
         ShardedDistinct, RuleFor, GroupRows, HasCode, Datasources, SortDatasources, CountBlank;
    ImportBuilt(hash, rows, connection);
    var b := BuildSpec(hash, rows, connection).value;
    var kept := Kept(rows);
    forall i | 0 <= i < |b.routes|
      ensures KnownTable(b.logicalTables, b.routes[i].logicalTableName)
      ensures KnownDatasource(b.datasources, b.routes[i].datasourceCode)
    {
      assert b.routes[i] in b.routes;
      KnownFromKeys(b.logicalTables, SortedKeys(hash, kept), b.routes[i].logicalTableName);
      RouteCodeKnown(hash, kept, connection, b.routes[i].logicalTableName, b.routes[i]);
      KnownFromCode(b.datasources, b.routes[i].datasourceCode);
    }
  }

  // ------------------------------------------------------------ factors and rules

  lemma AtMostOneFactor(key: string, style: Style)
    ensures |FactorRecords(key, style)| <= 1
    ensures forall f :: f in FactorRecords(key, style) ==> f.logicalTableName == key
  {
  }

  ghost predicate FactorNamesDistinct(fs: seq<FactorRecord>) {
    forall i, j :: 0 <= i < j < |fs| ==> fs[i].logicalTableName != fs[j].logicalTableName
  }

  lemma FactorNamesNext(fs: seq<FactorRecord>, keys: seq<string>, key: string, style: Style)
    requires FactorNamesDistinct(fs) && key !in keys && forall f :: f in fs ==> f.logicalTableName in keys
    ensures FactorNamesDistinct(fs + FactorRecords(key, style))
  {
    AtMostOneFactor(key, style);
    hide FactorRecords;
    var more := FactorRecords(key, style);
    var all := fs + more;
    forall i, j | 0 <= i < j < |all|
      ensures all[i].logicalTableName != all[j].logicalTableName
    {
      assert all[i] == fs[i] && fs[i] in fs;
      assert j >= |fs| ==> all[j] == more[j - |fs|] && more[j - |fs|] in more;
    }
  }

  /** No table of a bundle has two factors. */
  lemma {:induction false} BuiltFactors(hash: Hasher, kept: seq<TableConfigRow>, keys: seq<string>)
    requires forall key :: key in keys ==> GroupRows(hash, kept, key) != []
    requires NoDuplicates(keys) && BuildGroups(hash, kept, keys).Ok?
    ensures FactorNamesDistinct(BuildGroups(hash, kept, keys).value.factors)
  {
    hide GroupRoutes, FactorRecords, RuleFor, GroupRows, GroupSegments, GroupStyle, TableRecord, RoutesBuilt,
         TablesBuilt, FactorNamesDistinct, ShardedDistinct, NoDuplicates;
    if keys == [] {
      NoFactors();
    } else {
      var front, key := keys[..|keys| - 1], keys[|keys| - 1];
      assert keys == front + [key];
      FrontOfKeys(front, key);
      BuiltFactors(hash, kept, front);
      BuiltGroups(hash, kept, front);
      FactorNamesNext(BuildGroups(hash, kept, front).value.factors, front, key, GroupStyle(hash, kept, key));
    }
  }

  lemma NoFactors()
    ensures FactorNamesDistinct([])
  {
  }

  lemma BuiltFactorsReady(hash: Hasher, rows: seq<TableConfigRow>, connection: Connection)
    requires BuildSpec(hash, rows, connection).Ok?
    ensures var b := BuildSpec(hash, rows, connection).value;
            FactorsReady(b.logicalTables, b.factors)
  {
    hide BuildGroups, SortedKeys, Kept, GroupStyle, KnownTable, RoutesBuilt, ShardedDistinct, RuleFor, GroupRows,
         Datasources, SortDatasources, CountBlank, FactorRecords;
    ImportBuilt(hash, rows, connection);
    var b := BuildSpec(hash, rows, connection).value;
    var kept := Kept(rows);
    KeysReady(hash, kept);
    BuiltFactors(hash, kept, SortedKeys(hash, kept));
    forall i | 0 <= i < |b.factors|
      ensures KnownTable(b.logicalTables, b.factors[i].logicalTableName)
    {
      assert b.factors[i] in b.factors;
      KnownFromKeys(b.logicalTables, SortedKeys(hash, kept), b.factors[i].logicalTableName);
    }
  }

  /** A bundle's tables and rules are named by the sorted group keys. */
  lemma BuiltNamed(hash: Hasher, rows: seq<TableConfigRow>, connection: Connection)
    requires BuildSpec(hash, rows, connection).Ok?
    ensures var b := BuildSpec(hash, rows, connection).value;
            var keys := SortedKeys(hash, Kept(rows));
            && |b.logicalTables| == |b.rules| == |keys|
            && (forall i :: 0 <= i < |keys| ==>
                  b.logicalTables[i].tableName == keys[i] && b.rules[i].logicalTableName == keys[i])
  {
    hide BuildGroups, SortedKeys, Kept, GroupStyle, RoutesBuilt, FactorsBuilt, ShardedDistinct, GroupRows, Datasources,
         SortDatasources, CountBlank;
    ImportBuilt(hash, rows, connection);
  }

  lemma BuiltRulesReady(hash: Hasher, rows: seq<TableConfigRow>, connection: Connection)
    requires BuildSpec(hash, rows, connection).Ok?
    ensures var b := BuildSpec(hash, rows, connection).value;
            && RulesReady(b.logicalTables, b.rules)
            && forall i, j :: 0 <= i < j < |b.logicalTables| ==>
                  b.logicalTables[i].tableName != b.logicalTables[j].tableName
  {
    hide BuildSpec, SortedKeys, Kept, KnownTable, GroupRows, GroupKeys;
    BuiltNamed(hash, rows, connection);
    var b := BuildSpec(hash, rows, connection).value;
    var keys := SortedKeys(hash, Kept(rows));
    KeysReady(hash, Kept(rows));
    forall i | 0 <= i < |b.rules|
      ensures KnownTable(b.logicalTables, b.rules[i].logicalTableName)
    {
      KnownFromKeys(b.logicalTables, keys, keys[i]);
      assert keys[i] in keys;
    }
  }

  lemma BuiltCodesDistinct(hash: Hasher, rows: seq<TableConfigRow>, connection: Connection)
    requires BuildSpec(hash, rows, connection).Ok?
    ensures CodesApart(BuildSpec(hash, rows, connection).value.datasources)
  {
    hide BuildGroups, SortedKeys, Kept, Datasources, SortDatasources, CountBlank;
    CodesDistinct(hash, Kept(rows), connection);
    SortedDistinct(Datasources(hash, Kept(rows), connection));
  }

  /**
   A bundle built from configuration rows fits beside the foreign rows exactly when no datasource code
   and no table name clashes with a foreign one and every unsharded group has one row per route value.
   */
  lemma BuiltLoadable(f: Store, hash: Hasher, rows: seq<TableConfigRow>, connection: Connection)
    requires BuildSpec(hash, rows, connection).Ok?
    ensures var b := BuildSpec(hash, rows, connection).value;
            Loadable(f, b) <==> NoClash(f, b) && RowsUnambiguous(hash, Kept(rows))
  {
    hide BuildSpec, Kept, RowsUnambiguous, FactorsReady, RulesReady, CodeTaken, NameTaken, KnownTable, KnownDatasource;
    BuiltFactorsReady(hash, rows, connection);
    BuiltRulesReady(hash, rows, connection);
    BuiltCodesDistinct(hash, rows, connection);
    BuiltRoutesKnown(hash, rows, connection);
    ImportPairs(hash, rows, connection);
  }

  /** Importing configuration rows into a valid store commits exactly under that condition. */
  lemma ImportCommitsExactly(s: Session, hash: Hasher, rows: seq<TableConfigRow>, connection: Connection)
    requires ValidSession(s) && BuildSpec(hash, rows, connection).Ok?
    ensures var b := BuildSpec(hash, rows, connection).value;
            var f := Foreign(s.db);
            SyncSpec(s, b).Ok? <==> !ForeignRouteOnImport(s.db) && NoClash(f, b) && RowsUnambiguous(hash, Kept(rows))
  {
    hide BuildSpec, Kept, RowsUnambiguous, NoClash, SyncSpec, ValidSession, Loadable, Merge, FactorsReady, RulesReady,
         RoutesReady, ForeignRouteOnImport, Foreign;
    var b := BuildSpec(hash, rows, connection).value;
    SyncExactly(s, b);
    var p := EnsureDefaultPolicy(s);
    PolicyApart(s, b);
    BuiltLoadable(Foreign(s.db), hash, rows, connection);
  }

  // ------------------------------------------------------------ the condition on rows is needed

  /** Two segments of one unsharded table in one source. */
  const TWO_SEGMENTS: seq<TableConfigRow> := [
    TableConfigRow("s", "c", "t", 0, 0, 0),
    TableConfigRow("s", "c", "t", 1, 1, 0)]

  lemma TwoKept()
    ensures Kept(TWO_SEGMENTS) == TWO_SEGMENTS
  {
    StripId("s");
    StripId("c");
    StripId("t");
    hide Strip;
    var rows := TWO_SEGMENTS;
    assert rows[..1][..0] == [];
    assert Kept(rows[..1]) == [rows[0]];
    assert rows == [rows[0]] + [rows[1]];
  }

  lemma TwoGrouped(hash: Hasher)
    ensures var key := GroupKey(hash, TWO_SEGMENTS[0]);
            && GroupRows(hash, TWO_SEGMENTS, key) == TWO_SEGMENTS
            && GroupKeys(hash, TWO_SEGMENTS) == [key]
  {
    var rows := TWO_SEGMENTS;
    var key := GroupKey(hash, rows[0]);
    assert GroupKey(hash, rows[1]) == key;
    hide GroupKey;
    var one := [rows[0]];
    assert rows[..1] == one && one[..0] == [];
    assert GroupRows(hash, one, key) == [] + one == one;
    assert GroupKeys(hash, one) == [] + [key] == [key];
    assert rows == one + [rows[1]];
  }

  lemma TwoStay()
    ensures Dedupe(TWO_SEGMENTS) == TWO_SEGMENTS && StyleOf(TWO_SEGMENTS) == Single
  {
    var rows := TWO_SEGMENTS;
    var one := [rows[0]];
    assert rows[..1] == one && one[..0] == [];
    assert Dedupe(one) == Put([], rows[0]) == one;
    assert one[1..] == [];
    assert Put(one, rows[1]) == [rows[0]] + Put([], rows[1]) == rows;
    assert rows[0] in rows && SourceOrUnknown(rows[0]) == "s";
    assert DistinctSources(rows) == {"s"};
  }

  /** Such rows build a bundle, and no store takes it: both segments become the route of value 0. */
  lemma TwoSegmentsNeverCommit(s: Session, hash: Hasher, connection: Connection)
    requires ValidSession(s)
    ensures BuildSpec(hash, TWO_SEGMENTS, connection).Ok?
    ensures SyncSpec(s, BuildSpec(hash, TWO_SEGMENTS, connection).value).Raise?
  {
    hide BuildSpec, Kept, SyncSpec, ValidSession, NoClash, GroupKeys, GroupRows, Dedupe, StyleOf, GroupKey,
         MakeDatasourceCode, Foreign, ForeignRouteOnImport;
    TwoKept();
    TwoGrouped(hash);
    TwoStay();
    TwoAgree(hash);
    var key := GroupKey(hash, TWO_SEGMENTS[0]);
    ImportRaisesExactly(hash, TWO_SEGMENTS, connection);
    ImportCommitsExactly(s, hash, TWO_SEGMENTS, connection);
    assert key in GroupKeys(hash, Kept(TWO_SEGMENTS));
    TwoClash();
  }

  lemma TwoClash()
    ensures !OneRowPerValue(TWO_SEGMENTS)
  {
    TwoStay();
    var a, b := TWO_SEGMENTS[0], TWO_SEGMENTS[1];
    assert a in TWO_SEGMENTS && b in TWO_SEGMENTS && a != b;
  }

  lemma TwoAgree(hash: Hasher)
    ensures !GroupConflict(hash, TWO_SEGMENTS, GroupKey(hash, TWO_SEGMENTS[0]))
  {
    TwoGrouped(hash);
    TwoStay();
    hide GroupRows, Dedupe, StyleOf, GroupKey, MakeDatasourceCode;
  }
}
