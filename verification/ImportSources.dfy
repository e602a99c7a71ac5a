/** Sources, tables and the order of routes in a bundle: what different configuration rows keep apart. */
module ImportSources {
  import opened Sequences
  import opened Identifiers
  import opened Metadata
  import opened Importer
  import opened ImporterProofs
  import opened ImportOrder
  import opened ImportContents

  // ------------------------------------------------------------ the datasources of a bundle

  /** The datasource of a row: its code, its source by name, the connection of the import. */
  predicate DescribedBy(hash: Hasher, d: DatasourceRecord, row: TableConfigRow, connection: Connection) {
    && d.code == MakeDatasourceCode(hash, row.sourceName) && d.originalSourceName == row.sourceName
    && Named(row, d.displayName) && d.connection == connection
  }

  /** The first row whose source has its code. */
  ghost predicate FirstOfCode(hash: Hasher, kept: seq<TableConfigRow>, i: int) {
    && 0 <= i < |kept|
    && forall j :: 0 <= j < i ==>
         MakeDatasourceCode(hash, kept[j].sourceName) != MakeDatasourceCode(hash, kept[i].sourceName)
  }

  ghost predicate Introduced(hash: Hasher, kept: seq<TableConfigRow>, d: DatasourceRecord, connection: Connection) {
    exists i :: FirstOfCode(hash, kept, i) && DescribedBy(hash, d, kept[i], connection)
  }

  lemma {:induction false} DatasourcesIntroduced(hash: Hasher, kept: seq<TableConfigRow>, connection: Connection,
                                                 d: DatasourceRecord)
    ensures d in Datasources(hash, kept, connection) <==> Introduced(hash, kept, d, connection)
  {
    hide MakeDatasourceCode;
    if kept != [] {
      var front, last := kept[..|kept| - 1], kept[|kept| - 1];
      assert kept == front + [last];
      DatasourcesIntroduced(hash, front, connection, d);
      CodesAre(hash, front, connection, MakeDatasourceCode(hash, last.sourceName));
      IntroducedSnoc(hash, front, last, d, connection);
      SetDefaultIs(Datasources(hash, front, connection), NewDatasource(hash, last, connection), d);
    }
  }

  lemma SetDefaultIs(ds: seq<DatasourceRecord>, added: DatasourceRecord, d: DatasourceRecord)
    ensures d in SetDefault(ds, added) <==> d in ds || (d == added && !HasCode(ds, added.code))
  {
  }

  lemma IntroducedSnoc(hash: Hasher, front: seq<TableConfigRow>, last: TableConfigRow, d: DatasourceRecord,
                       connection: Connection)
    ensures Introduced(hash, front + [last], d, connection)
       <==> || Introduced(hash, front, d, connection)
            || (d == NewDatasource(hash, last, connection)
                && forall row :: row in front ==>
                     MakeDatasourceCode(hash, row.sourceName) != MakeDatasourceCode(hash, last.sourceName))
  {
    hide MakeDatasourceCode;
    var kept := front + [last];
    assert forall i :: 0 <= i < |front| ==> kept[i] == front[i];
    if i :| FirstOfCode(hash, front, i) && DescribedBy(hash, d, front[i], connection) {
      assert FirstOfCode(hash, kept, i) && DescribedBy(hash, d, kept[i], connection);
    }
    if d == NewDatasource(hash, last, connection)
       && forall row :: row in front ==>
            MakeDatasourceCode(hash, row.sourceName) != MakeDatasourceCode(hash, last.sourceName)
    {
      assert FirstOfCode(hash, kept, |front|) && DescribedBy(hash, d, kept[|front|], connection);
    }
    if i :| FirstOfCode(hash, kept, i) && DescribedBy(hash, d, kept[i], connection) {
      if i < |front| {
        assert FirstOfCode(hash, front, i) && DescribedBy(hash, d, front[i], connection);
      }
    }
  }

  /** A bundle has one datasource per code, described by the first row that has it. */
  lemma DatasourcesExactly(hash: Hasher, rows: seq<TableConfigRow>, connection: Connection)
    requires BuildSpec(hash, rows, connection).Ok?
    ensures var ds := BuildSpec(hash, rows, connection).value.datasources;
            && (forall d :: d in ds <==> Introduced(hash, Kept(rows), d, connection))
            && (forall row :: row in Kept(rows) ==>
                  exists d :: d in ds && d.code == MakeDatasourceCode(hash, row.sourceName))
  {
    hide Kept, BuildGroups, SortedKeys, Introduced, Datasources, MakeDatasourceCode, HasCode;
    var kept := Kept(rows);
    var ds := Datasources(hash, kept, connection);
    SortBySame((a: DatasourceRecord, b: DatasourceRecord) => TextLeq(a.code, b.code), ds);
    forall d
      ensures d in ds <==> Introduced(hash, kept, d, connection)
    {
      DatasourcesIntroduced(hash, kept, connection, d);
    }
    forall row | row in kept
      ensures exists d :: d in ds && d.code == MakeDatasourceCode(hash, row.sourceName)
    {
      CodesAre(hash, kept, connection, MakeDatasourceCode(hash, row.sourceName));
      CodeHeld(ds, MakeDatasourceCode(hash, row.sourceName));
    }
  }

  lemma CodeHeld(ds: seq<DatasourceRecord>, code: string)
    requires HasCode(ds, code)
    ensures exists d :: d in ds && d.code == code
  {
    var i :| 0 <= i < |ds| && ds[i].code == code;
    assert ds[i] in ds;
  }

  // ------------------------------------------------------------ where a route comes from

  lemma GroupRoutesClaimed(hash: Hasher, kept: seq<TableConfigRow>, key: string)
    requires GroupRoutes(hash, kept, key).Ok?
    ensures var style := GroupStyle(hash, kept, key);
            RoutesClaimed(key, GroupRoutes(hash, kept, key).value,
                          AllClaims(hash, style, SortRows(GroupSegments(hash, kept, key))))
  {
    hide GroupSegments, StyleOf, SortRows, AllClaims, EmitClaims, RoutesClaimed, ClaimsRouted, ValuesDistinct;
    var segments := GroupSegments(hash, kept, key);
    EmitMatches(key, Sharded(StyleOf(segments)), AllClaims(hash, StyleOf(segments), SortRows(segments)));
  }

  /** Every route is what its origin, a row that decides for its range, stands for, on that row's source. */
  lemma RouteOrigin(hash: Hasher, rows: seq<TableConfigRow>, connection: Connection, r: RouteRecord)
    requires BuildSpec(hash, rows, connection).Ok? && r in BuildSpec(hash, rows, connection).value.routes
    ensures Configured(hash, Kept(rows), r.logicalTableName, r.origin, r.routeValue, r.physicalTableName)
    ensures r.datasourceCode == MakeDatasourceCode(hash, r.origin.sourceName)
    ensures r.origin in Kept(rows)
  {
    ImportBuilt(hash, rows, connection);
    hide BuildSpec, Kept, GroupRoutes, GroupSegments, SortedKeys, AllClaims, SortRows, StyleOf, MakeDatasourceCode,
         RowClaims, TablesBuilt, FactorsBuilt, ShardedDistinct, RowRoute, GroupKey;
    var kept, key := Kept(rows), r.logicalTableName;
    GroupRoutesClaimed(hash, kept, key);
    var segments := GroupSegments(hash, kept, key);
    var style := StyleOf(segments);
    SortedClaims(hash, style, segments);
    var c :| c in AllClaims(hash, style, SortRows(segments)) && r == Record(key, c);
    assert ClaimedBy(hash, style, segments, c);
    var row :| row in segments && c in RowClaims(hash, style, row);
    ClaimsExactly(hash, style, row, r.routeValue, r.physicalTableName);
    SegmentsExactly(hash, kept, key);
  }

  // ------------------------------------------------------------ different sources and tables

  /**
   The routes of two sources whose names differ in more than case, punctuation and outer separators go
   to two different datasources of the bundle, each named by its source.
   */
  lemma SourcesStayApart(hash: Hasher, rows: seq<TableConfigRow>, connection: Connection, r: RouteRecord,
                         s: RouteRecord, x: string, y: string)
    requires BuildSpec(hash, rows, connection).Ok?
    requires r in BuildSpec(hash, rows, connection).value.routes && s in BuildSpec(hash, rows, connection).value.routes
    requires Core(r.origin.sourceName, x) && Core(s.origin.sourceName, y)
    requires x != y && x != "" && y != "" && |x| <= 56 && |y| <= 56
    ensures r.datasourceCode == "spy_src_" + x && s.datasourceCode == "spy_src_" + y
    ensures exists d, e :: && d in BuildSpec(hash, rows, connection).value.datasources && d.code == r.datasourceCode
                           && e in BuildSpec(hash, rows, connection).value.datasources && e.code == s.datasourceCode
                           && d.code != e.code
  {
    hide BuildSpec, Kept, Core, MakeDatasourceCode, Introduced, Configured;
    RouteOrigin(hash, rows, connection, r);
    RouteOrigin(hash, rows, connection, s);
    DatasourcesExactly(hash, rows, connection);
    SourcesApart(hash, r.origin.sourceName, s.origin.sourceName, x, y);
  }

  /** The catalog and table of a row, folded: plain names that together fit. */
  predicate FoldedNames(row: TableConfigRow, x: string, y: string) {
    && FoldsTo(if row.catlogName == "" then "unknown_catalog" else row.catlogName, x) && FoldsTo(row.tableName, y)
    && Plain(x) && Plain(y) && |x| + |y| <= 126
  }

  /** Rows of plain catalogs and tables belong to one table exactly when both names are the same, folded. */
  lemma TablesStayApart(hash: Hasher, rows: seq<TableConfigRow>, connection: Connection, a: TableConfigRow,
                        b: TableConfigRow, x: string, y: string, u: string, v: string)
    requires BuildSpec(hash, rows, connection).Ok? && a in Kept(rows) && b in Kept(rows)
    requires FoldedNames(a, x, y) && FoldedNames(b, u, v)
    ensures GroupKey(hash, a) == x + "__" + y && GroupKey(hash, b) == u + "__" + v
    ensures GroupKey(hash, a) == GroupKey(hash, b) <==> x == u && y == v
    ensures exists t :: t in BuildSpec(hash, rows, connection).value.logicalTables && t.tableName == x + "__" + y
  {
    hide BuildSpec, Kept, RecordFits, FoldsTo, MakeLogicalTableName;
    TableNameOf(hash, a.catlogName, a.tableName, x, y);
    TableNameOf(hash, b.catlogName, b.tableName, u, v);
    TableNamesApart(x, y, u, v);
    TablesExactly(hash, rows, connection);
  }

  // ------------------------------------------------------------ the order of the routes

  /** The row comes before: by its range, then by its source. */
  predicate Before(a: TableConfigRow, b: TableConfigRow) {
    || a.beginIndex < b.beginIndex
    || (a.beginIndex == b.beginIndex && a.endIndex < b.endIndex)
    || (a.beginIndex == b.beginIndex && a.endIndex == b.endIndex && TextLeq(a.sourceName, b.sourceName))
  }

  lemma RowsSorted(rows: seq<TableConfigRow>)
    ensures forall i, j :: 0 <= i < j < |SortRows(rows)| ==> Before(SortRows(rows)[i], SortRows(rows)[j])
  {
    var leq := (a: TableConfigRow, b: TableConfigRow) => RowLeq(a, b);
    forall a, b
      ensures leq(a, b) || leq(b, a)
    {
      TextLeqTotal(a.sourceName, b.sourceName);
    }
    forall a, b, c | leq(a, b) && leq(b, c)
      ensures leq(a, c)
    {
      if TextLeq(a.sourceName, b.sourceName) && TextLeq(b.sourceName, c.sourceName) {
        TextLeqTransitive(a.sourceName, b.sourceName, c.sourceName);
      }
    }
    SortByOrdered(leq, rows);
    var sorted := SortRows(rows);
    assert forall i, j :: 0 <= i < j < |sorted| ==> leq(sorted[i], sorted[j]);
  }

  /** Claims are listed in the order of their rows. */
  ghost predicate InOrder(claims: seq<Claim>) {
    forall i, j :: 0 <= i < j < |claims| ==>
      claims[i].origin == claims[j].origin || Before(claims[i].origin, claims[j].origin)
  }

  ghost predicate RoutesInOrder(routes: seq<RouteRecord>) {
    forall i, j :: 0 <= i < j < |routes| && routes[i].logicalTableName == routes[j].logicalTableName ==>
      routes[i].origin == routes[j].origin || Before(routes[i].origin, routes[j].origin)
  }

  lemma {:induction false} ClaimsInOrder(hash: Hasher, style: Style, rows: seq<TableConfigRow>)
    requires forall i, j :: 0 <= i < j < |rows| ==> Before(rows[i], rows[j])
    ensures InOrder(AllClaims(hash, style, rows))
  {
    hide RowClaims, Before;
    if rows != [] {
      var front, last := rows[..|rows| - 1], rows[|rows| - 1];
      ClaimsInOrder(hash, style, front);
      AllClaimsAre(hash, style, front);
      ClaimsExactly(hash, style, last, "", "");
      var done, more := AllClaims(hash, style, front), RowClaims(hash, style, last);
      forall i | 0 <= i < |done|
        ensures Before(done[i].origin, last)
      {
        assert done[i] in done;
        var row :| row in front && done[i] in RowClaims(hash, style, row);
        ClaimsExactly(hash, style, row, "", "");
        var k :| 0 <= k < |front| && front[k] == row;
        assert rows[k] == row;
      }
      assert forall i :: 0 <= i < |more| ==> more[i] in more;
    }
  }

  lemma {:induction false} EmittedInOrder(key: string, skipSeen: bool, claims: seq<Claim>)
    requires EmitClaims(key, skipSeen, claims).Ok? && InOrder(claims)
    ensures RoutesInOrder(EmitClaims(key, skipSeen, claims).value.routes)
    ensures RoutesClaimed(key, EmitClaims(key, skipSeen, claims).value.routes, claims)
  {
    hide Before;
    if claims != [] {
      var front, last := claims[..|claims| - 1], claims[|claims| - 1];
      assert forall i :: 0 <= i < |front| ==> front[i] == claims[i];
      EmittedInOrder(key, skipSeen, front);
      var routes := EmitClaims(key, skipSeen, front).value.routes;
      forall i | 0 <= i < |routes|
        ensures routes[i].origin == last.origin || Before(routes[i].origin, last.origin)
      {
        assert routes[i] in routes;
        var c :| c in front && routes[i] == Record(key, c);
        var k :| 0 <= k < |front| && front[k] == c;
        assert claims[k] == c;
      }
      assert claims == front + [last];
    }
  }

  lemma GroupInOrder(hash: Hasher, kept: seq<TableConfigRow>, key: string)
    requires GroupRoutes(hash, kept, key).Ok?
    ensures RoutesInOrder(GroupRoutes(hash, kept, key).value)
  {
    hide GroupSegments, StyleOf, AllClaims, EmitClaims, RoutesInOrder, InOrder, SortRows;
    var segments := GroupSegments(hash, kept, key);
    RowsSorted(segments);
    ClaimsInOrder(hash, StyleOf(segments), SortRows(segments));
    EmittedInOrder(key, Sharded(StyleOf(segments)), AllClaims(hash, StyleOf(segments), SortRows(segments)));
  }

  lemma {:induction false} GroupsInOrder(hash: Hasher, kept: seq<TableConfigRow>, keys: seq<string>)
    requires forall key :: key in keys ==> GroupRows(hash, kept, key) != []
    requires NoDuplicates(keys) && BuildGroups(hash, kept, keys).Ok?
    ensures RoutesInOrder(BuildGroups(hash, kept, keys).value.routes)
  {
    hide GroupRoutes, FactorRecords, RuleFor, GroupRows, GroupSegments, GroupStyle, TableRecord, NoDuplicates, Before;
    if keys != [] {
      var front, key := keys[..|keys| - 1], keys[|keys| - 1];
      assert keys == front + [key];
      FrontOfKeys(front, key);
      GroupsInOrder(hash, kept, front);
      BuiltGroups(hash, kept, front);
      GroupInOrder(hash, kept, key);
      GroupRoutesNamed(hash, kept, key);
      JoinedInOrder(BuildGroups(hash, kept, front).value.routes, GroupRoutes(hash, kept, key).value, front, key);
    }
  }

  lemma JoinedInOrder(done: seq<RouteRecord>, more: seq<RouteRecord>, keys: seq<string>, key: string)
    requires RoutesInOrder(done) && RoutesInOrder(more) && key !in keys
    requires forall r :: r in done ==> r.logicalTableName in keys
    requires forall r :: r in more ==> r.logicalTableName == key
    ensures RoutesInOrder(done + more)
  {
    hide Before;
    assert forall i :: 0 <= i < |done| ==> done[i] in done;
    assert forall i :: 0 <= i < |more| ==> more[i] in more;
  }

  /** The routes of each table are listed in the order of the rows they come from. */
  lemma RoutesOrdered(hash: Hasher, rows: seq<TableConfigRow>, connection: Connection)
    requires BuildSpec(hash, rows, connection).Ok?
    ensures RoutesInOrder(BuildSpec(hash, rows, connection).value.routes)
  {
    hide Kept, BuildGroups, SortedKeys, RoutesInOrder, GroupRows;
    KeysReady(hash, Kept(rows));
    GroupsInOrder(hash, Kept(rows), SortedKeys(hash, Kept(rows)));
  }
}
