/** What a bundle contains, in terms of the configuration rows: rows that count, styles of tables, routes, records. */
module ImportContents {
  import opened Wrappers
  import opened Text
  import opened TextMeaning
  import opened Sequences
  import opened Identifiers
  import opened Metadata
  import opened Importer
  import opened ImporterProofs
  import opened ImportOrder

  // ------------------------------------------------------------ the rows that count

  /** The row as it counts: its three names without the blanks around them. */
  ghost predicate Trims(raw: TableConfigRow, row: TableConfigRow) {
    && StripsTo(raw.sourceName, row.sourceName) && StripsTo(raw.catlogName, row.catlogName)
    && StripsTo(raw.tableName, row.tableName)
    && row.beginIndex == raw.beginIndex && row.endIndex == raw.endIndex && row.shardCount == raw.shardCount
  }

  lemma TrimsExactly(raw: TableConfigRow, row: TableConfigRow)
    ensures Trims(raw, row) <==> row == Normalize(raw)
    ensures Trims(raw, row) ==> (row.tableName == "" <==> Blank(raw))
  {
    hide Strip, StripsTo;
    StripIs(raw.sourceName, row.sourceName);
    StripIs(raw.catlogName, row.catlogName);
    StripIs(raw.tableName, row.tableName);
  }

  /** The rows without a table name are skipped and counted; the others count, trimmed and in order. */
  lemma {:induction false} KeptExactly(rows: seq<TableConfigRow>, trimmed: seq<TableConfigRow>)
    requires |trimmed| == |rows| && forall i :: 0 <= i < |rows| ==> Trims(rows[i], trimmed[i])
    ensures Kept(rows) == Filter((row: TableConfigRow) => row.tableName != "", trimmed)
    ensures CountBlank(rows) == |set i: nat | i < |trimmed| && trimmed[i].tableName == ""|
  {
    hide Blank, Normalize, Trims;
    var named, nameless := (row: TableConfigRow) => row.tableName != "", (row: TableConfigRow) => row.tableName == "";
    assert Positions(nameless, trimmed) == set i: nat | i < |trimmed| && trimmed[i].tableName == "";
    if rows != [] {
      var n := |rows| - 1;
      assert trimmed == trimmed[..n] + [trimmed[n]];
      TrimsExactly(rows[n], trimmed[n]);
      KeptExactly(rows[..n], trimmed[..n]);
      assert Positions(nameless, trimmed[..n]) == set i: nat | i < n && trimmed[..n][i].tableName == "";
      PositionsSnoc(nameless, trimmed[..n], trimmed[n]);
      FilterSnoc(named, trimmed[..n], trimmed[n]);
    }
  }

  // ------------------------------------------------------------ the segments of a table

  /** The rows say the same but for their names: of one source, over one range, with one count. */
  predicate SameRange(a: TableConfigRow, b: TableConfigRow) {
    && a.sourceName == b.sourceName && a.beginIndex == b.beginIndex && a.endIndex == b.endIndex
    && a.shardCount == b.shardCount
  }

  /** Of the rows of its table that say the same, this is the last. */
  ghost predicate Survives(hash: Hasher, kept: seq<TableConfigRow>, i: int) {
    && 0 <= i < |kept|
    && forall j :: i < j < |kept| ==> GroupKey(hash, kept[j]) != GroupKey(hash, kept[i]) || !SameRange(kept[j], kept[i])
  }

  /** This row of the table `key` decides for its range. */
  ghost predicate Decides(hash: Hasher, kept: seq<TableConfigRow>, key: string, row: TableConfigRow) {
    exists i :: Survives(hash, kept, i) && kept[i] == row && GroupKey(hash, row) == key
  }

  lemma {:induction false} PutExactly(entries: seq<TableConfigRow>, row: TableConfigRow)
    requires SegmentsDistinct(entries)
    ensures forall r :: r in Put(entries, row) <==> r == row || (r in entries && !SameRange(r, row))
  {
    if entries != [] {
      assert forall i :: 0 <= i < |entries[1..]| ==> entries[1..][i] == entries[i + 1];
      assert entries == [entries[0]] + entries[1..];
      if SegmentOf(entries[0]) != SegmentOf(row) {
        PutExactly(entries[1..], row);
      } else {
        assert forall r :: r in entries[1..] ==> SegmentOf(r) != SegmentOf(entries[0]);
      }
    }
  }

  /** The deduplicated rows of a table are those that decide for their range. */
  lemma {:induction false} SegmentsExactly(hash: Hasher, kept: seq<TableConfigRow>, key: string)
    ensures forall row :: row in GroupSegments(hash, kept, key) <==> Decides(hash, kept, key, row)
  {
    hide GroupKey, Put;
    if kept != [] {
      var front, last := kept[..|kept| - 1], kept[|kept| - 1];
      assert kept == front + [last];
      SegmentsExactly(hash, front, key);
      hide GroupSegments, Decides;
      forall row
        ensures row in GroupSegments(hash, kept, key) <==> Decides(hash, kept, key, row)
      {
        SnocSegments(hash, front, last, key, row);
        DecidesSnoc(hash, front, last, key, row);
      }
    }
  }

  lemma SnocSegments(hash: Hasher, front: seq<TableConfigRow>, last: TableConfigRow, key: string, row: TableConfigRow)
    ensures row in GroupSegments(hash, front + [last], key)
       <==> || (row == last && GroupKey(hash, last) == key)
            || (row in GroupSegments(hash, front, key) && (GroupKey(hash, last) != key || !SameRange(last, row)))
  {
    hide GroupKey, Put;
    SnocGroup(hash, front, last, key);
    var group := GroupRows(hash, front, key);
    if GroupKey(hash, last) == key {
      DedupeDistinct(group);
      assert (group + [last])[..|group|] == group;
      PutExactly(Dedupe(group), last);
    }
  }

  lemma DecidesSnoc(hash: Hasher, front: seq<TableConfigRow>, last: TableConfigRow, key: string, row: TableConfigRow)
    ensures Decides(hash, front + [last], key, row)
       <==> || (row == last && GroupKey(hash, last) == key)
            || (Decides(hash, front, key, row) && (GroupKey(hash, last) != key || !SameRange(last, row)))
  {
    hide GroupKey;
    var kept := front + [last];
    assert forall i :: 0 <= i < |front| ==> kept[i] == front[i];
    assert kept[|front|] == last;
    if row == last && GroupKey(hash, last) == key {
      assert Survives(hash, kept, |front|);
    }
    if i :| Survives(hash, front, i) && front[i] == row && GroupKey(hash, row) == key
            && (GroupKey(hash, last) != key || !SameRange(last, row))
    {
      assert Survives(hash, kept, i);
    }
    if i :| Survives(hash, kept, i) && kept[i] == row && GroupKey(hash, row) == key && i < |front| {
      assert Survives(hash, front, i);
      assert GroupKey(hash, kept[|front|]) != key || !SameRange(kept[|front|], row);
    }
  }

  // ------------------------------------------------------------ the routing style of a table

  predicate SomeSharded(rows: seq<TableConfigRow>) {
    exists row :: row in rows && row.shardCount > 0
  }

  predicate GreatestCount(rows: seq<TableConfigRow>, m: int) {
    (exists row :: row in rows && row.shardCount == m) && forall row :: row in rows ==> row.shardCount <= m
  }

  /** Some sharded row has the shard in its range. */
  predicate Covered(rows: seq<TableConfigRow>, k: int) {
    exists row :: row in rows && row.shardCount > 0 && row.beginIndex <= k <= row.endIndex
  }

  /** The sharded rows cover exactly the shards 0 to m - 1. */
  ghost predicate CoversExactly(rows: seq<TableConfigRow>, m: int) {
    forall k :: Covered(rows, k) <==> 0 <= k < m
  }

  /** The name a source goes by. */
  predicate Named(row: TableConfigRow, name: string) {
    name == if row.sourceName == "" then "unknown_source" else row.sourceName
  }

  /**
   How the rows of a table route it: by remainder when its sharded rows cover exactly the shards below
   the greatest shard count, by suffix when they do not, by source when none is sharded and there are
   several sources, else to one place.
   */
  ghost predicate StyleFits(rows: seq<TableConfigRow>, style: Style) {
    match style
    case Business(m) => SomeSharded(rows) && GreatestCount(rows, m) && CoversExactly(rows, m)
    case Suffix => SomeSharded(rows) && forall m :: !(GreatestCount(rows, m) && CoversExactly(rows, m))
    case BySource => !SomeSharded(rows) && exists a, b :: a in rows && b in rows && DifferentSources(a, b)
    case Single => !SomeSharded(rows) && forall a, b :: a in rows && b in rows ==> !DifferentSources(a, b)
  }

  ghost predicate DifferentSources(a: TableConfigRow, b: TableConfigRow) {
    forall name :: Named(a, name) ==> !Named(b, name)
  }

  lemma SourcesDiffer(a: TableConfigRow, b: TableConfigRow)
    ensures DifferentSources(a, b) <==> SourceOrUnknown(a) != SourceOrUnknown(b)
  {
    assert Named(a, SourceOrUnknown(a)) && Named(b, SourceOrUnknown(b));
  }

  lemma SourceCounts(rows: seq<TableConfigRow>)
    ensures |DistinctSources(rows)| > 1 <==> exists a, b :: a in rows && b in rows && DifferentSources(a, b)
  {
    hide DifferentSources, SourceOrUnknown;
    forall a, b
      ensures DifferentSources(a, b) <==> SourceOrUnknown(a) != SourceOrUnknown(b)
    {
      SourcesDiffer(a, b);
    }
    var sources := DistinctSources(rows);
    if a, b :| a in rows && b in rows && DifferentSources(a, b) {
      SubsetSize({SourceOrUnknown(a), SourceOrUnknown(b)}, sources);
    } else if rows != [] {
      var first := rows[0];
      forall name | name in sources
        ensures name == SourceOrUnknown(first)
      {
        var row :| row in rows && SourceOrUnknown(row) == name;
        assert !DifferentSources(row, first);
      }
      SubsetSize(sources, {SourceOrUnknown(first)});
    } else {
      assert sources == {};
    }
  }

  lemma ShardedIs(rows: seq<TableConfigRow>)
    ensures IsSharded(rows) <==> SomeSharded(rows)
  {
    if row :| row in rows && row.shardCount > 0 {
      var i :| 0 <= i < |rows| && rows[i] == row;
    }
    if i :| 0 <= i < |rows| && rows[i].shardCount > 0 {
      assert rows[i] in rows;
    }
  }

  lemma ModulusIs(rows: seq<TableConfigRow>, m: int)
    requires rows != []
    ensures GreatestCount(rows, m) <==> m == Modulus(rows)
  {
    ModulusIsMax(rows);
    hide Modulus;
  }

  lemma CoverageIs(rows: seq<TableConfigRow>, m: int)
    ensures CoversExactly(rows, m) <==> ShardSuffixes(rows) == IndexRange(0, m)
  {
    forall k
      ensures k in ShardSuffixes(rows) <==> Covered(rows, k)
    {
      SuffixesAre(rows, k);
    }
    hide ShardSuffixes, IndexRange, Covered;
  }

  /** The style of a table is the one that fits its rows. */
  lemma StyleExactly(rows: seq<TableConfigRow>, style: Style)
    ensures StyleOf(rows) == style <==> StyleFits(rows, style)
  {
    hide IsSharded, SomeSharded, Modulus, ShardSuffixes, IndexRange, DistinctSources, DifferentSources, GreatestCount,
         CoversExactly;
    ShardedIs(rows);
    SourceCounts(rows);
    if SomeSharded(rows) {
      GreatestPositive(rows);
      forall m
        ensures GreatestCount(rows, m) <==> m == Modulus(rows)
        ensures CoversExactly(rows, m) <==> ShardSuffixes(rows) == IndexRange(0, m)
      {
        ModulusIs(rows, m);
        CoverageIs(rows, m);
      }
    }
  }

  lemma GreatestPositive(rows: seq<TableConfigRow>)
    requires SomeSharded(rows)
    ensures rows != [] && Modulus(rows) > 0
  {
    ModulusIsMax(rows);
    hide Modulus;
  }

  // ------------------------------------------------------------ the routes

  /** The route value and physical table that a row stands for under a style. */
  predicate RowRoute(style: Style, row: TableConfigRow, value: string, physical: string) {
    match style
    case BySource => Named(row, value) && physical == row.tableName
    case Single => value == "0" && physical == row.tableName
    case _ => exists k :: row.beginIndex <= k <= row.endIndex && ShardRoute(row, k, value, physical)
  }

  predicate ShardRoute(row: TableConfigRow, k: int, value: string, physical: string) {
    value == IntToString(k) && physical == row.tableName + "_" + IntToString(k)
  }

  lemma ClaimsExactly(hash: Hasher, style: Style, row: TableConfigRow, value: string, physical: string)
    ensures (exists c :: c in RowClaims(hash, style, row) && c.routeValue == value && c.physicalTableName == physical)
       <==> RowRoute(style, row, value, physical)
    ensures forall c :: c in RowClaims(hash, style, row) ==>
              c.origin == row && c.datasourceCode == MakeDatasourceCode(hash, row.sourceName)
  {
    hide IntToString, MakeDatasourceCode;
    ShardClaimsAre(hash, row, row.beginIndex, row.endIndex + 1);
    var claims := RowClaims(hash, style, row);
    if Sharded(style) {
      hide ShardClaims;
      if k :| row.beginIndex <= k <= row.endIndex && ShardRoute(row, k, value, physical) {
        assert ShardClaim(hash, row, k) in claims;
      }
      if c :| c in claims && c.routeValue == value && c.physicalTableName == physical {
        var k :| row.beginIndex <= k < row.endIndex + 1 && c == ShardClaim(hash, row, k);
        assert ShardRoute(row, k, value, physical);
      }
    } else {
      assert |claims| == 1 && claims[0] in claims;
      assert forall c :: c in claims ==> c == claims[0];
    }
  }

  /** The row of the table `key` that decides for its range stands for this route. */
  ghost predicate Configured(hash: Hasher, kept: seq<TableConfigRow>, key: string, row: TableConfigRow, value: string,
                             physical: string) {
    Decides(hash, kept, key, row) && RowRoute(GroupStyle(hash, kept, key), row, value, physical)
  }

  /** The declared routes are those of the deciding rows. */
  lemma DeclaresExactly(hash: Hasher, kept: seq<TableConfigRow>, key: string, value: string, physical: string,
                        code: string)
    ensures Declares(hash, kept, key, value, physical, code)
       <==> exists row :: Configured(hash, kept, key, row, value, physical)
                          && code == MakeDatasourceCode(hash, row.sourceName)
  {
    hide GroupSegments, StyleOf, RowClaims, RowRoute, Decides, MakeDatasourceCode;
    SegmentsExactly(hash, kept, key);
    var segments := GroupSegments(hash, kept, key);
    var style := StyleOf(segments);
    if Declares(hash, kept, key, value, physical, code) {
      var c :| ClaimedBy(hash, style, segments, c) && c.routeValue == value && c.physicalTableName == physical
               && c.datasourceCode == code;
      var row :| row in segments && c in RowClaims(hash, style, row);
      ClaimsExactly(hash, style, row, value, physical);
      assert Configured(hash, kept, key, row, value, physical);
    }
    if row :| Configured(hash, kept, key, row, value, physical) && code == MakeDatasourceCode(hash, row.sourceName) {
      ClaimsExactly(hash, style, row, value, physical);
      var c :| c in RowClaims(hash, style, row) && c.routeValue == value && c.physicalTableName == physical;
      assert ClaimedBy(hash, style, segments, c);
    }
  }

  /**
   The routes of a bundle, in terms of the rows: a table has a route exactly when a row that decides for
   its range stands for it, and the route goes to that row's source.
   */
  lemma RoutesExactly(hash: Hasher, rows: seq<TableConfigRow>, connection: Connection, key: string, value: string,
                      physical: string, code: string)
    requires BuildSpec(hash, rows, connection).Ok?
    ensures (exists r :: r in BuildSpec(hash, rows, connection).value.routes && r.logicalTableName == key
                         && SaysTriple(r, value, physical, code))
       <==> exists row :: Configured(hash, Kept(rows), key, row, value, physical)
                          && code == MakeDatasourceCode(hash, row.sourceName)
    ensures StyleFits(GroupSegments(hash, Kept(rows), key), GroupStyle(hash, Kept(rows), key))
  {
    hide BuildSpec, Kept, GroupKeys, Declares, RowRoute, GroupSegments, MakeDatasourceCode, StyleOf, StyleFits,
         GroupKey;
    ImportDeclaresExactly(hash, rows, connection, key, value, physical, code);
    DeclaresExactly(hash, Kept(rows), key, value, physical, code);
    StyleExactly(GroupSegments(hash, Kept(rows), key), GroupStyle(hash, Kept(rows), key));
    if row :| Configured(hash, Kept(rows), key, row, value, physical) {
      var i :| Survives(hash, Kept(rows), i) && Kept(rows)[i] == row && GroupKey(hash, row) == key;
      assert Kept(rows)[i] in Kept(rows);
      KeysAre(hash, Kept(rows), key);
    }
  }

  // ------------------------------------------------------------ the records of a table

  /** Where the values that route a table come from. */
  predicate SourceFits(style: Style, source: string) {
    match style
    case Business(_) => source == "sql_and_route_context"
    case Suffix => source == "route_context_or_sql"
    case BySource => source == "route_context_or_sql"
    case Single => source == "sql_or_physical_table"
  }

  /** The factor and the rule of each style; a table with one place needs no factor. */
  predicate FactorFits(style: Style, f: FactorRecord) {
    match style
    case Business(_) =>
      f.factorName == "shard_value" && f.sourceType == "sql_predicate_from_context" && f.sourceKey == "shard_column"
    case Suffix =>
      f.factorName == "route_suffix" && f.sourceType == "route_context" && f.sourceKey == "route_suffix"
    case BySource => f.factorName == "source_name" && f.sourceType == "route_context" && f.sourceKey == "source_name"
    case Single => false
  }

  predicate RuleFits(style: Style, r: RuleRecord) {
    match style
    case Business(m) =>
      && r.ruleName == "imported_business_shard_mod" && r.ruleType == "mod"
      && r.expression == ToStr(Mod(ToInt(Var("shard_value")), Num(m)))
    case Suffix =>
      && r.ruleName == "imported_route_suffix_passthrough" && r.ruleType == "route_context_passthrough"
      && r.expression == ToStr(ToInt(Var("route_suffix")))
    case BySource =>
      && r.ruleName == "imported_source_name_passthrough" && r.ruleType == "route_context_passthrough"
      && r.expression == ToStr(Var("source_name"))
    case Single =>
      r.ruleName == "imported_constant_single_table" && r.ruleType == "constant" && r.expression == Literal("0")
  }

  /** The first row of the table `key`. */
  ghost predicate FirstRow(hash: Hasher, kept: seq<TableConfigRow>, key: string, row: TableConfigRow) {
    exists i :: 0 <= i < |kept| && kept[i] == row && GroupKey(hash, row) == key
                && forall j :: 0 <= j < i ==> GroupKey(hash, kept[j]) != key
  }

  /** The record of a table: named and described by its first row, and routed by its style. */
  ghost predicate RecordFits(hash: Hasher, kept: seq<TableConfigRow>, t: LogicalTableRecord) {
    var style := GroupStyle(hash, kept, t.tableName);
    && SourceFits(style, t.routeSource)
    && t.rowCount == |set i: nat | i < |kept| && GroupKey(hash, kept[i]) == t.tableName|
    && t.dedupedCount == |GroupSegments(hash, kept, t.tableName)|
    && t.shardModulus == (match style case Business(m) => Some(m) case _ => None)
    && exists first :: FirstRow(hash, kept, t.tableName, first)
                       && t.catlogName == first.catlogName && t.originalTableName == first.tableName
                       && t.physicalNameTemplate
                          == if style.Business? || style.Suffix? then first.tableName + "_{route_suffix}"
                             else first.tableName
  }

  lemma {:induction false} GroupIsFilter(hash: Hasher, kept: seq<TableConfigRow>, key: string)
    ensures GroupRows(hash, kept, key) == Filter((row: TableConfigRow) => GroupKey(hash, row) == key, kept)
  {
    hide GroupKey;
    if kept != [] {
      GroupIsFilter(hash, kept[..|kept| - 1], key);
      assert kept == kept[..|kept| - 1] + [kept[|kept| - 1]];
      FilterSnoc((row: TableConfigRow) => GroupKey(hash, row) == key, kept[..|kept| - 1], kept[|kept| - 1]);
    }
  }

  lemma GroupCount(hash: Hasher, kept: seq<TableConfigRow>, key: string)
    ensures |GroupRows(hash, kept, key)| == |set i: nat | i < |kept| && GroupKey(hash, kept[i]) == key|
  {
    hide GroupKey;
    var p := (row: TableConfigRow) => GroupKey(hash, row) == key;
    GroupIsFilter(hash, kept, key);
    FilterCounts(p, kept);
    assert Positions(p, kept) == set i: nat | i < |kept| && GroupKey(hash, kept[i]) == key;
  }

  lemma {:induction false} GroupStarts(hash: Hasher, kept: seq<TableConfigRow>, key: string)
    requires GroupRows(hash, kept, key) != []
    ensures FirstRow(hash, kept, key, GroupRows(hash, kept, key)[0])
  {
    hide GroupKey;
    var front, last := kept[..|kept| - 1], kept[|kept| - 1];
    if GroupRows(hash, front, key) != [] {
      GroupStarts(hash, front, key);
      var i :| 0 <= i < |front| && front[i] == GroupRows(hash, front, key)[0] && GroupKey(hash, front[i]) == key
               && forall j :: 0 <= j < i ==> GroupKey(hash, front[j]) != key;
      assert kept[i] == front[i] && forall j :: 0 <= j < i ==> kept[j] == front[j];
    } else {
      GroupRowsAre(hash, front, key);
      forall j | 0 <= j < |kept| - 1
        ensures GroupKey(hash, kept[j]) != key
      {
        assert front[j] == kept[j] && front[j] in front;
      }
    }
  }

  lemma ImportedTables(hash: Hasher, rows: seq<TableConfigRow>, connection: Connection)
    requires BuildSpec(hash, rows, connection).Ok?
    ensures TablesBuilt(hash, Kept(rows), SortedKeys(hash, Kept(rows)),
                        var b := BuildSpec(hash, rows, connection).value;
                        Parts(b.logicalTables, b.factors, b.rules, b.routes))
    ensures FactorsBuilt(hash, Kept(rows), SortedKeys(hash, Kept(rows)),
                         BuildSpec(hash, rows, connection).value.factors)
  {
    ImportBuilt(hash, rows, connection);
    hide BuildSpec, Kept, SortedKeys, TablesBuilt, FactorsBuilt, RoutesBuilt, ShardedDistinct;
  }

  /** A bundle has one table for every name that some row gives, and records it by its rows. */
  lemma TablesExactly(hash: Hasher, rows: seq<TableConfigRow>, connection: Connection)
    requires BuildSpec(hash, rows, connection).Ok?
    ensures var ts := BuildSpec(hash, rows, connection).value.logicalTables;
            && (forall t :: t in ts ==> RecordFits(hash, Kept(rows), t))
            && (forall row :: row in Kept(rows) ==> exists t :: t in ts && t.tableName == GroupKey(hash, row))
  {
    ImportedTables(hash, rows, connection);
    hide BuildSpec, Kept, GroupKey, GroupStyle, RecordFits, TableRecord, RuleFor, SortedKeys, GroupRows, GroupSegments,
         FactorsBuilt;
    var ts := BuildSpec(hash, rows, connection).value.logicalTables;
    var kept := Kept(rows);
    var keys := SortedKeys(hash, kept);
    forall t | t in ts
      ensures RecordFits(hash, kept, t)
    {
      var i :| 0 <= i < |ts| && ts[i] == t;
      RecordIs(hash, kept, t);
    }
    forall row | row in kept
      ensures exists t :: t in ts && t.tableName == GroupKey(hash, row)
    {
      RowHasTable(hash, kept, row);
      var k :| 0 <= k < |keys| && keys[k] == GroupKey(hash, row);
      assert ts[k] in ts;
    }
  }

  /** Every table of a bundle has the rule of its style, in the order of the tables. */
  lemma RulesExactly(hash: Hasher, rows: seq<TableConfigRow>, connection: Connection)
    requires BuildSpec(hash, rows, connection).Ok?
    ensures var b := BuildSpec(hash, rows, connection).value;
            && |b.rules| == |b.logicalTables|
            && forall i :: 0 <= i < |b.rules| ==>
                 && b.rules[i].logicalTableName == b.logicalTables[i].tableName
                 && RuleFits(GroupStyle(hash, Kept(rows), b.rules[i].logicalTableName), b.rules[i])
  {
    ImportedTables(hash, rows, connection);
    hide BuildSpec, Kept, GroupStyle, RuleFits, TableRecord, RuleFor, SortedKeys, GroupRows, GroupSegments,
         FactorsBuilt, ModulusOf;
    var b := BuildSpec(hash, rows, connection).value;
    var keys := SortedKeys(hash, Kept(rows));
    forall i | 0 <= i < |b.rules|
      ensures b.rules[i].logicalTableName == keys[i]
      ensures RuleFits(GroupStyle(hash, Kept(rows), keys[i]), b.rules[i])
    {
      RuleIs(GroupStyle(hash, Kept(rows), keys[i]), keys[i]);
    }
  }

  /** Every factor of a bundle is that of its table's style, and every table but those with one place has it. */
  lemma FactorsExactly(hash: Hasher, rows: seq<TableConfigRow>, connection: Connection)
    requires BuildSpec(hash, rows, connection).Ok?
    ensures var b := BuildSpec(hash, rows, connection).value;
            && (forall f :: f in b.factors ==> FactorFits(GroupStyle(hash, Kept(rows), f.logicalTableName), f))
            && (forall t :: t in b.logicalTables && !GroupStyle(hash, Kept(rows), t.tableName).Single? ==>
                  exists f :: f in b.factors && f.logicalTableName == t.tableName)
  {
    ImportedTables(hash, rows, connection);
    hide BuildSpec, Kept, GroupStyle, FactorFits, TableRecord, RuleFor, FactorRecords, SortedKeys, GroupRows,
         GroupSegments, TablesBuilt;
    TablesAreKeys(hash, rows, connection);
    forall key
      ensures forall f :: f in FactorRecords(key, GroupStyle(hash, Kept(rows), key)) ==>
                FactorFits(GroupStyle(hash, Kept(rows), key), f)
      ensures !GroupStyle(hash, Kept(rows), key).Single? ==>
                exists f :: f in FactorRecords(key, GroupStyle(hash, Kept(rows), key)) && f.logicalTableName == key
    {
      FactorIs(GroupStyle(hash, Kept(rows), key), key);
    }
  }

  lemma TablesAreKeys(hash: Hasher, rows: seq<TableConfigRow>, connection: Connection)
    requires BuildSpec(hash, rows, connection).Ok?
    ensures forall t :: t in BuildSpec(hash, rows, connection).value.logicalTables ==>
              t.tableName in SortedKeys(hash, Kept(rows))
  {
    ImportedTables(hash, rows, connection);
    hide BuildSpec, Kept, GroupStyle, TableRecord, RuleFor, SortedKeys, GroupRows, GroupSegments, FactorsBuilt,
         ModulusOf;
    var ts := BuildSpec(hash, rows, connection).value.logicalTables;
    forall t | t in ts
      ensures t.tableName in SortedKeys(hash, Kept(rows))
    {
      var i :| 0 <= i < |ts| && ts[i] == t;
    }
  }

  lemma RowHasTable(hash: Hasher, kept: seq<TableConfigRow>, row: TableConfigRow)
    requires row in kept
    ensures GroupKey(hash, row) in SortedKeys(hash, kept)
  {
    hide GroupKey, SortedKeys, GroupKeys;
    KeysAre(hash, kept, GroupKey(hash, row));
    SortedKeysHaveRows(hash, kept);
  }

  lemma RecordIs(hash: Hasher, kept: seq<TableConfigRow>, t: LogicalTableRecord)
    requires GroupRows(hash, kept, t.tableName) != []
    requires t == TableRecord(t.tableName, GroupStyle(hash, kept, t.tableName), GroupRows(hash, kept, t.tableName),
                              GroupSegments(hash, kept, t.tableName))
    ensures RecordFits(hash, kept, t)
  {
    hide GroupKey, GroupStyle, GroupRows, GroupSegments, FirstRow;
    GroupCount(hash, kept, t.tableName);
    GroupStarts(hash, kept, t.tableName);
  }

  lemma RuleIs(style: Style, key: string)
    ensures RuleFor(key, style).logicalTableName == key && RuleFits(style, RuleFor(key, style))
  {
  }

  lemma FactorIs(style: Style, key: string)
    ensures forall f :: f in FactorRecords(key, style) ==> FactorFits(style, f)
    ensures !style.Single? ==> exists f :: f in FactorRecords(key, style) && f.logicalTableName == key
  {
    if !style.Single? {
      assert FactorRecords(key, style)[0] in FactorRecords(key, style);
    }
  }
}
