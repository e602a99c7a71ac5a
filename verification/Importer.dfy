/**
 Building the routing metadata from the shard-configuration rows: grouping, segment
 deduplication, the routing style of each group, and the expansion of segments into routes with
 conflict detection.
 */
module Importer {
  import opened Wrappers
  import opened Text
  import opened Sequences
  import opened Identifiers
  import opened Metadata

  datatype TableConfigRow = TableConfigRow(
    sourceName: string, catlogName: string, tableName: string, beginIndex: int, endIndex: int, shardCount: int)

  datatype DatasourceRecord = DatasourceRecord(
    code: string, displayName: string, originalSourceName: string, connection: Connection)

  datatype LogicalTableRecord = LogicalTableRecord(
    tableName: string, routeSource: string, physicalNameTemplate: string, catlogName: string, originalTableName: string,
    rowCount: nat, dedupedCount: nat, shardModulus: Option<int>)

  datatype FactorRecord = FactorRecord(logicalTableName: string, factorName: string, sourceType: string,
      sourceKey: string)

  datatype RuleRecord = RuleRecord(logicalTableName: string, ruleName: string, ruleType: string, expression: RuleExpr)

  /** A route of the bundle; `origin` is the configuration row it was expanded from. */
  datatype RouteRecord = RouteRecord(
    logicalTableName: string, routeValue: string, physicalTableName: string, datasourceCode: string,
    origin: TableConfigRow)

  datatype SyncBundle = SyncBundle(
    datasources: seq<DatasourceRecord>,
    logicalTables: seq<LogicalTableRecord>,
    factors: seq<FactorRecord>,
    rules: seq<RuleRecord>,
    routes: seq<RouteRecord>,
    skippedRows: nat)

  const UNKNOWN_SOURCE := "unknown_source"

  // ------------------------------------------------------------ rows and groups

  function Normalize(row: TableConfigRow): TableConfigRow {
    row.(sourceName := Strip(row.sourceName), catlogName := Strip(row.catlogName), tableName := Strip(row.tableName))
  }

  predicate Blank(row: TableConfigRow) {
    Strip(row.tableName) == ""
  }

  /** The rows that are not skipped, normalized, in order. */
  function Kept(rows: seq<TableConfigRow>): seq<TableConfigRow> {
    if rows == [] then []
    else
      var last := rows[|rows| - 1];
      Kept(rows[..|rows| - 1]) + if Blank(last) then [] else [Normalize(last)]
  }

  function GroupKey(hash: Hasher, row: TableConfigRow): string {
    MakeLogicalTableName(hash, row.catlogName, row.tableName)
  }

  /** The group keys in order of first appearance. */
  function GroupKeys(hash: Hasher, kept: seq<TableConfigRow>): seq<string> {
    if kept == [] then []
    else
      var keys, key := GroupKeys(hash, kept[..|kept| - 1]), GroupKey(hash, kept[|kept| - 1]);
      if key in keys then keys else keys + [key]
  }

  function GroupRows(hash: Hasher, kept: seq<TableConfigRow>, key: string): seq<TableConfigRow> {
    if kept == [] then []
    else
      GroupRows(hash, kept[..|kept| - 1], key)
      + if GroupKey(hash, kept[|kept| - 1]) == key then [kept[|kept| - 1]] else []
  }

  function SortedKeys(hash: Hasher, kept: seq<TableConfigRow>): seq<string> {
    SortBy((a: string, b: string) => TextLeq(a, b), GroupKeys(hash, kept))
  }

  function NewDatasource(hash: Hasher, row: TableConfigRow, connection: Connection): DatasourceRecord {
    DatasourceRecord(
      MakeDatasourceCode(hash, row.sourceName),
      if row.sourceName == "" then UNKNOWN_SOURCE else row.sourceName,
      row.sourceName,
      connection)
  }

  predicate HasCode(ds: seq<DatasourceRecord>, code: string) {
    exists i :: 0 <= i < |ds| && ds[i].code == code
  }

  /** `datasource_map.setdefault`: the first row of a code decides its record. */
  function SetDefault(ds: seq<DatasourceRecord>, d: DatasourceRecord): seq<DatasourceRecord> {
    if HasCode(ds, d.code) then ds else ds + [d]
  }

  function Datasources(hash: Hasher, kept: seq<TableConfigRow>, connection: Connection): seq<DatasourceRecord> {
    if kept == [] then []
    else SetDefault(Datasources(hash, kept[..|kept| - 1], connection),
        NewDatasource(hash, kept[|kept| - 1], connection))
  }

  // ------------------------------------------------------------ segments

  /** The deduplication key; the table name is not part of it. */
  datatype Segment = Segment(sourceName: string, beginIndex: int, endIndex: int, shardCount: int)

  function SegmentOf(row: TableConfigRow): Segment {
    Segment(row.sourceName, row.beginIndex, row.endIndex, row.shardCount)
  }

  /** Storing under an existing key keeps its position and replaces its row, as a dict does. */
  function Put(entries: seq<TableConfigRow>, row: TableConfigRow): seq<TableConfigRow> {
    if entries == [] then [row]
    else if SegmentOf(entries[0]) == SegmentOf(row) then [row] + entries[1..]
    else [entries[0]] + Put(entries[1..], row)
  }

  function Dedupe(rows: seq<TableConfigRow>): seq<TableConfigRow> {
    if rows == [] then [] else Put(Dedupe(rows[..|rows| - 1]), rows[|rows| - 1])
  }

  // ------------------------------------------------------------ the routing style of a group

  datatype Style = Business(modulus: int) | Suffix | BySource | Single

  predicate IsSharded(rows: seq<TableConfigRow>) {
    exists i :: 0 <= i < |rows| && rows[i].shardCount > 0
  }

  function SourceOrUnknown(row: TableConfigRow): string {
    if row.sourceName == "" then UNKNOWN_SOURCE else row.sourceName
  }

  function DistinctSources(rows: seq<TableConfigRow>): set<string> {
    set row | row in rows :: SourceOrUnknown(row)
  }

  function Modulus(rows: seq<TableConfigRow>): int {
    if rows == [] then 0
    else if |rows| == 1 then rows[0].shardCount
    else
      var rest := Modulus(rows[1..]);
      if rows[0].shardCount > rest then rows[0].shardCount else rest
  }

  /** `set(range(lo, hi))`. */
  function IndexRange(lo: int, hi: int): (r: set<int>)
    ensures forall k :: k in r <==> lo <= k < hi
    decreases hi - lo
  {
    if hi <= lo then {} else IndexRange(lo, hi - 1) + {hi - 1}
  }

  /** The suffixes covered by segments with a positive shard count. */
  function ShardSuffixes(rows: seq<TableConfigRow>): set<int> {
    if rows == [] then {}
    else
      (if rows[0].shardCount > 0 then IndexRange(rows[0].beginIndex, rows[0].endIndex + 1) else {})
      + ShardSuffixes(rows[1..])
  }

  function StyleOf(rows: seq<TableConfigRow>): Style {
    if IsSharded(rows) then
      if Modulus(rows) > 0 && ShardSuffixes(rows) == IndexRange(0, Modulus(rows)) then Business(Modulus(rows))
          else Suffix
    else if |DistinctSources(rows)| > 1 then BySource
    else Single
  }

  predicate Sharded(style: Style) {
    style.Business? || style.Suffix?
  }

  function TableRecord(key: string, style: Style, group: seq<TableConfigRow>,
                       deduped: seq<TableConfigRow>): LogicalTableRecord
    requires group != []
  {
    LogicalTableRecord(
      key,
      match style {
        case Business(_) => "sql_and_route_context"
        case Suffix => "route_context_or_sql"
        case BySource => "route_context_or_sql"
        case Single => "sql_or_physical_table"
      },
      group[0].tableName + if Sharded(style) then "_{route_suffix}" else "",
      group[0].catlogName, group[0].tableName, |group|, |deduped|,
      match style case Business(m) => Some(m) case _ => None)
  }

  function FactorRecords(key: string, style: Style): seq<FactorRecord> {
    match style
    case Business(_) => [FactorRecord(key, "shard_value", "sql_predicate_from_context", "shard_column")]
    case Suffix => [FactorRecord(key, "route_suffix", "route_context", "route_suffix")]
    case BySource => [FactorRecord(key, "source_name", "route_context", "source_name")]
    case Single => []
  }

  function RuleFor(key: string, style: Style): RuleRecord {
    match style
    case Business(m) => RuleRecord(key, "imported_business_shard_mod", "mod",
        ToStr(Mod(ToInt(Var("shard_value")), Num(m))))
    case Suffix => RuleRecord(key, "imported_route_suffix_passthrough", "route_context_passthrough",
        ToStr(ToInt(Var("route_suffix"))))
    case BySource => RuleRecord(key, "imported_source_name_passthrough", "route_context_passthrough",
        ToStr(Var("source_name")))
    case Single => RuleRecord(key, "imported_constant_single_table", "constant", Literal("0"))
  }

  // ------------------------------------------------------------ routes

  /** What one row claims for one route value. */
  datatype Claim = Claim(routeValue: string, physicalTableName: string, datasourceCode: string, origin: TableConfigRow)

  function ShardClaim(hash: Hasher, row: TableConfigRow, suffix: int): Claim {
    Claim(IntToString(suffix), row.tableName + "_" + IntToString(suffix), MakeDatasourceCode(hash, row.sourceName), row)
  }

  /** The claims for suffixes `lo` up to but not including `hi`. */
  function ShardClaims(hash: Hasher, row: TableConfigRow, lo: int, hi: int): seq<Claim>
    decreases hi - lo
  {
    if hi <= lo then [] else ShardClaims(hash, row, lo, hi - 1) + [ShardClaim(hash, row, hi - 1)]
  }

  function RowClaims(hash: Hasher, style: Style, row: TableConfigRow): seq<Claim> {
    match style
    case BySource => [Claim(SourceOrUnknown(row), row.tableName, MakeDatasourceCode(hash, row.sourceName), row)]
    case Single => [Claim("0", row.tableName, MakeDatasourceCode(hash, row.sourceName), row)]
    case _ => ShardClaims(hash, row, row.beginIndex, row.endIndex + 1)
  }

  function AllClaims(hash: Hasher, style: Style, rows: seq<TableConfigRow>): seq<Claim> {
    if rows == [] then [] else AllClaims(hash, style, rows[..|rows| - 1]) + RowClaims(hash, style, rows[|rows| - 1])
  }

  predicate RowLeq(a: TableConfigRow, b: TableConfigRow) {
    || a.beginIndex < b.beginIndex
    || (a.beginIndex == b.beginIndex
        && (a.endIndex < b.endIndex || (a.endIndex == b.endIndex && TextLeq(a.sourceName, b.sourceName))))
  }

  function SortRows(rows: seq<TableConfigRow>): seq<TableConfigRow> {
    SortBy((a: TableConfigRow, b: TableConfigRow) => RowLeq(a, b), rows)
  }

  /** `seen_route_values` and the routes appended so far. */
  datatype Emission = Emission(seen: map<string, (string, string)>, routes: seq<RouteRecord>)

  function Record(key: string, c: Claim): RouteRecord {
    RouteRecord(key, c.routeValue, c.physicalTableName, c.datasourceCode, c.origin)
  }

  /** One claim: a conflict raises; a repeated shard value is passed over; anything else is appended. */
  function EmitClaim(key: string, skipSeen: bool, st: Emission, c: Claim): Result<Emission> {
    var target := (c.physicalTableName, c.datasourceCode);
    if c.routeValue in st.seen && st.seen[c.routeValue] != target then Raise(ValueError)
    else if skipSeen && c.routeValue in st.seen then Ok(st)
    else Ok(Emission(st.seen[c.routeValue := target], st.routes + [Record(key, c)]))
  }

  function EmitClaims(key: string, skipSeen: bool, claims: seq<Claim>): Result<Emission> {
    if claims == [] then Ok(Emission(map[], []))
    else
      match EmitClaims(key, skipSeen, claims[..|claims| - 1])
      case Raise(error) => Raise(error)
      case Ok(st) => EmitClaim(key, skipSeen, st, claims[|claims| - 1])
  }

  /** The deduplicated rows of a group. */
  function GroupSegments(hash: Hasher, kept: seq<TableConfigRow>, key: string): seq<TableConfigRow> {
    Dedupe(GroupRows(hash, kept, key))
  }

  function GroupStyle(hash: Hasher, kept: seq<TableConfigRow>, key: string): Style {
    StyleOf(GroupSegments(hash, kept, key))
  }

  function GroupRoutes(hash: Hasher, kept: seq<TableConfigRow>, key: string): Result<seq<RouteRecord>> {
    var segments := GroupSegments(hash, kept, key);
    var style := StyleOf(segments);
    match EmitClaims(key, Sharded(style), AllClaims(hash, style, SortRows(segments)))
    case Raise(error) => Raise(error)
    case Ok(st) => Ok(st.routes)
  }

  // ------------------------------------------------------------ the bundle

  datatype Parts = Parts(
    logicalTables: seq<LogicalTableRecord>, factors: seq<FactorRecord>, rules: seq<RuleRecord>,
    routes: seq<RouteRecord>)

  /** The group loop, after the groups `keys`. */
  function BuildGroups(hash: Hasher, kept: seq<TableConfigRow>, keys: seq<string>): Result<Parts>
    requires forall key :: key in keys ==> GroupRows(hash, kept, key) != []
  {
    if keys == [] then Ok(Parts([], [], [], []))
    else
      var key := keys[|keys| - 1];
      match BuildGroups(hash, kept, keys[..|keys| - 1])
      case Raise(error) => Raise(error)
      case Ok(p) =>
        match GroupRoutes(hash, kept, key)
        case Raise(error) => Raise(error)
        case Ok(routes) =>
          var style := GroupStyle(hash, kept, key);
          Ok(Parts(
            p.logicalTables + [TableRecord(key, style, GroupRows(hash, kept, key), GroupSegments(hash, kept, key))],
            p.factors + FactorRecords(key, style),
            p.rules + [RuleFor(key, style)],
            p.routes + routes))
  }

  lemma {:induction false} KeyHasRows(hash: Hasher, kept: seq<TableConfigRow>, key: string)
    ensures key in GroupKeys(hash, kept) <==> GroupRows(hash, kept, key) != []
  {
    hide GroupKey;
    if kept != [] {
      KeyHasRows(hash, kept[..|kept| - 1], key);
    }
  }

  lemma SortedKeysHaveRows(hash: Hasher, kept: seq<TableConfigRow>)
    ensures forall key :: key in SortedKeys(hash, kept) ==> GroupRows(hash, kept, key) != []
    ensures forall key :: key in SortedKeys(hash, kept) <==> key in GroupKeys(hash, kept)
  {
    SortBySame((a: string, b: string) => TextLeq(a, b), GroupKeys(hash, kept));
    forall key | key in SortedKeys(hash, kept)
      ensures GroupRows(hash, kept, key) != []
    {
      KeyHasRows(hash, kept, key);
    }
  }

  function SortDatasources(ds: seq<DatasourceRecord>): seq<DatasourceRecord> {
    SortBy((a: DatasourceRecord, b: DatasourceRecord) => TextLeq(a.code, b.code), ds)
  }

  function BuildSpec(hash: Hasher, rows: seq<TableConfigRow>, connection: Connection): Result<SyncBundle> {
    var kept := Kept(rows);
    SortedKeysHaveRows(hash, kept);
    match BuildGroups(hash, kept, SortedKeys(hash, kept))
    case Raise(error) => Raise(error)
    case Ok(p) =>
      Ok(SyncBundle(
        SortDatasources(Datasources(hash, kept, connection)),
        p.logicalTables, p.factors, p.rules, p.routes,
        CountBlank(rows)))
  }

  function CountBlank(rows: seq<TableConfigRow>): nat {
    if rows == [] then 0 else CountBlank(rows[..|rows| - 1]) + if Blank(rows[|rows| - 1]) then 1 else 0
  }

  // ------------------------------------------------------------ the importer itself

  /** The datasources, keys and groups gathered from the rows kept so far. */
  ghost predicate Collected(hash: Hasher, kept: seq<TableConfigRow>, connection: Connection,
                            datasources: seq<DatasourceRecord>, groups: map<string, seq<TableConfigRow>>,
                            keys: seq<string>)
  {
    && datasources == Datasources(hash, kept, connection)
    && keys == GroupKeys(hash, kept)
    && (forall key :: key in groups <==> key in keys)
    && (forall key :: key in groups ==> groups[key] == GroupRows(hash, kept, key))
  }

  lemma KeptNext(rows: seq<TableConfigRow>, i: nat)
    requires i < |rows|
    ensures Kept(rows[..i + 1]) == if Blank(rows[i]) then Kept(rows[..i]) else Kept(rows[..i]) + [Normalize(rows[i])]
    ensures CountBlank(rows[..i + 1]) == CountBlank(rows[..i]) + if Blank(rows[i]) then 1 else 0
  {
    hide Blank, Normalize;
    assert rows[..i + 1][..i] == rows[..i];
    assert Kept(rows[..i]) + [] == Kept(rows[..i]);
  }

  lemma SnocRow(hash: Hasher, kept: seq<TableConfigRow>, row: TableConfigRow, connection: Connection)
    ensures Datasources(hash, kept + [row], connection) ==
          SetDefault(Datasources(hash, kept, connection), NewDatasource(hash, row, connection))
    ensures GroupKeys(hash, kept + [row])
         == if GroupKey(hash, row) in GroupKeys(hash, kept) then GroupKeys(hash, kept)
             else GroupKeys(hash, kept) + [GroupKey(hash, row)]
  {
    hide GroupKey, NewDatasource, SetDefault;
    assert (kept + [row])[..|kept|] == kept;
  }

  lemma SnocGroup(hash: Hasher, kept: seq<TableConfigRow>, row: TableConfigRow, key: string)
    ensures GroupRows(hash, kept + [row], key)
         == if GroupKey(hash, row) == key then GroupRows(hash, kept, key) + [row] else GroupRows(hash, kept, key)
  {
    hide GroupKey;
    assert (kept + [row])[..|kept|] == kept;
    assert GroupRows(hash, kept, key) + [] == GroupRows(hash, kept, key);
  }

  lemma CollectRow(hash: Hasher, kept: seq<TableConfigRow>, connection: Connection, datasources: seq<DatasourceRecord>,
                   groups: map<string, seq<TableConfigRow>>, keys: seq<string>, row: TableConfigRow)
    requires Collected(hash, kept, connection, datasources, groups, keys)
    ensures var key := GroupKey(hash, row);
            Collected(hash, kept + [row], connection,
                      SetDefault(datasources, NewDatasource(hash, row, connection)),
                      groups[key := (if key in groups then groups[key] else []) + [row]],
                      if key in groups then keys else keys + [key])
  {
    hide GroupKey, NewDatasource, SetDefault, Datasources, GroupKeys, GroupRows;
    var key := GroupKey(hash, row);
    SnocRow(hash, kept, row, connection);
    KeyHasRows(hash, kept, key);
    forall other | other in groups || other == key
      ensures GroupRows(hash, kept + [row], other)
           == (if other in groups then groups[other] else []) + if other == key then [row] else []
    {
      SnocGroup(hash, kept, row, other);
      assert other in groups ==> groups[other] + [] == groups[other];
    }
  }

  lemma NothingCollected(hash: Hasher, rows: seq<TableConfigRow>, connection: Connection)
    ensures Collected(hash, Kept(rows[..0]), connection, [], map[], [])
    ensures CountBlank(rows[..0]) == 0
  {
  }

  /** The first loop of `build_sync_bundle`: skip, collect datasources, group. */
  method CollectGroups(hash: Hasher, rows: seq<TableConfigRow>, connection: Connection)
    returns (datasources: seq<DatasourceRecord>, groups: map<string, seq<TableConfigRow>>, keys: seq<string>,
        skipped: nat)
    ensures Collected(hash, Kept(rows), connection, datasources, groups, keys)
    ensures skipped == CountBlank(rows)
  {
    hide GroupKey, NewDatasource, SetDefault, Normalize, Blank, Collected, Kept, CountBlank;
    datasources, groups, keys, skipped := [], map[], [], 0;
    NothingCollected(hash, rows, connection);
    var i := 0;
    while i < |rows|
      invariant i <= |rows|
      invariant Collected(hash, Kept(rows[..i]), connection, datasources, groups, keys)
      invariant skipped == CountBlank(rows[..i])
    {
      KeptNext(rows, i);
      if Blank(rows[i]) {
        skipped := skipped + 1;
      } else {
        var row := Normalize(rows[i]);
        var key := GroupKey(hash, row);
        CollectRow(hash, Kept(rows[..i]), connection, datasources, groups, keys, row);
        datasources := SetDefault(datasources, NewDatasource(hash, row, connection));
        var earlier := if key in groups then groups[key] else [];
        keys := if key in groups then keys else keys + [key];
        groups := groups[key := earlier + [row]];
      }
      i := i + 1;
    }
    assert rows[..i] == rows;
  }

  lemma {:induction false} EmitRaises(key: string, skipSeen: bool, claims: seq<Claim>, more: seq<Claim>)
    requires EmitClaims(key, skipSeen, claims).Raise?
    ensures EmitClaims(key, skipSeen, claims + more) == Raise(ValueError)
    decreases |claims| + |more|
  {
    hide EmitClaim;
    var all := claims + more;
    if more == [] {
      assert all == claims;
      EmitError(key, skipSeen, claims);
    } else {
      assert all[..|all| - 1] == claims + more[..|more| - 1];
      EmitRaises(key, skipSeen, claims, more[..|more| - 1]);
    }
  }

  lemma {:induction false} EmitError(key: string, skipSeen: bool, claims: seq<Claim>)
    ensures var r := EmitClaims(key, skipSeen, claims);
            r.Raise? ==> r.error == ValueError
  {
    if claims != [] {
      EmitError(key, skipSeen, claims[..|claims| - 1]);
    }
  }

  lemma EmitOne(key: string, skipSeen: bool, claims: seq<Claim>, c: Claim)
    requires EmitClaims(key, skipSeen, claims).Ok?
    ensures EmitClaims(key, skipSeen, claims + [c]) ==
          EmitClaim(key, skipSeen, EmitClaims(key, skipSeen, claims).value, c)
  {
    hide EmitClaim;
    assert (claims + [c])[..|claims|] == claims;
  }

  lemma ClaimsSplit(hash: Hasher, style: Style, rows: seq<TableConfigRow>, i: nat)
    requires i < |rows|
    ensures AllClaims(hash, style, rows[..i + 1]) == AllClaims(hash, style, rows[..i]) + RowClaims(hash, style, rows[i])
  {
    hide RowClaims;
    assert rows[..i + 1][..i] == rows[..i];
  }

  lemma {:induction false} ClaimsPrefix(hash: Hasher, style: Style, rows: seq<TableConfigRow>, i: nat)
    requires i <= |rows|
    ensures AllClaims(hash, style, rows[..i]) <= AllClaims(hash, style, rows)
    decreases |rows| - i
  {
    hide RowClaims, AllClaims;
    if i < |rows| {
      ClaimsSplit(hash, style, rows, i);
      ClaimsPrefix(hash, style, rows, i + 1);
    } else {
      assert rows[..i] == rows;
    }
  }

  lemma {:induction false} ShardClaimsPrefix(hash: Hasher, row: TableConfigRow, lo: int, mid: int, hi: int)
    requires mid <= hi
    ensures ShardClaims(hash, row, lo, mid) <= ShardClaims(hash, row, lo, hi)
    decreases hi - mid
  {
    hide ShardClaim;
    if mid < hi {
      ShardClaimsPrefix(hash, row, lo, mid, hi - 1);
    }
  }

  /** A conflict among the claims processed so far makes the whole group raise. */
  lemma PrefixRaises(key: string, skipSeen: bool, part: seq<Claim>, all: seq<Claim>)
    requires part <= all && EmitClaims(key, skipSeen, part).Raise?
    ensures EmitClaims(key, skipSeen, all) == Raise(ValueError)
  {
    hide EmitClaims;
    EmitRaises(key, skipSeen, part, all[|part|..]);
    assert part + all[|part|..] == all;
  }

  lemma EmitNextShard(hash: Hasher, key: string, row: TableConfigRow, done: seq<Claim>, suffix: int)
    requires row.beginIndex <= suffix
    requires EmitClaims(key, true, done + ShardClaims(hash, row, row.beginIndex, suffix)).Ok?
    ensures EmitClaims(key, true, done + ShardClaims(hash, row, row.beginIndex, suffix + 1))
         == EmitClaim(key, true, EmitClaims(key, true, done + ShardClaims(hash, row, row.beginIndex, suffix)).value,
                      ShardClaim(hash, row, suffix))
  {
    hide EmitClaims, EmitClaim, ShardClaim;
    var sofar := ShardClaims(hash, row, row.beginIndex, suffix);
    ShardClaimsNext(hash, row, row.beginIndex, suffix);
    assert (done + sofar) + [ShardClaim(hash, row, suffix)] == done + (sofar + [ShardClaim(hash, row, suffix)]);
    EmitOne(key, true, done + sofar, ShardClaim(hash, row, suffix));
  }

  /** The suffix loop of one sharded row, after the claims `done`. */
  method ExpandRow(hash: Hasher, key: string, row: TableConfigRow, ghost done: seq<Claim>,
                   start: Emission) returns (r: Result<Emission>)
    requires EmitClaims(key, true, done) == Ok(start)
    ensures r == EmitClaims(key, true, done + ShardClaims(hash, row, row.beginIndex, row.endIndex + 1))
  {
    hide EmitClaims, ShardClaims, IntToString, MakeDatasourceCode;
    var seen, routes := start.seen, start.routes;
    var code := MakeDatasourceCode(hash, row.sourceName);
    var suffix := row.beginIndex;
    NoShardClaims(hash, row, done);
    while suffix <= row.endIndex
      invariant row.beginIndex <= suffix
      invariant suffix <= row.endIndex + 1 || suffix == row.beginIndex
      invariant EmitClaims(key, true, done + ShardClaims(hash, row, row.beginIndex, suffix)) ==
          Ok(Emission(seen, routes))
      decreases row.endIndex + 1 - suffix
    {
      var value := IntToString(suffix);
      var physicalName := row.tableName + "_" + value;
      EmitNextShard(hash, key, row, done, suffix);
      if value in seen && seen[value] != (physicalName, code) {
        var part, all := ShardClaims(hash, row, row.beginIndex, suffix + 1),
            ShardClaims(hash, row, row.beginIndex, row.endIndex + 1);
        ShardClaimsPrefix(hash, row, row.beginIndex, suffix + 1, row.endIndex + 1);
        PrefixRaises(key, true, done + part, done + all);
        return Raise(ValueError);
      }
      if value !in seen {
        seen := seen[value := (physicalName, code)];
        routes := routes + [RouteRecord(key, value, physicalName, code, row)];
      }
      suffix := suffix + 1;
    }
    ShardClaimsEmpty(hash, row, row.beginIndex, suffix, row.endIndex + 1);
    r := Ok(Emission(seen, routes));
  }

  lemma NoShardClaims(hash: Hasher, row: TableConfigRow, done: seq<Claim>)
    ensures done + ShardClaims(hash, row, row.beginIndex, row.beginIndex) == done
  {
  }

  /** The route loop of one group: unsharded rows claim one value each, sharded rows one per suffix. */
  method ExpandSegments(hash: Hasher, key: string, style: Style,
                        segments: seq<TableConfigRow>) returns (r: Result<Emission>)
    ensures r == EmitClaims(key, Sharded(style), AllClaims(hash, style, SortRows(segments)))
  {
    hide SortRows, EmitClaims, AllClaims, ShardClaims;
    var rows := SortRows(segments);
    var st := Emission(map[], []);
    EmitStart(hash, key, style);
    var i := 0;
    while i < |rows|
      invariant i <= |rows|
      invariant EmitClaims(key, Sharded(style), AllClaims(hash, style, rows[..i])) == Ok(st)
    {
      var row := rows[i];
      ghost var done := AllClaims(hash, style, rows[..i]);
      ClaimsSplit(hash, style, rows, i);
      ClaimsPrefix(hash, style, rows, i + 1);
      if Sharded(style) {
        var next := ExpandRow(hash, key, row, done, st);
        if next.Raise? {
          PrefixRaises(key, true, AllClaims(hash, style, rows[..i + 1]), AllClaims(hash, style, rows));
          return Raise(ValueError);
        }
        st := next.value;
      } else {
        var value := if style.BySource? then SourceOrUnknown(row) else "0";
        var target := (row.tableName, MakeDatasourceCode(hash, row.sourceName));
        var claim := Claim(value, target.0, target.1, row);
        EmitOne(key, false, done, claim);
        if value in st.seen && st.seen[value] != target {
          PrefixRaises(key, false, AllClaims(hash, style, rows[..i + 1]), AllClaims(hash, style, rows));
          return Raise(ValueError);
        }
        st := Emission(st.seen[value := target], st.routes + [Record(key, claim)]);
      }
      i := i + 1;
    }
    assert rows[..i] == rows;
    r := Ok(st);
  }

  lemma EmitStart(hash: Hasher, key: string, style: Style)
    ensures EmitClaims(key, Sharded(style), AllClaims(hash, style, [])) == Ok(Emission(map[], []))
  {
  }

  lemma ShardClaimsNext(hash: Hasher, row: TableConfigRow, lo: int, hi: int)
    requires lo <= hi
    ensures ShardClaims(hash, row, lo, hi + 1) == ShardClaims(hash, row, lo, hi) + [ShardClaim(hash, row, hi)]
  {
  }

  lemma ShardClaimsEmpty(hash: Hasher, row: TableConfigRow, lo: int, a: int, b: int)
    requires a == b || (a <= lo && b <= lo)
    ensures ShardClaims(hash, row, lo, a) == ShardClaims(hash, row, lo, b)
  {
  }

  /** `build_sync_bundle`. */
  method BuildSyncBundle(hash: Hasher, rows: seq<TableConfigRow>,
                         connection: Connection) returns (r: Result<SyncBundle>)
    ensures r == BuildSpec(hash, rows, connection)
  {
    hide AllClaims, EmitClaims, StyleOf, FactorRecords, RuleFor, TableRecord, Datasources, SortDatasources, CountBlank,
         Kept;
    var datasources, groups, keys, skipped := CollectGroups(hash, rows, connection);
    ghost var kept := Kept(rows);
    SortedKeysHaveRows(hash, kept);
    var sorted := SortBy((a: string, b: string) => TextLeq(a, b), keys);
    var logicalTables: seq<LogicalTableRecord> := [];
    var factors: seq<FactorRecord> := [];
    var rules: seq<RuleRecord> := [];
    var routes: seq<RouteRecord> := [];
    assert sorted == SortedKeys(hash, kept);
    var i := 0;
    while i < |sorted|
      invariant i <= |sorted|
      invariant BuildGroups(hash, kept, sorted[..i]) == Ok(Parts(logicalTables, factors, rules, routes))
    {
      hide AllClaims, EmitClaims, Dedupe, GroupRows, StyleOf, SortRows, FactorRecords, RuleFor, TableRecord, SortedKeys;
      var key := sorted[i];
      BuildStep(hash, kept, sorted, i, Parts(logicalTables, factors, rules, routes));
      hide BuildGroups;
      var group := groups[key];
      var segments := Dedupe(group);
      var style := StyleOf(segments);
      var expanded := ExpandSegments(hash, key, style, segments);
      assert GroupSegments(hash, kept, key) == segments;
      if expanded.Raise? {
        BuildRaises(hash, kept, sorted, i + 1);
        return Raise(expanded.error);
      }
      logicalTables := logicalTables + [TableRecord(key, style, group, segments)];
      factors := factors + FactorRecords(key, style);
      rules := rules + [RuleFor(key, style)];
      routes := routes + expanded.value.routes;
      i := i + 1;
    }
    assert sorted[..i] == sorted;
    r := Ok(SyncBundle(SortDatasources(datasources), logicalTables, factors, rules, routes, skipped));
  }

  /** One more group. */
  lemma BuildStep(hash: Hasher, kept: seq<TableConfigRow>, keys: seq<string>, i: nat, p: Parts)
    requires forall key :: key in keys ==> GroupRows(hash, kept, key) != []
    requires i < |keys| && BuildGroups(hash, kept, keys[..i]) == Ok(p)
    ensures var key := keys[i];
            var style := GroupStyle(hash, kept, key);
            BuildGroups(hash, kept, keys[..i + 1]) ==
            match GroupRoutes(hash, kept, key)
            case Raise(error) => Raise(error)
            case Ok(routes) =>
              Ok(Parts(
                p.logicalTables + [TableRecord(key, style, GroupRows(hash, kept, key), GroupSegments(hash, kept, key))],
                p.factors + FactorRecords(key, style),
                p.rules + [RuleFor(key, style)],
                p.routes + routes))
  {
    hide GroupRoutes, GroupStyle, TableRecord, FactorRecords, RuleFor, GroupRows, GroupSegments;
    assert keys[..i + 1][..i] == keys[..i];
  }

  lemma {:induction false} BuildRaises(hash: Hasher, kept: seq<TableConfigRow>, keys: seq<string>, i: nat)
    requires forall key :: key in keys ==> GroupRows(hash, kept, key) != []
    requires i <= |keys| && BuildGroups(hash, kept, keys[..i]).Raise?
    ensures BuildGroups(hash, kept, keys) == BuildGroups(hash, kept, keys[..i])
    decreases |keys| - i
  {
    hide GroupRoutes, GroupStyle, TableRecord, FactorRecords, RuleFor, GroupRows, GroupSegments;
    if i < |keys| {
      assert keys[..i + 1][..i] == keys[..i];
      BuildRaises(hash, kept, keys, i + 1);
    } else {
      assert keys[..i] == keys;
    }
  }
}
