/**
 Routing over imported metadata: after a committed import, a request reaches exactly what the
 configuration rows declare.
 */
module ImportRouting {
  import opened Wrappers
  import opened Text
  import opened Sequences
  import opened Identifiers
  import opened SqlParser
  import opened SqlRewrite
  import opened Metadata
  import opened Routing
  import opened RoutingProofs
  import opened Importer
  import opened ImporterProofs
  import opened ImportOrder
  import opened Reimport
  import opened ReimportProofs
  import opened ReimportMerge
  import opened ReimportTwice
  import opened BundleReady

  // ------------------------------------------------------------ the imported rows of one table

  /** The position of a table of the bundle. */
  ghost predicate TableAt(b: SyncBundle, i: nat, table: LogicalTableRecord) {
    i < |b.logicalTables| && b.logicalTables[i] == table && TableIndex(b.logicalTables, table.tableName) == i
  }

  lemma TablePosition(b: SyncBundle, table: LogicalTableRecord)
    requires table in b.logicalTables
    requires forall i, j :: 0 <= i < j < |b.logicalTables| ==>
          b.logicalTables[i].tableName != b.logicalTables[j].tableName
    ensures TableAt(b, TableIndex(b.logicalTables, table.tableName), table)
  {
    var k :| 0 <= k < |b.logicalTables| && b.logicalTables[k] == table;
  }

  function TableIdOf(n: int, b: SyncBundle, i: nat): int {
    n + |b.datasources| + i
  }

  /** The name lookup finds the imported table. */
  lemma ImportedTableFound(f: Store, n: int, b: SyncBundle, i: nat, table: LogicalTableRecord)
    requires LogicalTableKeys(Merge(f, n, b).logicalTables) && TableAt(b, i, table)
    ensures EnabledLogicalTable(Merge(f, n, b), table.tableName) == Ok(Some(NewTableRow(TableIdOf(n, b, i), table)))
  {
    hide Filter, FactorRows, RuleRows, RouteRows, DatasourceRows, TableIndex, TableRows;
    var db := Merge(f, n, b);
    var k := |f.logicalTables| + i;
    assert db.logicalTables[k] == NewTableRow(TableIdOf(n, b, i), table);
    FilterOne((t: LogicalTable) => t.tableName == table.tableName && t.enabled, db.logicalTables, k);
  }

  /** The bundle has one factor for the table, at position `j`. */
  ghost predicate FactorAt(b: SyncBundle, j: nat, name: string) {
    && j < |b.factors|
    && b.factors[j].logicalTableName == name
    && (forall k :: 0 <= k < |b.factors| && b.factors[k].logicalTableName == name ==> k == j)
  }

  ghost predicate RuleAt(b: SyncBundle, j: nat, name: string) {
    && j < |b.rules|
    && b.rules[j].logicalTableName == name
    && (forall k :: 0 <= k < |b.rules| && b.rules[k].logicalTableName == name ==> k == j)
  }

  /** The table's only required factor is the imported one. */
  lemma ImportedFactor(f: Store, n: int, b: SyncBundle, i: nat, table: LogicalTableRecord, j: nat)
    requires Settled(f, n) && FactorsReady(b.logicalTables, b.factors)
    requires TableAt(b, i, table) && FactorAt(b, j, table.tableName)
    ensures RequiredFactors(Merge(f, n, b), TableIdOf(n, b, i))
         == [NewFactorRow(TableIdOf(n, b, |b.logicalTables| + j), TableIdOf(n, b, i), b.factors[j])]
  {
    hide Filter, RuleRows, RouteRows, DatasourceRows, TableRows, FactorRows, TableIndex, NothingImported, RulesBefore,
         RoutesBefore;
    var db, id := Merge(f, n, b), TableIdOf(n, b, i);
    var k := |f.factors| + j;
    forall x | 0 <= x < |db.factors| && db.factors[x].logicalTableId == id
      ensures x == k
    {
      assert x >= |f.factors|;
      var y := x - |f.factors|;
      assert KnownTable(b.logicalTables, b.factors[y].logicalTableName);
      SameIndexSameName(b.logicalTables, b.factors[y].logicalTableName, table.tableName);
    }
    FilterOne((r: RouteFactor) => r.logicalTableId == id && r.enabled && r.required, db.factors, k);
  }

  /** A table the bundle gives no factor has none. */
  lemma NoImportedFactor(f: Store, n: int, b: SyncBundle, i: nat, table: LogicalTableRecord)
    requires Settled(f, n) && FactorsReady(b.logicalTables, b.factors) && TableAt(b, i, table)
    requires forall k :: 0 <= k < |b.factors| ==> b.factors[k].logicalTableName != table.tableName
    ensures RequiredFactors(Merge(f, n, b), TableIdOf(n, b, i)) == []
  {
    hide Filter, RuleRows, RouteRows, DatasourceRows, TableRows, FactorRows, TableIndex, NothingImported, RulesBefore,
         RoutesBefore;
    var db, id := Merge(f, n, b), TableIdOf(n, b, i);
    forall x | 0 <= x < |db.factors|
      ensures db.factors[x].logicalTableId != id
    {
      if x >= |f.factors| {
        var y := x - |f.factors|;
        assert KnownTable(b.logicalTables, b.factors[y].logicalTableName);
        SameIndexSameName(b.logicalTables, b.factors[y].logicalTableName, table.tableName);
      }
    }
    FilterNone((r: RouteFactor) => r.logicalTableId == id && r.enabled && r.required, db.factors);
  }

  /** The table's only rule is the imported one. */
  lemma ImportedRule(f: Store, n: int, b: SyncBundle, i: nat, table: LogicalTableRecord, j: nat)
    requires Settled(f, n) && RulesReady(b.logicalTables, b.rules)
    requires TableAt(b, i, table) && RuleAt(b, j, table.tableName)
    ensures EnabledRule(Merge(f, n, b), TableIdOf(n, b, i))
         == Ok(Some(NewRuleRow(TableIdOf(n, b, |b.logicalTables| + |b.factors| + j), TableIdOf(n, b, i), b.rules[j])))
  {
    hide Filter, FactorRows, RouteRows, DatasourceRows, TableRows, RuleRows, TableIndex, NothingImported,
         FactorsBefore, RoutesBefore;
    var db, id := Merge(f, n, b), TableIdOf(n, b, i);
    var k := |f.rules| + j;
    forall x | 0 <= x < |db.rules| && db.rules[x].logicalTableId == id
      ensures x == k
    {
      assert x >= |f.rules|;
      var y := x - |f.rules|;
      assert KnownTable(b.logicalTables, b.rules[y].logicalTableName);
      SameIndexSameName(b.logicalTables, b.rules[y].logicalTableName, table.tableName);
    }
    FilterOne((r: RouteRule) => r.logicalTableId == id && r.enabled, db.rules, k);
  }

  function RouteIdOf(n: int, b: SyncBundle, j: nat): int {
    TableIdOf(n, b, |b.logicalTables| + |b.factors| + |b.rules| + j)
  }

  function DatasourceIdOf(n: int, b: SyncBundle, code: string): int {
    n + DatasourceIndex(b.datasources, code)
  }

  /** The value lookup finds the imported route. */
  lemma ImportedRoute(f: Store, n: int, b: SyncBundle, i: nat, table: LogicalTableRecord, j: nat)
    requires RouteKeys(Merge(f, n, b).routes)
    requires TableAt(b, i, table) && j < |b.routes| && b.routes[j].logicalTableName == table.tableName
    ensures EnabledRouteByValue(Merge(f, n, b), TableIdOf(n, b, i), b.routes[j].routeValue)
         == Ok(Some(NewRouteRow(RouteIdOf(n, b, j), TableIdOf(n, b, i),
             DatasourceIdOf(n, b, b.routes[j].datasourceCode), b.routes[j])))
  {
    hide Filter, FactorRows, RuleRows, DatasourceRows, TableRows, RouteRows, TableIndex, DatasourceIndex;
    var db, id := Merge(f, n, b), TableIdOf(n, b, i);
    var k := |f.routes| + j;
    assert db.routes[k] ==
        NewRouteRow(RouteIdOf(n, b, j), id, DatasourceIdOf(n, b, b.routes[j].datasourceCode), b.routes[j]);
    var value := b.routes[j].routeValue;
    FilterOne((r: PhysicalRoute) => r.logicalTableId == id && r.routeValue == value && r.enabled, db.routes, k);
  }

  /** A value that the bundle gives the table no route for has none. */
  lemma NoImportedRoute(f: Store, n: int, b: SyncBundle, i: nat, table: LogicalTableRecord, value: string)
    requires Settled(f, n) && RoutesReady(b.logicalTables, b.datasources, b.routes) && TableAt(b, i, table)
    requires forall k :: 0 <= k < |b.routes| ==> !IsRouteFor(b.routes[k], table.tableName, value)
    ensures EnabledRouteByValue(Merge(f, n, b), TableIdOf(n, b, i), value) == Ok(None)
  {
    hide Filter, RuleRows, RouteRows, DatasourceRows, TableRows, FactorRows, TableIndex, NothingImported, RulesBefore,
         FactorsBefore, KnownDatasource, DatasourceIndex;
    var db, id := Merge(f, n, b), TableIdOf(n, b, i);
    forall x | 0 <= x < |db.routes|
      ensures db.routes[x].logicalTableId != id || db.routes[x].routeValue != value
    {
      if x >= |f.routes| {
        var y := x - |f.routes|;
        assert !IsRouteFor(b.routes[y], table.tableName, value);
        assert KnownTable(b.logicalTables, b.routes[y].logicalTableName);
        SameIndexSameName(b.logicalTables, b.routes[y].logicalTableName, table.tableName);
      }
    }
    FilterNone((r: PhysicalRoute) => r.logicalTableId == id && r.routeValue == value && r.enabled, db.routes);
  }

  /** An imported route's datasource is found, under its code. */
  lemma ImportedDatasource(f: Store, n: int, b: SyncBundle, code: string)
    requires DatasourceKeys(Merge(f, n, b).datasources) && KnownDatasource(b.datasources, code)
    ensures var db := Merge(f, n, b);
            && DatasourceCodeFromId(db, DatasourceIdOf(n, b, code)) == code
            && EnabledDatasource(db, code).Ok? && EnabledDatasource(db, code).value.Some?
            && EnabledDatasource(db, code).value.value.code == code
  {
    hide Filter, FactorRows, RuleRows, RouteRows, TableRows, DatasourceRows, DatasourceIndex, DatasourceById,
         EnabledDatasource;
    var db := Merge(f, n, b);
    var k := |f.datasources| + DatasourceIndex(b.datasources, code);
    var row := db.datasources[k];
    assert row == NewDatasourceRow(DatasourceIdOf(n, b, code), b.datasources[DatasourceIndex(b.datasources, code)]);
    assert row in db.datasources;
    DatasourceLookup(db, code);
    var found := DatasourceById(db.datasources, row.id);
    SameCodeSameDatasource(db.datasources, found.value, row);
  }

  // ------------------------------------------------------------ what a request gives a table

  /** The text under the request's shard column. */
  function ShardText(parsed: ParsedSql, ctx: RouteContext, t: ParsedTable): Option<string> {
    match ContextColumn(ctx, "shard_column")
    case None => None
    case Some(column) => PredicateFor(parsed.predicates, column, t)
  }

  /** The suffix of a request that names none: its shard value modulo the table's number of routes. */
  function DerivedSuffix(parsed: ParsedSql, ctx: RouteContext, t: ParsedTable, count: nat): Option<string> {
    var text := ShardText(parsed, ctx, t);
    var number := if text.Some? then ParseInt(text.value) else None;
    if number.Some? && count > 0 then Some(IntToString(number.value % count)) else None
  }

  /** The value of the table's one factor, for each routing style; the table has `count` enabled routes. */
  function FactorGiven(style: Style, parsed: ParsedSql, ctx: RouteContext, t: ParsedTable, count: nat): Option<string> {
    match style
    case Business(_) => ShardText(parsed, ctx, t)
    case Suffix =>
      var suffix := ContextString(ctx, "route_suffix");
      if suffix.Some? then suffix else DerivedSuffix(parsed, ctx, t, count)
    case BySource => ContextString(ctx, "source_name")
    case Single => None
  }

  /** What a request asks of a table: a route value, or something no route value can be computed from. */
  datatype Asked = AskedValue(value: string) | AskedNothing | AskedNoInteger

  /** A remainder, a suffix, a source name, or the constant of an unsharded table. */
  function AskedFor(style: Style, given: Option<string>): Asked {
    if style.Single? then AskedValue("0")
    else if given.None? then AskedNothing
    else if style.BySource? then AskedValue(given.value)
    else
      var number := ParseInt(given.value);
      if number.None? then AskedNoInteger
      else if style.Business? && style.modulus > 0 then AskedValue(IntToString(number.value % style.modulus))
      else AskedValue(IntToString(number.value))
  }

  /** The number of enabled routes of the enabled logical table of this name. */
  function RouteCount(db: Store, name: string): nat {
    match EnabledLogicalTable(db, name)
    case Ok(Some(logical)) => |EnabledRoutesOf(db, logical.id)|
    case _ => 0
  }

  /** The names the rule can use. */
  function Environment(style: Style, given: Option<string>): map<string, string> {
    var records := FactorRecords("", style);
    if records == [] || given.None? then map[] else map[records[0].factorName := given.value]
  }

  /** The imported modulus rule computes the decimal remainder. */
  lemma ModulusRule(rule: RouteRule, m: int, n: int, value: string)
    requires m > 0 && ParseInt(value) == Some(n)
    requires rule.expression == ToStr(Mod(ToInt(Var("shard_value")), Num(m)))
    ensures EvaluateRule(rule, map["shard_value" := value]) == Ok(IntToString(n % m))
  {
    hide ParseInt, IntToString;
    var env := map["shard_value" := value];
    assert Eval(Var("shard_value"), env) == Ok(TextValue(value));
    assert Eval(ToInt(Var("shard_value")), env) == Ok(IntValue(n));
    assert Eval(Num(m), env) == Ok(IntValue(m));
    assert Eval(Mod(ToInt(Var("shard_value")), Num(m)), env) == Ok(IntValue(PyMod(n, m)));
  }

  lemma SuffixRule(rule: RouteRule, n: int, value: string)
    requires ParseInt(value) == Some(n) && rule.expression == ToStr(ToInt(Var("route_suffix")))
    ensures EvaluateRule(rule, map["route_suffix" := value]) == Ok(IntToString(n))
  {
    hide ParseInt, IntToString;
    var env := map["route_suffix" := value];
    assert Eval(Var("route_suffix"), env) == Ok(TextValue(value));
    assert Eval(ToInt(Var("route_suffix")), env) == Ok(IntValue(n));
  }

  /** On text that is no integer, the two integer rules raise. */
  lemma NoIntegerRule(rule: RouteRule, name: string, style: Style, value: string)
    requires rule.expression == RuleFor(name, style).expression && (style.Business? || style.Suffix?)
    requires ParseInt(value) == None
    ensures EvaluateRule(rule, Environment(style, Some(value))) == Raise(ValueError)
  {
    hide ParseInt, IntToString;
    var variable := FactorRecords("", style)[0].factorName;
    var env := map[variable := value];
    assert Eval(Var(variable), env) == Ok(TextValue(value));
    assert Eval(ToInt(Var(variable)), env) == Raise(ValueError);
    if style.Business? {
      assert Eval(Mod(ToInt(Var(variable)), Num(style.modulus)), env) == Raise(ValueError);
    }
  }

  lemma SourceRule(rule: RouteRule, value: string)
    requires rule.expression == ToStr(Var("source_name"))
    ensures EvaluateRule(rule, map["source_name" := value]) == Ok(value)
  {
    var env := map["source_name" := value];
    assert Eval(Var("source_name"), env) == Ok(TextValue(value));
  }

  /** The rule of each style turns the given factor into what is asked for. */
  lemma StyleRule(rule: RouteRule, name: string, style: Style, given: Option<string>)
    requires rule.expression == RuleFor(name, style).expression && (style.Business? ==> style.modulus > 0)
    requires given.Some? || style.Single?
    ensures EvaluateRule(rule, Environment(style, given)) ==
            match AskedFor(style, given) case AskedValue(v) => Ok(v) case _ => Raise(ValueError)
  {
    hide EvaluateRule, ParseInt, IntToString;
    match style {
      case Single => ConstantRule(rule);
      case BySource => SourceRule(rule, given.value);
      case Suffix =>
        if ParseInt(given.value).Some? {
          SuffixRule(rule, ParseInt(given.value).value, given.value);
        } else {
          NoIntegerRule(rule, name, style, given.value);
        }
      case Business(m) =>
        if ParseInt(given.value).Some? {
          ModulusRule(rule, m, ParseInt(given.value).value, given.value);
        } else {
          NoIntegerRule(rule, name, style, given.value);
        }
    }
  }

  lemma ConstantRule(rule: RouteRule)
    requires rule.expression == Literal("0")
    ensures EvaluateRule(rule, map[]) == Ok("0")
  {
  }

  lemma LowerKept()
    ensures Lower("sql_predicate_from_context") == "sql_predicate_from_context"
    ensures Lower("route_context") == "route_context"
  {
    var a, b := "sql_predicate_from_context", "route_context";
    assert forall i :: 0 <= i < |a| ==> Lower(a)[i] == a[i];
    assert forall i :: 0 <= i < |b| ==> Lower(b)[i] == b[i];
  }

  /** The value of an imported factor is the one the request gives. */
  lemma StyleFactorValue(db: Store, tableId: int, f: RouteFactor, name: string, style: Style, parsed: ParsedSql,
                         ctx: RouteContext, t: ParsedTable)
    requires FactorRecords(name, style) != [] && f == NewFactorRow(f.id, tableId, FactorRecords(name, style)[0])
    ensures FactorValue(db, tableId, f, parsed, t, ctx) ==
          FactorGiven(style, parsed, ctx, t, |EnabledRoutesOf(db, tableId)|)
  {
    hide Lower, PredicateFor, ContextColumn, ContextString, EnabledRoutesOf, ParseInt, IntToString;
    LowerKept();
    assert "route_context"[0] != "sql_predicate"[0];
    assert |"route_context"| != |"sql_predicate_from_context"|;
  }

  lemma StyleCollected(db: Store, tableId: int, fs: seq<RouteFactor>, name: string, style: Style, parsed: ParsedSql,
                       ctx: RouteContext, t: ParsedTable)
    requires |fs| == |FactorRecords(name, style)|
    requires forall k :: 0 <= k < |fs| ==> fs[k] == NewFactorRow(fs[k].id, tableId, FactorRecords(name, style)[k])
    ensures var given := FactorGiven(style, parsed, ctx, t, |EnabledRoutesOf(db, tableId)|);
            var found := CollectFactors(db, tableId, fs, parsed, t, ctx);
            && (found.missing == [] <==> given.Some? || style.Single?)
            && found.extracted == Environment(style, given)
  {
    hide FactorValue, ShardText, DerivedSuffix, ContextString, EnabledRoutesOf;
    if fs != [] {
      assert fs[..0] == [] && |fs| == 1;
      StyleFactorValue(db, tableId, fs[0], name, style, parsed, ctx, t);
      assert CollectFactors(db, tableId, [], parsed, t, ctx) == Factors(map[], []);
    }
  }

  // ------------------------------------------------------------ the rows of a table in a built bundle

  /** The bundle has this style's factors and rule for the table. */
  ghost predicate StyledAs(b: SyncBundle, name: string, style: Style, ruleAt: nat) {
    && (forall r :: r in b.factors && r.logicalTableName == name <==> r in FactorRecords(name, style))
    && FactorNamesDistinct(b.factors)
    && RuleAt(b, ruleAt, name) && b.rules[ruleAt] == RuleFor(name, style)
  }

  lemma FactorsApart(hash: Hasher, rows: seq<TableConfigRow>, connection: Connection)
    requires BuildSpec(hash, rows, connection).Ok?
    ensures FactorNamesDistinct(BuildSpec(hash, rows, connection).value.factors)
  {
    hide BuildGroups, SortedKeys, Kept, GroupRows, GroupKeys, Datasources, SortDatasources, CountBlank;
    KeysReady(hash, Kept(rows));
    BuiltFactors(hash, Kept(rows), SortedKeys(hash, Kept(rows)));
  }

  lemma BuiltRuleAt(hash: Hasher, rows: seq<TableConfigRow>, connection: Connection, name: string) returns (j: nat)
    requires BuildSpec(hash, rows, connection).Ok? && name in GroupKeys(hash, Kept(rows))
    ensures var b := BuildSpec(hash, rows, connection).value;
            && RuleAt(b, j, name) && b.rules[j] == RuleFor(name, GroupStyle(hash, Kept(rows), name))
            && j < |b.logicalTables| && b.logicalTables[j].tableName == name
  {
    hide BuildSpec, SortedKeys, Kept, GroupStyle, RoutesBuilt, FactorsBuilt, ShardedDistinct, GroupRows, GroupKeys,
         RuleFor;
    ImportBuilt(hash, rows, connection);
    BuiltNamed(hash, rows, connection);
    KeysReady(hash, Kept(rows));
    var keys := SortedKeys(hash, Kept(rows));
    j :| 0 <= j < |keys| && keys[j] == name;
  }

  lemma BuiltStyled(hash: Hasher, rows: seq<TableConfigRow>, connection: Connection, name: string) returns (j: nat)
    requires BuildSpec(hash, rows, connection).Ok? && name in GroupKeys(hash, Kept(rows))
    ensures var b := BuildSpec(hash, rows, connection).value;
            && StyledAs(b, name, GroupStyle(hash, Kept(rows), name), j)
            && j < |b.logicalTables| && b.logicalTables[j].tableName == name
  {
    hide BuildSpec, Kept, GroupStyle, GroupKeys, RuleFor, FactorRecords, FactorNamesDistinct, RuleAt;
    FactorsApart(hash, rows, connection);
    BundleOf(hash, rows, connection, name);
    FactorRecordsNamed(name, GroupStyle(hash, Kept(rows), name));
    j := BuiltRuleAt(hash, rows, connection, name);
  }

  /** The store has exactly the style's factors and rule for the imported table. */
  lemma StyleFactors(f: Store, n: int, b: SyncBundle, i: nat, table: LogicalTableRecord, style: Style, ruleAt: nat)
    requires Settled(f, n) && FactorsReady(b.logicalTables, b.factors)
    requires TableAt(b, i, table) && StyledAs(b, table.tableName, style, ruleAt)
    ensures var id := TableIdOf(n, b, i);
            var fs := RequiredFactors(Merge(f, n, b), id);
            && |fs| == |FactorRecords(table.tableName, style)|
            && forall k :: 0 <= k < |fs| ==>
                  fs[k] == NewFactorRow(fs[k].id, id, FactorRecords(table.tableName, style)[k])
  {
    hide Merge, Settled, FactorsReady, TableAt, RequiredFactors;
    var records := FactorRecords(table.tableName, style);
    AtMostOneFactor(table.tableName, style);
    hide FactorRecords;
    if records == [] {
      assert forall k :: 0 <= k < |b.factors| ==> b.factors[k] in b.factors;
      NoImportedFactor(f, n, b, i, table);
    } else {
      assert records[0] in b.factors;
      var j :| 0 <= j < |b.factors| && b.factors[j] == records[0];
      ImportedFactor(f, n, b, i, table, j);
    }
  }

  // ------------------------------------------------------------ the whole lookup

  /** How resolving an imported table ends: by looking up the route value asked for, if there is one. */
  ghost predicate EndsAs(db: Store, t: ParsedTable, logical: LogicalTable, asked: Asked, r: Result<TableOutcome>) {
    match asked
    case AskedValue(v) => exists d :: r == LogicalTarget(db, t, logical, v, d)
    case AskedNothing => r.Ok? && r.value.Rejected? && r.value.reasonCode == "MISSING_ROUTE_FACTOR"
    case AskedNoInteger => r == Raise(ValueError)
  }

  lemma StyleReached(f: Store, n: int, b: SyncBundle, i: nat, table: LogicalTableRecord, style: Style, ruleAt: nat,
                     parsed: ParsedSql, ctx: RouteContext, t: ParsedTable)
    requires LogicalTableKeys(Merge(f, n, b).logicalTables) && Settled(f, n)
    requires FactorsReady(b.logicalTables, b.factors) && RulesReady(b.logicalTables, b.rules)
    requires TableAt(b, i, table) && StyledAs(b, table.tableName, style, ruleAt) && t.tableName == table.tableName
    requires EnabledRoutesNamed(Merge(f, n, b), t.tableName) == [] && (style.Business? ==> style.modulus > 0)
    ensures var db := Merge(f, n, b);
            var given := FactorGiven(style, parsed, ctx, t, RouteCount(db, t.tableName));
            EndsAs(db, t, NewTableRow(TableIdOf(n, b, i), table), AskedFor(style, given),
                ResolveTable(db, parsed, ctx, t))
  {
    hide Settled, Merge, TableAt, RuleAt, Diagnose, EvaluateRule, CollectFactors, RequiredFactors, EnabledRule,
         EnabledLogicalTable, EnabledRoutesNamed, MatchesTemplate, PhysicalTarget, LogicalTarget, FactorGiven,
             Environment, RulesReady, FactorsReady, LogicalTableKeys, FactorRecords, FactorNamesDistinct,
                 EnabledRoutesOf, IntToString, ParseInt;
    var db, id := Merge(f, n, b), TableIdOf(n, b, i);
    ImportedTableFound(f, n, b, i, table);
    StyleFactors(f, n, b, i, table, style, ruleAt);
    ImportedRule(f, n, b, i, table, ruleAt);
    var fs, rule := RequiredFactors(db, id), EnabledRule(db, id).value.value;
    StyleCollected(db, id, fs, table.tableName, style, parsed, ctx, t);
    var given := FactorGiven(style, parsed, ctx, t, |EnabledRoutesOf(db, id)|);
    var found := CollectFactors(db, id, fs, parsed, t, ctx);
    if found.missing == [] {
      StyleRule(rule, table.tableName, style, given);
      var asked := AskedFor(style, given);
      if asked.AskedValue? {
        var d := Diagnose(db, t, NewTableRow(id, table), fs, found, Some(rule), Some(asked.value));
        assert ResolveTable(db, parsed, ctx, t) == LogicalTarget(db, t, NewTableRow(id, table), asked.value, d);
      }
    }
  }

  /** The target of the imported route `routeAt`. */
  lemma TargetOfRoute(f: Store, n: int, b: SyncBundle, i: nat, table: LogicalTableRecord, routeAt: nat, t: ParsedTable,
                      d: RouteDiagnostic)
    requires RouteKeys(Merge(f, n, b).routes) && DatasourceKeys(Merge(f, n, b).datasources)
    requires TableAt(b, i, table) && t.tableName == table.tableName
    requires routeAt < |b.routes| && b.routes[routeAt].logicalTableName == table.tableName
    requires KnownDatasource(b.datasources, b.routes[routeAt].datasourceCode)
    ensures LogicalTarget(Merge(f, n, b), t, NewTableRow(TableIdOf(n, b, i), table), b.routes[routeAt].routeValue, d)
         == Ok(Routed(DeclaredTarget(t, b.routes[routeAt].routeValue, b.routes[routeAt].physicalTableName,
             b.routes[routeAt].datasourceCode), Some(d)))
  {
    hide Merge, TableAt, EnabledRouteByValue, EnabledDatasource, DatasourceCodeFromId, RouteKeys, DatasourceKeys,
         KnownDatasource;
    ImportedRoute(f, n, b, i, table, routeAt);
    ImportedDatasource(f, n, b, b.routes[routeAt].datasourceCode);
  }

  /** The rewritten target for a logical table, a route value and what is declared for it. */
  function DeclaredTarget(t: ParsedTable, value: string, physical: string, code: string): RouteTarget {
    RouteTarget(t.tableName, t.tableName, physical, code,
        Some(TableRewritePlan(t.tableName, physical, t.tokenStart, t.tokenEnd)), value)
  }

  lemma ValidParts(f: Store, n: int, b: SyncBundle)
    requires ValidStore(Merge(f, n, b)) && Loadable(f, b)
    ensures LogicalTableKeys(Merge(f, n, b).logicalTables) && RouteKeys(Merge(f, n, b).routes)
    ensures DatasourceKeys(Merge(f, n, b).datasources)
    ensures FactorsReady(b.logicalTables, b.factors) && RulesReady(b.logicalTables, b.rules)
    ensures RoutesReady(b.logicalTables, b.datasources, b.routes)
    ensures forall k :: 0 <= k < |b.routes| ==> KnownDatasource(b.datasources, b.routes[k].datasourceCode)
  {
    hide LogicalTableKeys, RouteKeys, DatasourceKeys, FactorKeys, RuleKeys, PolicyKeys, ForeignKeys, FactorsReady,
         RulesReady, FreshCodes, FreshNames, KnownTable, KnownDatasource, Merge;
  }

  /**
   The rows declare one route for the value, and it is the target's; or they declare none, and the table
   is refused.
   */
  ghost predicate OutcomeDeclared(hash: Hasher, rows: seq<TableConfigRow>, t: ParsedTable, value: string,
                                  r: Result<TableOutcome>) {
    && r.Ok?
    && match r.value
       case Routed(target, _) =>
         && target == DeclaredTarget(t, value, target.physicalTableName, target.datasourceCode)
         && forall p, d :: Declares(hash, Kept(rows), t.tableName, value, p, d) <==>
               (p, d) == (target.physicalTableName, target.datasourceCode)
       case Rejected(reason, _) =>
         reason == "PHYSICAL_ROUTE_NOT_FOUND" && forall p, d :: !Declares(hash, Kept(rows), t.tableName, value, p, d)
  }

  lemma RouteDeclared(hash: Hasher, rows: seq<TableConfigRow>, connection: Connection, name: string, value: string,
                      k: nat)
    requires BuildSpec(hash, rows, connection).Ok? && name in GroupKeys(hash, Kept(rows))
    requires var b := BuildSpec(hash, rows, connection).value;
             && RoutesReady(b.logicalTables, b.datasources, b.routes)
             && k < |b.routes| && IsRouteFor(b.routes[k], name, value)
    ensures var r := BuildSpec(hash, rows, connection).value.routes[k];
            forall p, d :: Declares(hash, Kept(rows), name, value, p, d) <==>
                (p, d) == (r.physicalTableName, r.datasourceCode)
  {
    hide BuildSpec, Kept, Declares, GroupKeys, KnownTable, KnownDatasource;
    var b := BuildSpec(hash, rows, connection).value;
    forall p, d
      ensures Declares(hash, Kept(rows), name, value, p, d) <==>
            (p, d) == (b.routes[k].physicalTableName, b.routes[k].datasourceCode)
    {
      ImportDeclaresExactly(hash, rows, connection, name, value, p, d);
      if Declares(hash, Kept(rows), name, value, p, d) {
        var r :| r in b.routes && r.logicalTableName == name && SaysTriple(r, value, p, d);
        var j :| 0 <= j < |b.routes| && b.routes[j] == r;
        assert j == k;
      }
      assert b.routes[k] in b.routes;
    }
  }

  lemma NothingDeclared(hash: Hasher, rows: seq<TableConfigRow>, connection: Connection, name: string, value: string)
    requires BuildSpec(hash, rows, connection).Ok?
    requires var b := BuildSpec(hash, rows, connection).value;
             name in GroupKeys(hash, Kept(rows)) && forall k :: 0 <= k < |b.routes| ==>
                 !IsRouteFor(b.routes[k], name, value)
    ensures forall p, d :: !Declares(hash, Kept(rows), name, value, p, d)
  {
    hide BuildSpec, Kept, Declares, GroupKeys;
    forall p, d
      ensures !Declares(hash, Kept(rows), name, value, p, d)
    {
      ImportDeclaresExactly(hash, rows, connection, name, value, p, d);
    }
  }

  /** The store after the import of `rows` into `s`. */
  ghost predicate ImportedInto(s: Session, hash: Hasher, rows: seq<TableConfigRow>, connection: Connection, db: Store) {
    && ValidSession(s)
    && BuildSpec(hash, rows, connection).Ok?
    && var r := SyncSpec(s, BuildSpec(hash, rows, connection).value);
       r.Ok? && r.value.db == db
  }

  /** The imported store, taken apart. */
  lemma ImportedParts(s: Session, hash: Hasher, rows: seq<TableConfigRow>, connection: Connection,
                      db: Store) returns (f: Store, n: int)
    requires ImportedInto(s, hash, rows, connection, db)
    ensures var b := BuildSpec(hash, rows, connection).value;
            db == Merge(f, n, b) && ValidStore(db) && Settled(f, n) && Loadable(f, b)
    ensures f == Foreign(EnsureDefaultPolicy(s).db)
  {
    hide ValidSession, BuildSpec, SyncSpec, Foreign, Merge, Settled, Loadable, ForeignRouteOnImport,
         EnsureDefaultPolicy, ValidStore;
    var b := BuildSpec(hash, rows, connection).value;
    var p := EnsureDefaultPolicy(s);
    SyncExactly(s, b);
    SyncKeepsValid(s, b);
    SessionStore(SyncSpec(s, b).value);
    PolicyKeepsValid(s);
    ForeignIsSettled(p);
    f, n := Foreign(p.db), p.nextId;
  }

  lemma SessionStore(s: Session)
    requires ValidSession(s)
    ensures ValidStore(s.db)
  {
    hide ValidStore, IdsBelow;
  }

  lemma OutcomeOf(hash: Hasher, rows: seq<TableConfigRow>, connection: Connection, f: Store, n: int, i: nat,
                  table: LogicalTableRecord, t: ParsedTable, value: string, d: RouteDiagnostic)
    requires BuildSpec(hash, rows, connection).Ok? && t.tableName == table.tableName
    requires table.tableName in GroupKeys(hash, Kept(rows))
    requires var b := BuildSpec(hash, rows, connection).value;
             ValidStore(Merge(f, n, b)) && Settled(f, n) && Loadable(f, b) && TableAt(b, i, table)
    ensures var b := BuildSpec(hash, rows, connection).value;
            OutcomeDeclared(hash, rows, t, value,
                LogicalTarget(Merge(f, n, b), t, NewTableRow(TableIdOf(n, b, i), table), value, d))
  {
    hide BuildSpec, Kept, Declares, GroupKeys, Merge, Settled, Loadable, ValidStore, TableAt, RoutesReady, RulesReady,
         FactorsReady, LogicalTableKeys, RouteKeys, DatasourceKeys, EnabledRouteByValue, KnownDatasource;
    var b := BuildSpec(hash, rows, connection).value;
    ValidParts(f, n, b);
    if k :| 0 <= k < |b.routes| && IsRouteFor(b.routes[k], table.tableName, value) {
      RouteDeclared(hash, rows, connection, table.tableName, value, k);
      hide LogicalTarget;
      TargetOfRoute(f, n, b, i, table, k, t, d);
    } else {
      NothingDeclared(hash, rows, connection, table.tableName, value);
      NoImportedRoute(f, n, b, i, table, value);
    }
  }

  /** What the rows and the request make of an imported table. */
  ghost predicate ReachesDeclared(hash: Hasher, rows: seq<TableConfigRow>, t: ParsedTable, asked: Asked,
                                  r: Result<TableOutcome>) {
    match asked
    case AskedValue(v) => OutcomeDeclared(hash, rows, t, v, r)
    case AskedNothing => r.Ok? && r.value.Rejected? && r.value.reasonCode == "MISSING_ROUTE_FACTOR"
    case AskedNoInteger => r == Raise(ValueError)
  }

  /** What the request asks of an imported table. */
  ghost function AskedOf(hash: Hasher, rows: seq<TableConfigRow>, db: Store, parsed: ParsedSql, ctx: RouteContext,
                         t: ParsedTable): Asked {
    var style := GroupStyle(hash, Kept(rows), t.tableName);
    AskedFor(style, FactorGiven(style, parsed, ctx, t, RouteCount(db, t.tableName)))
  }

  /**
   After a committed import, whatever the routing style of an imported table and whatever the request:
   if the request asks for a route value, the table is routed exactly when the configuration rows
   declare a route for that value, to the one physical table and datasource they declare, and is
   refused for want of a route otherwise. Without the style's factor it is refused, and on a factor
   that must be an integer and is not, routing raises. Only a name that is also the physical name of
   an enabled route never gets that far.
   */
  lemma ImportedTableReaches(s: Session, hash: Hasher, rows: seq<TableConfigRow>, connection: Connection, db: Store,
                             parsed: ParsedSql, ctx: RouteContext, t: ParsedTable)
    requires ImportedInto(s, hash, rows, connection, db) && t.tableName in GroupKeys(hash, Kept(rows))
    ensures var r := ResolveTable(db, parsed, ctx, t);
            if EnabledRoutesNamed(db, t.tableName) == [] then
                ReachesDeclared(hash, rows, t, AskedOf(hash, rows, db, parsed, ctx, t), r)
            else StaysItself(db, t, r)
  {
    hide ImportedInto, EnabledRoutesNamed, ResolveTable, Kept, GroupKeys, AskedOf, ReachesDeclared, StaysItself,
         ValidStore;
    if EnabledRoutesNamed(db, t.tableName) == [] {
      LogicalNameReaches(s, hash, rows, connection, db, parsed, ctx, t);
    } else {
      ImportIsValid(s, hash, rows, connection, db);
      PhysicalNameFirst(db, parsed, ctx, t);
    }
  }

  lemma ImportIsValid(s: Session, hash: Hasher, rows: seq<TableConfigRow>, connection: Connection, db: Store)
    requires ImportedInto(s, hash, rows, connection, db)
    ensures ValidStore(db)
  {
    hide ImportedInto, Merge, Settled, Loadable, ValidStore, BuildSpec;
    var f, n := ImportedParts(s, hash, rows, connection, db);
  }

  lemma LogicalNameReaches(s: Session, hash: Hasher, rows: seq<TableConfigRow>, connection: Connection, db: Store,
                           parsed: ParsedSql, ctx: RouteContext, t: ParsedTable)
    requires ImportedInto(s, hash, rows, connection, db)
    requires t.tableName in GroupKeys(hash, Kept(rows)) && EnabledRoutesNamed(db, t.tableName) == []
    ensures ReachesDeclared(hash, rows, t, AskedOf(hash, rows, db, parsed, ctx, t), ResolveTable(db, parsed, ctx, t))
  {
    hide ImportedInto, BuildSpec, EnabledRoutesNamed, ResolveTable, LogicalTarget, Kept, GroupKeys, Merge, Settled,
         Loadable, ValidStore, RulesReady, FactorsReady, RoutesReady, RouteKeys, LogicalTableKeys, DatasourceKeys,
             StyledAs, OutcomeDeclared, KnownDatasource, FactorGiven, AskedFor, StyleOf, RouteCount;
    assert BuildSpec(hash, rows, connection).Ok? by { ImportBuilds(s, hash, rows, connection, db); }
    var b := BuildSpec(hash, rows, connection).value;
    var f, n := ImportedParts(s, hash, rows, connection, db);
    ValidParts(f, n, b);
    var style := GroupStyle(hash, Kept(rows), t.tableName);
    var j := BuiltStyled(hash, rows, connection, t.tableName);
    var table := b.logicalTables[j];
    BuiltRulesReady(hash, rows, connection);
    TablePosition(b, table);
    var i := TableIndex(b.logicalTables, table.tableName);
    if style.Business? {
      BusinessCovers(GroupSegments(hash, Kept(rows), t.tableName), style.modulus, 0);
    }
    StyleReached(f, n, b, i, table, style, j, parsed, ctx, t);
    var asked := AskedOf(hash, rows, db, parsed, ctx, t);
    if asked.AskedValue? {
      var d :| ResolveTable(db, parsed, ctx, t) ==
          LogicalTarget(db, t, NewTableRow(TableIdOf(n, b, i), table), asked.value, d);
      OutcomeOf(hash, rows, connection, f, n, i, table, t, asked.value, d);
    }
  }

  lemma ImportBuilds(s: Session, hash: Hasher, rows: seq<TableConfigRow>, connection: Connection, db: Store)
    requires ImportedInto(s, hash, rows, connection, db)
    ensures BuildSpec(hash, rows, connection).Ok?
  {
  }

  // ------------------------------------------------------------ modulus routing

  /**
   The target names the table and datasource of every deduplicated row that covers the remainder, and
   some row does.
   */
  ghost predicate TargetIsShard(hash: Hasher, rows: seq<TableConfigRow>, name: string, remainder: int,
                                target: RouteTarget) {
    && target.routeValue == IntToString(remainder)
    && (exists row :: row in GroupSegments(hash, Kept(rows), name) && Covers(row, remainder))
    && (forall row :: row in GroupSegments(hash, Kept(rows), name) && Covers(row, remainder) ==>
          && target.physicalTableName == row.tableName + "_" + IntToString(remainder)
          && target.datasourceCode == MakeDatasourceCode(hash, row.sourceName))
  }

  lemma CoveringDeclares(hash: Hasher, kept: seq<TableConfigRow>, name: string, row: TableConfigRow, remainder: int)
    requires Sharded(GroupStyle(hash, kept, name)) && row in GroupSegments(hash, kept, name) && Covers(row, remainder)
    ensures Declares(hash, kept, name, IntToString(remainder), row.tableName + "_" +
          IntToString(remainder), MakeDatasourceCode(hash, row.sourceName))
  {
    hide GroupSegments, StyleOf, ClaimedBy, IntToString, MakeDatasourceCode;
    var segments := GroupSegments(hash, kept, name);
    CoveringClaim(hash, StyleOf(segments), segments, row, remainder);
    var c := ShardClaim(hash, row, remainder);
    assert ClaimedBy(hash, StyleOf(segments), segments, c);
  }

  /**
   After a committed import, a table imported with modulus `m` is routed for every integer value: to
   the shard of the value modulo `m`, as every deduplicated configuration row covering that remainder
   says; unless its name is also the physical name of an enabled route.
   */
  lemma ImportedShardIsReached(s: Session, hash: Hasher, rows: seq<TableConfigRow>, connection: Connection, db: Store,
                               m: int, parsed: ParsedSql, ctx: RouteContext, t: ParsedTable, value: string, v: int)
    requires ImportedInto(s, hash, rows, connection, db)
    requires t.tableName in GroupKeys(hash, Kept(rows)) && GroupStyle(hash, Kept(rows), t.tableName) == Business(m)
    requires ShardText(parsed, ctx, t) == Some(value) && ParseInt(value) == Some(v)
    ensures m > 0
    ensures var r := ResolveTable(db, parsed, ctx, t);
            if EnabledRoutesNamed(db, t.tableName) != [] then StaysItself(db, t, r)
            else
              && r.Ok? && r.value.Routed?
              && TargetIsShard(hash, rows, t.tableName, v % m, r.value.target)
              && r.value.target ==
                    DeclaredTarget(t, IntToString(v % m), r.value.target.physicalTableName,
                        r.value.target.datasourceCode)
  {
    hide ImportedInto, EnabledRoutesNamed, ParseInt, IntToString, ResolveTable, Kept, GroupSegments,
         MakeDatasourceCode, Covers, GroupKeys, StyleOf, ShardText, RouteCount, Declares, StaysItself;
    var kept, name := Kept(rows), t.tableName;
    BusinessCovers(GroupSegments(hash, kept, name), m, v);
    ImportedTableReaches(s, hash, rows, connection, db, parsed, ctx, t);
    forall row | row in GroupSegments(hash, kept, name) && Covers(row, v % m)
      ensures Declares(hash, kept, name, IntToString(v % m), row.tableName + "_" +
            IntToString(v % m), MakeDatasourceCode(hash, row.sourceName))
    {
      CoveringDeclares(hash, kept, name, row, v % m);
    }
  }

  /**
   If the names of each segment agree, the shard is the one that every configuration row covering the
   remainder names.
   */
  lemma ShardOfEveryRow(hash: Hasher, rows: seq<TableConfigRow>, name: string, remainder: int, target: RouteTarget,
                        row: TableConfigRow)
    requires TargetIsShard(hash, rows, name, remainder, target) && NamesAgree(hash, Kept(rows))
    requires row in Kept(rows) && GroupKey(hash, row) == name && Covers(row, remainder)
    ensures target.physicalTableName == row.tableName + "_" + IntToString(remainder)
    ensures target.datasourceCode == MakeDatasourceCode(hash, row.sourceName)
  {
    hide Kept, GroupKey, GroupSegments, GroupStyle, IntToString, MakeDatasourceCode;
    GroupSegmentsAre(hash, Kept(rows), name);
    assert HasSegment(GroupSegments(hash, Kept(rows), name), SegmentOf(row));
    var kept :| kept in GroupSegments(hash, Kept(rows), name) && SegmentOf(kept) == SegmentOf(row);
    assert Covers(kept, remainder);
  }
}
