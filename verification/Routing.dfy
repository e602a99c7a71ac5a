/** Resolving every table of a parsed statement to one registered physical table. */
module Routing {
  import opened Wrappers
  import opened Text
  import opened SqlParser
  import opened SqlRewrite
  import opened Metadata

  /** A value of the request's route context: text, anything else with its `str`, or None. */
  datatype ContextValue = ContextText(text: string) | ContextOther(rendered: string) | ContextNull

  type RouteContext = map<string, ContextValue>

  datatype RouteTarget = RouteTarget(
    originalTableName: string,
    logicalTableName: string,
    physicalTableName: string,
    datasourceCode: string,
    rewritePlan: Option<TableRewritePlan>,
    routeValue: string)
  {
    predicate RequiresRewrite() { rewritePlan.Some? }
  }

  datatype FactorDiagnostic = FactorDiagnostic(factorName: string, providedValue: Option<string>)

  datatype RouteDiagnostic = RouteDiagnostic(
    originalTableName: string,
    logicalTableName: string,
    requiredFactors: seq<FactorDiagnostic>,
    missingFactors: seq<string>,
    extractedValues: map<string, string>,
    ruleName: Option<string>,
    evaluatedRouteValue: Option<string>,
    availableRouteCount: nat)

  datatype RouteDecision = RouteDecision(
    allowed: bool, reasonCode: string, targets: seq<RouteTarget>, diagnostics: seq<RouteDiagnostic>)

  // ------------------------------------------------------------ factor values

  /** Python's `a or b` on optional text: an empty value counts as absent. */
  function OrElse(a: Option<string>, b: Option<string>): Option<string> {
    if a.Some? && a.value != "" then a else b
  }

  /** The value of `column` for a table: a predicate under its alias first, else any predicate. */
  function PredicateFor(ps: seq<ParsedPredicate>, column: string, table: ParsedTable): Option<string> {
    OrElse(PredicateValue(ps, column, table.alias), PredicateValue(ps, column, None))
  }

  /** The column a context entry names: non-empty text, or nothing. */
  function ContextColumn(ctx: RouteContext, key: string): Option<string> {
    if key in ctx && ctx[key].ContextText? && ctx[key].text != "" then Some(ctx[key].text) else None
  }

  function ContextString(ctx: RouteContext, key: string): Option<string> {
    if key !in ctx then None
    else
      match ctx[key]
      case ContextText(text) => Some(text)
      case ContextOther(rendered) => Some(rendered)
      case ContextNull => None
  }

  /** `_extract_factor_value`. */
  function ExtractFactorValue(f: RouteFactor, parsed: ParsedSql, table: ParsedTable,
                              ctx: RouteContext): Option<string> {
    var sourceType := Lower(f.sourceType);
    if sourceType == "sql_predicate" then PredicateFor(parsed.predicates, f.sourceKey, table)
    else if sourceType == "sql_predicate_from_context" then
      (match ContextColumn(ctx, f.sourceKey)
       case None => None
       case Some(column) => PredicateFor(parsed.predicates, column, table))
    else if sourceType == "route_context" then ContextString(ctx, f.sourceKey)
    else if sourceType == "physical_table_name" then Some(table.tableName)
    else None
  }

  /** `_derive_legacy_route_suffix`: the shard column's value modulo the number of enabled routes. */
  function DeriveLegacySuffix(db: Store, tableId: int, parsed: ParsedSql, table: ParsedTable,
                              ctx: RouteContext): Option<string> {
    match ContextColumn(ctx, "shard_column")
    case None => None
    case Some(column) =>
      match PredicateFor(parsed.predicates, column, table)
      case None => None
      case Some(value) =>
        var count := |EnabledRoutesOf(db, tableId)|;
        if count == 0 then None
        else
          match ParseInt(value)
          case None => None
          case Some(n) => Some(IntToString(PyMod(n, count)))
  }

  function FactorValue(db: Store, tableId: int, f: RouteFactor, parsed: ParsedSql, table: ParsedTable,
                       ctx: RouteContext): Option<string> {
    var v := ExtractFactorValue(f, parsed, table, ctx);
    if v.None? && f.sourceKey == "route_suffix" then DeriveLegacySuffix(db, tableId, parsed, table, ctx) else v
  }

  datatype Factors = Factors(extracted: map<string, string>, missing: seq<string>)

  function AddFactor(acc: Factors, name: string, value: Option<string>): Factors {
    match value
    case None => acc.(missing := acc.missing + [name])
    case Some(v) => acc.(extracted := acc.extracted[name := v])
  }

  /** The factor loop of `resolve`, after its first `|fs|` rounds. */
  function CollectFactors(db: Store, tableId: int, fs: seq<RouteFactor>, parsed: ParsedSql, table: ParsedTable,
                          ctx: RouteContext): Factors {
    if fs == [] then Factors(map[], [])
    else
      var last := fs[|fs| - 1];
      AddFactor(CollectFactors(db, tableId, fs[..|fs| - 1], parsed, table, ctx),
                last.factorName, FactorValue(db, tableId, last, parsed, table, ctx))
  }

  // ------------------------------------------------------------ one table

  datatype TableOutcome =
    | Routed(target: RouteTarget, diagnostic: Option<RouteDiagnostic>)
    | Rejected(reasonCode: string, diagnostic: Option<RouteDiagnostic>)

  function DatasourceCodeFromId(db: Store, id: int): string {
    match DatasourceById(db.datasources, id)
    case None => ""
    case Some(d) => d.code
  }

  function BeforeBrace(template: string): string {
    template[..IndexOf('{', template)]
  }

  /** `_match_invalid_physical_table`: the name starts like some enabled logical table's physical names. */
  function MatchesTemplate(tables: seq<LogicalTable>, name: string): bool {
    tables != [] &&
    ((tables[0].enabled
      && var prefix := BeforeBrace(tables[0].physicalNameTemplate);
         prefix != "" && prefix <= name)
     || MatchesTemplate(tables[1..], name))
  }

  /** `_build_physical_target`. */
  function PhysicalTarget(db: Store, table: ParsedTable, route: PhysicalRoute): Result<TableOutcome> {
    match EnabledDatasource(db, DatasourceCodeFromId(db, route.datasourceId))
    case Raise(error) => Raise(error)
    case Ok(None) => Ok(Rejected("DATASOURCE_NOT_FOUND", None))
    case Ok(Some(datasource)) =>
      var logical := LogicalTableById(db.logicalTables, route.logicalTableId);
      Ok(Routed(
        RouteTarget(
          table.tableName,
          if logical.Some? then logical.value.tableName else table.tableName,
          route.physicalTableName,
          datasource.code,
          None,
          route.routeValue),
        None))
  }

  function Diagnose(db: Store, table: ParsedTable, logical: LogicalTable, fs: seq<RouteFactor>, found: Factors,
                    rule: Option<RouteRule>, value: Option<string>): RouteDiagnostic
  {
    RouteDiagnostic(
      table.tableName,
      logical.tableName,
      FactorDiagnostics(fs, found.extracted),
      found.missing,
      found.extracted,
      if rule.Some? then Some(rule.value.ruleName) else None,
      value,
      |EnabledRoutesOf(db, logical.id)|)
  }

  function FactorDiagnostics(fs: seq<RouteFactor>, extracted: map<string, string>): seq<FactorDiagnostic> {
    if fs == [] then []
    else
      var name := fs[0].factorName;
      [FactorDiagnostic(name, if name in extracted then Some(extracted[name]) else None)]
      + FactorDiagnostics(fs[1..], extracted)
  }

  /** From the evaluated route value to the target: the last part of the table loop. */
  function LogicalTarget(db: Store, table: ParsedTable, logical: LogicalTable, value: string,
                         diagnostic: RouteDiagnostic): Result<TableOutcome> {
    match EnabledRouteByValue(db, logical.id, value)
    case Raise(error) => Raise(error)
    case Ok(None) => Ok(Rejected("PHYSICAL_ROUTE_NOT_FOUND", Some(diagnostic)))
    case Ok(Some(route)) =>
      match EnabledDatasource(db, DatasourceCodeFromId(db, route.datasourceId))
      case Raise(error) => Raise(error)
      case Ok(None) => Ok(Rejected("DATASOURCE_NOT_FOUND", Some(diagnostic)))
      case Ok(Some(datasource)) =>
        Ok(Routed(
          RouteTarget(
            table.tableName, logical.tableName, route.physicalTableName, datasource.code,
            Some(TableRewritePlan(table.tableName, route.physicalTableName, table.tokenStart, table.tokenEnd)),
            value),
          Some(diagnostic)))
  }

  /** From the collected factors to the target. */
  function RouteByRule(db: Store, table: ParsedTable, logical: LogicalTable, fs: seq<RouteFactor>, rule: RouteRule,
                       found: Factors): Result<TableOutcome> {
    if found.missing != [] then
      Ok(Rejected("MISSING_ROUTE_FACTOR", Some(Diagnose(db, table, logical, fs, found, Some(rule), None))))
    else
      match EvaluateRule(rule, found.extracted)
      case Raise(error) => Raise(error)
      case Ok(value) => LogicalTarget(db, table, logical, value,
          Diagnose(db, table, logical, fs, found, Some(rule), Some(value)))
  }

  function RouteLogical(db: Store, parsed: ParsedSql, ctx: RouteContext, table: ParsedTable,
                        logical: LogicalTable): Result<TableOutcome> {
    var fs := RequiredFactors(db, logical.id);
    match EnabledRule(db, logical.id)
    case Raise(error) => Raise(error)
    case Ok(None) =>
      Ok(Rejected("ROUTE_RULE_NOT_FOUND", Some(Diagnose(db, table, logical, fs, Factors(map[], []), None, None))))
    case Ok(Some(rule)) =>
      RouteByRule(db, table, logical, fs, rule, CollectFactors(db, logical.id, fs, parsed, table, ctx))
  }

  function ResolveTable(db: Store, parsed: ParsedSql, ctx: RouteContext, table: ParsedTable): Result<TableOutcome> {
    match EnabledRouteByName(db, table.tableName)
    case Raise(error) => Raise(error)
    case Ok(Some(route)) => PhysicalTarget(db, table, route)
    case Ok(None) =>
      match EnabledLogicalTable(db, table.tableName)
      case Raise(error) => Raise(error)
      case Ok(None) =>
        Ok(Rejected(
             if MatchesTemplate(db.logicalTables, table.tableName) then "INVALID_PHYSICAL_TABLE"
                 else "LOGICAL_TABLE_NOT_FOUND",
             None))
      case Ok(Some(logical)) => RouteLogical(db, parsed, ctx, table, logical)
  }

  // ------------------------------------------------------------ all tables

  function Append(ds: seq<RouteDiagnostic>, d: Option<RouteDiagnostic>): seq<RouteDiagnostic> {
    if d.Some? then ds + [d.value] else ds
  }

  function ResolveFrom(db: Store, parsed: ParsedSql, ctx: RouteContext, tables: seq<ParsedTable>,
                       targets: seq<RouteTarget>, diagnostics: seq<RouteDiagnostic>): Result<RouteDecision>
    decreases |tables|
  {
    if tables == [] then Ok(RouteDecision(true, "ALLOW", targets, diagnostics))
    else
      match ResolveTable(db, parsed, ctx, tables[0])
      case Raise(error) => Raise(error)
      case Ok(Rejected(reason, d)) => Ok(RouteDecision(false, reason, [], Append(diagnostics, d)))
      case Ok(Routed(target, d)) =>
        ResolveFrom(db, parsed, ctx, tables[1..], targets + [target], Append(diagnostics, d))
  }

  function ResolveSpec(db: Store, parsed: ParsedSql, ctx: RouteContext): Result<RouteDecision> {
    if parsed.tables == [] then Ok(RouteDecision(false, "TABLE_NOT_FOUND", [], []))
    else ResolveFrom(db, parsed, ctx, parsed.tables, [], [])
  }

  /** One more factor. */
  lemma CollectStep(db: Store, tableId: int, fs: seq<RouteFactor>, i: nat, parsed: ParsedSql, table: ParsedTable,
                    ctx: RouteContext)
    requires i < |fs|
    ensures CollectFactors(db, tableId, fs[..i + 1], parsed, table, ctx) ==
            AddFactor(CollectFactors(db, tableId, fs[..i], parsed, table, ctx), fs[i].factorName,
                      FactorValue(db, tableId, fs[i], parsed, table, ctx))
  {
    hide FactorValue, AddFactor;
    assert fs[..i + 1][..i] == fs[..i];
  }

  /** The factor loop inside `resolve`. */
  method CollectRouteFactors(db: Store, tableId: int, fs: seq<RouteFactor>, parsed: ParsedSql, table: ParsedTable,
                             ctx: RouteContext)
    returns (found: Factors)
    ensures found == CollectFactors(db, tableId, fs, parsed, table, ctx)
  {
    var extracted: map<string, string> := map[];
    var missing: seq<string> := [];
    var i := 0;
    while i < |fs|
      invariant i <= |fs|
      invariant Factors(extracted, missing) == CollectFactors(db, tableId, fs[..i], parsed, table, ctx)
    {
      hide ExtractFactorValue, DeriveLegacySuffix, CollectFactors;
      var value := ExtractFactorValue(fs[i], parsed, table, ctx);
      if value.None? && fs[i].sourceKey == "route_suffix" {
        value := DeriveLegacySuffix(db, tableId, parsed, table, ctx);
      }
      CollectStep(db, tableId, fs, i, parsed, table, ctx);
      if value.None? {
        missing := missing + [fs[i].factorName];
      } else {
        extracted := extracted[fs[i].factorName := value.value];
      }
      i := i + 1;
    }
    assert fs[..i] == fs;
    found := Factors(extracted, missing);
  }

  /** One round of the table loop. */
  method RouteTable(db: Store, parsed: ParsedSql, ctx: RouteContext,
                    table: ParsedTable) returns (r: Result<TableOutcome>)
    ensures r == ResolveTable(db, parsed, ctx, table)
  {
    hide EnabledRouteByName, EnabledLogicalTable, EnabledRule, RequiredFactors, PhysicalTarget, MatchesTemplate,
         RouteByRule;
    var physical := EnabledRouteByName(db, table.tableName);
    if physical.Raise? {
      return Raise(physical.error);
    }
    if physical.value.Some? {
      return PhysicalTarget(db, table, physical.value.value);
    }
    var lookup := EnabledLogicalTable(db, table.tableName);
    if lookup.Raise? {
      return Raise(lookup.error);
    }
    if lookup.value.None? {
      return Ok(Rejected(
                  if MatchesTemplate(db.logicalTables, table.tableName) then "INVALID_PHYSICAL_TABLE"
                      else "LOGICAL_TABLE_NOT_FOUND",
                  None));
    }
    var logical := lookup.value.value;
    var fs := RequiredFactors(db, logical.id);
    var rule := EnabledRule(db, logical.id);
    if rule.Raise? {
      return Raise(rule.error);
    }
    if rule.value.None? {
      return Ok(Rejected("ROUTE_RULE_NOT_FOUND",
          Some(Diagnose(db, table, logical, fs, Factors(map[], []), None, None))));
    }
    var found := CollectRouteFactors(db, logical.id, fs, parsed, table, ctx);
    r := RouteByRule(db, table, logical, fs, rule.value.value, found);
  }

  /** `RouteDecisionService.resolve`. */
  method Resolve(db: Store, parsed: ParsedSql, ctx: RouteContext) returns (r: Result<RouteDecision>)
    ensures r == ResolveSpec(db, parsed, ctx)
  {
    hide ResolveTable;
    if parsed.tables == [] {
      return Ok(RouteDecision(false, "TABLE_NOT_FOUND", [], []));
    }
    var targets: seq<RouteTarget> := [];
    var diagnostics: seq<RouteDiagnostic> := [];
    var i := 0;
    while i < |parsed.tables|
      invariant i <= |parsed.tables|
      invariant ResolveFrom(db, parsed, ctx, parsed.tables[i..], targets, diagnostics) == ResolveSpec(db, parsed, ctx)
    {
      assert parsed.tables[i..][1..] == parsed.tables[i + 1..];
      var outcome := RouteTable(db, parsed, ctx, parsed.tables[i]);
      match outcome {
        case Raise(error) => return Raise(error);
        case Ok(Rejected(reason, d)) => return Ok(RouteDecision(false, reason, [], Append(diagnostics, d)));
        case Ok(Routed(target, d)) =>
          targets := targets + [target];
          diagnostics := Append(diagnostics, d);
      }
      i := i + 1;
    }
    r := Ok(RouteDecision(true, "ALLOW", targets, diagnostics));
  }
}
