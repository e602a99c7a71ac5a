/**
 The check of a request: guard, parse, route, rewrite, filters. The main result is that what the
 check decided on the statement as written holds of the statement that will be executed: checking
 the rewritten statement again gives the same answer.
 */
module Checker {
  import opened Wrappers
  import opened Text
  import opened SqlParser
  import opened SqlRewrite
  import opened Sequences
  import opened RewriteTransfer
  import opened Precheck
  import opened Metadata
  import opened Routing
  import opened RoutingProofs
  import opened FilterChain

  datatype CheckResult = CheckResult(
    allowed: bool,
    reasonCode: string,
    parsedSql: Option<ParsedSql>,
    rewrittenSql: string,
    logicalTables: seq<string>,
    physicalTables: seq<string>,
    datasourceCodes: seq<string>,
    explainSummaries: seq<ExplainPlanSummary>,
    routeDiagnostics: seq<RouteDiagnostic>)

  function RewritePlans(targets: seq<RouteTarget>): seq<TableRewritePlan> {
    if targets == [] then []
    else (if targets[0].rewritePlan.Some? then [targets[0].rewritePlan.value] else []) + RewritePlans(targets[1..])
  }

  function LogicalNames(targets: seq<RouteTarget>): (r: seq<string>)
    ensures |r| == |targets| && forall i :: 0 <= i < |r| ==> r[i] == targets[i].logicalTableName
  {
    seq(|targets|, i requires 0 <= i < |targets| => targets[i].logicalTableName)
  }

  function PhysicalNames(targets: seq<RouteTarget>): (r: seq<string>)
    ensures |r| == |targets| && forall i :: 0 <= i < |r| ==> r[i] == targets[i].physicalTableName
  {
    seq(|targets|, i requires 0 <= i < |targets| => targets[i].physicalTableName)
  }

  function Codes(targets: seq<RouteTarget>): (r: seq<string>)
    ensures |r| == |targets| && forall i :: 0 <= i < |r| ==> r[i] == targets[i].datasourceCode
  {
    seq(|targets|, i requires 0 <= i < |targets| => targets[i].datasourceCode)
  }

  function DiagnosedNames(ds: seq<RouteDiagnostic>): seq<string> {
    seq(|ds|, i requires 0 <= i < |ds| => ds[i].logicalTableName)
  }

  /** The result once routing has succeeded and the filters have run. */
  function Concluded(parsed: ParsedSql, rewritten: string, route: RouteDecision, d: FilterDecision,
                     st: ChainState): CheckResult {
    CheckResult(
      d.allowed, d.reasonCode, Some(parsed), rewritten,
      LogicalNames(route.targets), PhysicalNames(route.targets), Codes(route.targets),
      st.summaries, route.diagnostics)
  }

  function CheckRouted(db: Store, explain: Explainer, parsed: ParsedSql, route: RouteDecision): Result<CheckResult> {
    var rewritten := RewriteSpec(parsed.originalSql, RewritePlans(route.targets));
    var step := RunSpec(AS_BUILT, db, explain, Request(parsed, rewritten, route.targets), FRESH);
    match step.result
    case Raise(error) => Raise(error)
    case Ok(d) => Ok(Concluded(parsed, rewritten, route, d, step.state))
  }

  function CheckSpec(db: Store, explain: Explainer, sql: string, ctx: RouteContext): Result<CheckResult> {
    var guard := Evaluate(sql);
    if !guard.allowed then Ok(CheckResult(false, guard.reasonCode, None, "", [], [], [], [], []))
    else
      var parsed := ParseSpec(sql);
      match ResolveSpec(db, parsed, ctx)
      case Raise(error) => Raise(error)
      case Ok(route) =>
        if !route.allowed then
          Ok(CheckResult(false, route.reasonCode, Some(parsed), "", DiagnosedNames(route.diagnostics), [], [], [],
              route.diagnostics))
        else CheckRouted(db, explain, parsed, route)
  }

  method CollectPlans(targets: seq<RouteTarget>) returns (plans: seq<TableRewritePlan>)
    ensures plans == RewritePlans(targets)
  {
    plans := [];
    var i := 0;
    while i < |targets|
      invariant i <= |targets|
      invariant plans + RewritePlans(targets[i..]) == RewritePlans(targets)
    {
      assert targets[i..][1..] == targets[i + 1..];
      if targets[i].rewritePlan.Some? {
        plans := plans + [targets[i].rewritePlan.value];
      }
      i := i + 1;
    }
  }

  /** `SqlCheckService.check`. */
  method Check(db: Store, explain: Explainer, sql: string, ctx: RouteContext) returns (r: Result<CheckResult>)
    ensures r == CheckSpec(db, explain, sql, ctx)
  {
    hide Evaluate, ParseSpec, ResolveSpec, RunSpec, RewriteSpec, RewritePlans;
    var guard := Evaluate(sql);
    if !guard.allowed {
      return Ok(CheckResult(false, guard.reasonCode, None, "", [], [], [], [], []));
    }
    var parsed := Parse(sql);
    var resolved := Resolve(db, parsed, ctx);
    if resolved.Raise? {
      return Raise(resolved.error);
    }
    var route := resolved.value;
    if !route.allowed {
      return Ok(CheckResult(false, route.reasonCode, Some(parsed), "", DiagnosedNames(route.diagnostics), [], [], [],
          route.diagnostics));
    }
    var plans := CollectPlans(route.targets);
    var rewritten := Rewrite(parsed.originalSql, plans);
    var context := new FilterContext(Request(parsed, rewritten, route.targets));
    var chain := new Chain(AS_BUILT);
    var verdict := chain.Run(db, explain, context);
    if verdict.Raise? {
      return Raise(verdict.error);
    }
    r := Ok(Concluded(parsed, rewritten, route, verdict.value, context.State()));
  }

  // ------------------------------------------------------------ an allowed check, taken apart

  lemma OriginalKept(sql: string)
    ensures ParseSpec(sql).originalSql == sql
  {
  }

  /**
   The first stage that refuses the request, asked of the statement, the metadata and the explainer; no
   stage's own state is needed.
   */
  function FirstRefusal(db: Store, explain: Explainer, sql: string, route: RouteDecision): FilterDecision {
    if !Evaluate(sql).allowed then FilterDecision(false, Evaluate(sql).reasonCode)
    else if !route.allowed then FilterDecision(false, route.reasonCode)
    else Verdict(db, explain, Request(ParseSpec(sql), RewriteSpec(sql, RewritePlans(route.targets)), route.targets))
  }

  /**
   The check fails closed: on a valid store its answer is that of the first refusing stage, it allows
   only when none refuses, a refusal before rewriting names no physical table and has no text to
   execute, and it raises exactly when routing does.
   */
  lemma CheckIsFirstRefusal(db: Store, explain: Explainer, sql: string, ctx: RouteContext)
    requires ValidStore(db)
    ensures var r := CheckSpec(db, explain, sql, ctx);
            var route := ResolveSpec(db, ParseSpec(sql), ctx);
            && (r.Raise? <==> Evaluate(sql).allowed && route.Raise?)
            && (r.Raise? ==> r == Raise(route.error))
            && (r.Ok? && route.Ok? ==>
                  FilterDecision(r.value.allowed, r.value.reasonCode) == FirstRefusal(db, explain, sql, route.value))
            && (r.Ok? && (!Evaluate(sql).allowed || !route.value.allowed) ==>
                  !r.value.allowed && r.value.rewrittenSql == "" && r.value.physicalTables == [] &&
                      r.value.datasourceCodes == [])
  {
    hide Evaluate, ParseSpec, ResolveSpec, RewriteSpec, RewritePlans, RunSpec, Verdict, ValidStore, Registered,
         PlanFits;
    ResolutionInvariant(db, ParseSpec(sql), ctx);
    OriginalKept(sql);
    var route := ResolveSpec(db, ParseSpec(sql), ctx);
    if route.Ok? && route.value.allowed {
      ChainIsVerdict(db, explain,
          Request(ParseSpec(sql), RewriteSpec(sql, RewritePlans(route.value.targets)), route.value.targets));
    }
  }

  /** The result lists each target's logical table, physical table and datasource, in order. */
  predicate Lists(r: CheckResult, targets: seq<RouteTarget>) {
    && |r.logicalTables| == |r.physicalTables| == |r.datasourceCodes| == |targets|
    && forall i :: 0 <= i < |targets| ==>
         && r.logicalTables[i] == targets[i].logicalTableName
         && r.physicalTables[i] == targets[i].physicalTableName
         && r.datasourceCodes[i] == targets[i].datasourceCode
  }

  /** The result lists the logical table of each diagnostic, and nothing physical. */
  predicate ListsDiagnosed(r: CheckResult, ds: seq<RouteDiagnostic>) {
    && |r.logicalTables| == |ds| && (forall i :: 0 <= i < |ds| ==> r.logicalTables[i] == ds[i].logicalTableName)
    && r.physicalTables == [] && r.datasourceCodes == []
  }

  /**
   What a check shows besides its verdict. Refused by the guard: nothing. Not routed: the parse, the
   diagnostics and the tables they are about. Routed: also the rewritten text, every target, and the
   summaries that the filters recorded.
   */
  lemma ResultContents(db: Store, explain: Explainer, sql: string, ctx: RouteContext)
    requires CheckSpec(db, explain, sql, ctx).Ok?
    ensures var r := CheckSpec(db, explain, sql, ctx).value;
            if !Evaluate(sql).allowed then
              r == CheckResult(false, Evaluate(sql).reasonCode, None, "", [], [], [], [], [])
            else
              && r.parsedSql == Some(ParseSpec(sql)) && ResolveSpec(db, ParseSpec(sql), ctx).Ok?
              && var route := ResolveSpec(db, ParseSpec(sql), ctx).value;
                 && r.routeDiagnostics == route.diagnostics
                 && if !route.allowed then
                      && !r.allowed && r.reasonCode == route.reasonCode
                      && r.rewrittenSql == "" && r.explainSummaries == [] && ListsDiagnosed(r, route.diagnostics)
                    else
                      && r.rewrittenSql == RewriteSpec(sql, RewritePlans(route.targets)) && Lists(r, route.targets)
                      && var step := RunSpec(AS_BUILT, db, explain,
                                             Request(ParseSpec(sql), r.rewrittenSql, route.targets), FRESH);
                         && step.result == Ok(FilterDecision(r.allowed, r.reasonCode))
                         && r.explainSummaries == step.state.summaries
  {
    hide Evaluate, ParseSpec, ResolveSpec, RewriteSpec, RewritePlans, RunSpec;
    OriginalKept(sql);
  }

  /** The plans of a routed statement: one for each target that is rewritten, in order. */
  lemma {:induction false} PlansAre(targets: seq<RouteTarget>)
    ensures var rewritten := Filter((t: RouteTarget) => t.rewritePlan.Some?, targets);
            && |RewritePlans(targets)| == |rewritten|
            && forall i :: 0 <= i < |rewritten| ==> rewritten[i].rewritePlan == Some(RewritePlans(targets)[i])
  {
    if targets != [] {
      PlansAre(targets[1..]);
    }
  }

  /** The parts an allowed check is made of. */
  lemma AllowedCheck(db: Store, explain: Explainer, sql: string, ctx: RouteContext) returns (targets: seq<RouteTarget>)
    requires ValidStore(db)
    requires CheckSpec(db, explain, sql, ctx).Ok? && CheckSpec(db, explain, sql, ctx).value.allowed
    ensures Evaluate(sql).allowed
    ensures var route := ResolveSpec(db, ParseSpec(sql), ctx);
            && route.Ok? && route.value.allowed && route.value.targets == targets
            && CheckSpec(db, explain, sql, ctx) == CheckRouted(db, explain, ParseSpec(sql), route.value)
    ensures |targets| == |ParseSpec(sql).tables| > 0
    ensures forall i :: 0 <= i < |targets| ==>
              Registered(db, targets[i]) && PlanFits(ParseSpec(sql).tables[i], targets[i])
  {
    hide Evaluate, ParseSpec, ResolveSpec, CheckRouted, Registered, PlanFits, ValidStore;
    ResolutionInvariant(db, ParseSpec(sql), ctx);
    targets := ResolveSpec(db, ParseSpec(sql), ctx).value.targets;
  }

  /** The plans of fitting targets replace exactly the tables that are rewritten. */
  lemma {:induction false} PlansFit(tables: seq<ParsedTable>, targets: seq<RouteTarget>)
    requires |tables| == |targets|
    requires forall i :: 0 <= i < |tables| ==> PlanFits(tables[i], targets[i])
    ensures PlansFor(tables, PhysicalNames(targets), RewritePlans(targets))
    decreases |tables|
  {
    if tables != [] {
      assert PlanFits(tables[0], targets[0]);
      forall i | 0 <= i < |tables| - 1
        ensures PlanFits(tables[1..][i], targets[1..][i])
      {
        assert PlanFits(tables[i + 1], targets[i + 1]);
      }
      PlansFit(tables[1..], targets[1..]);
      assert PhysicalNames(targets)[1..] == PhysicalNames(targets[1..]);
      var plans := RewritePlans(targets[1..]);
      if targets[0].rewritePlan.Some? {
        assert ([targets[0].rewritePlan.value] + plans)[1..] == plans;
      } else {
        assert [] + plans == plans;
      }
    }
  }

  // ------------------------------------------------------------ checking the rewritten statement

  /** What the second check finds for a table: its physical name is registered, so nothing is rewritten. */
  function Retarget(t: RouteTarget): RouteTarget {
    RouteTarget(t.physicalTableName, t.logicalTableName, t.physicalTableName, t.datasourceCode, None, t.routeValue)
  }

  /** At most one enabled route has this physical name. */
  predicate Unambiguous(db: Store, name: string) {
    |EnabledRoutesNamed(db, name)| <= 1
  }

  lemma RoutedRouteNamed(db: Store, parsed: ParsedSql, ctx: RouteContext, table: ParsedTable, target: RouteTarget)
    requires ValidStore(db) && RoutedAs(db, parsed, ctx, table, target)
    ensures exists route: PhysicalRoute, d: Datasource ::
              && route in EnabledRoutesNamed(db, target.physicalTableName)
              && EnabledDatasource(db, DatasourceCodeFromId(db, route.datasourceId)) == Ok(Some(d))
              && d.code == target.datasourceCode
              && route.routeValue == target.routeValue
              && LogicalTableById(db.logicalTables, route.logicalTableId).Some?
              && LogicalTableById(db.logicalTables, route.logicalTableId).value.tableName == target.logicalTableName
  {
    hide EnabledRouteByName, EnabledLogicalTable, EnabledDatasource, DatasourceCodeFromId, RouteLogical;
    var physical := EnabledRouteByName(db, table.tableName);
    if physical.value.Some? {
      RouteByNameFound(db, table.tableName);
      var route := physical.value.value;
      RouteLogicalTable(db, route);
      assert route in EnabledRoutesNamed(db, target.physicalTableName);
    } else {
      LogicalTableLookup(db, table.tableName);
      LogicalRouteNamed(db, parsed, ctx, table, EnabledLogicalTable(db, table.tableName).value.value, target);
    }
  }

  lemma LogicalRouteNamed(db: Store, parsed: ParsedSql, ctx: RouteContext, table: ParsedTable, logical: LogicalTable,
                          target: RouteTarget)
    requires ValidStore(db) && logical in db.logicalTables
    requires var r := RouteLogical(db, parsed, ctx, table, logical);
             r.Ok? && r.value.Routed? && r.value.target == target
    ensures exists route: PhysicalRoute, d: Datasource ::
              && route in EnabledRoutesNamed(db, target.physicalTableName)
              && EnabledDatasource(db, DatasourceCodeFromId(db, route.datasourceId)) == Ok(Some(d))
              && d.code == target.datasourceCode
              && route.routeValue == target.routeValue
              && LogicalTableById(db.logicalTables, route.logicalTableId).Some?
              && LogicalTableById(db.logicalTables, route.logicalTableId).value.tableName == target.logicalTableName
  {
    hide EnabledRouteByValue, EnabledDatasource, DatasourceCodeFromId, EnabledRule, RequiredFactors, CollectFactors,
         EvaluateRule, ValidStore, RouteKeys, LogicalTableKeys, Diagnose, LogicalTableById;
    var value := target.routeValue;
    StoreKeys(db);
    RouteLookup(db, logical.id, value);
    var route := EnabledRouteByValue(db, logical.id, value).value.value;
    RouteLogicalTable(db, route);
    SameIdSameTable(db.logicalTables, logical, LogicalTableById(db.logicalTables, route.logicalTableId).value);
    assert route in EnabledRoutesNamed(db, target.physicalTableName);
  }

  /** A routed table, named by its physical name, resolves to the same place without any predicate or context. */
  lemma RecheckTable(db: Store, parsed: ParsedSql, ctx: RouteContext, table: ParsedTable, target: RouteTarget,
                     parsed': ParsedSql, ctx': RouteContext, table': ParsedTable)
    requires ValidStore(db) && RoutedAs(db, parsed, ctx, table, target)
    requires table'.tableName == target.physicalTableName
    ensures ResolveTable(db, parsed', ctx', table')
         == if Unambiguous(db, target.physicalTableName) then Ok(Routed(Retarget(target), None))
             else Raise(MultipleResultsFound)
  {
    hide EnabledDatasource, DatasourceCodeFromId, LogicalTableById, RoutedAs, EnabledRoutesNamed, ValidStore,
         RouteLogical, EnabledLogicalTable;
    RoutedRouteNamed(db, parsed, ctx, table, target);
    var route: PhysicalRoute, d: Datasource :|
      && route in EnabledRoutesNamed(db, target.physicalTableName)
      && EnabledDatasource(db, DatasourceCodeFromId(db, route.datasourceId)) == Ok(Some(d))
      && d.code == target.datasourceCode
      && route.routeValue == target.routeValue
      && LogicalTableById(db.logicalTables, route.logicalTableId).Some?
      && LogicalTableById(db.logicalTables, route.logicalTableId).value.tableName == target.logicalTableName;
    var rows := EnabledRoutesNamed(db, target.physicalTableName);
    RowsNamed(db, target.physicalTableName);
    if |rows| == 1 {
      assert rows[0] == route;
    }
  }

  lemma RowsNamed(db: Store, name: string)
    ensures forall r :: r in EnabledRoutesNamed(db, name) ==> r.physicalTableName == name
  {
  }

  function Retargeted(targets: seq<RouteTarget>): (r: seq<RouteTarget>)
    ensures |r| == |targets| && forall i :: 0 <= i < |r| ==> r[i] == Retarget(targets[i])
  {
    seq(|targets|, i requires 0 <= i < |targets| => Retarget(targets[i]))
  }

  predicate AllUnambiguous(db: Store, targets: seq<RouteTarget>) {
    forall i :: 0 <= i < |targets| ==> Unambiguous(db, targets[i].physicalTableName)
  }

  lemma {:induction false} RecheckTables(db: Store, parsed: ParsedSql, ctx: RouteContext, tables: seq<ParsedTable>,
                                         targets: seq<RouteTarget>, parsed': ParsedSql, ctx': RouteContext,
                                         tables': seq<ParsedTable>, done: seq<RouteTarget>)
    requires ValidStore(db) && |tables| == |targets| == |tables'|
    requires forall i :: 0 <= i < |tables| ==> RoutedAs(db, parsed, ctx, tables[i], targets[i])
    requires forall i :: 0 <= i < |tables| ==> tables'[i].tableName == targets[i].physicalTableName
    ensures ResolveFrom(db, parsed', ctx', tables', done, [])
         == if AllUnambiguous(db, targets) then Ok(RouteDecision(true, "ALLOW", done + Retargeted(targets), []))
            else Raise(MultipleResultsFound)
    decreases |tables|
  {
    hide ResolveTable, RoutedAs, ValidStore, Unambiguous;
    if tables == [] {
      assert done + Retargeted(targets) == done;
    } else {
      RecheckTable(db, parsed, ctx, tables[0], targets[0], parsed', ctx', tables'[0]);
      forall i | 0 <= i < |tables| - 1
        ensures RoutedAs(db, parsed, ctx, tables[1..][i], targets[1..][i])
      {
        assert RoutedAs(db, parsed, ctx, tables[i + 1], targets[i + 1]);
      }
      var more := done + [Retarget(targets[0])];
      RecheckTables(db, parsed, ctx, tables[1..], targets[1..], parsed', ctx', tables'[1..], more);
      assert more + Retargeted(targets[1..]) == done + Retargeted(targets);
      assert AllUnambiguous(db, targets) <==>
          Unambiguous(db, targets[0].physicalTableName) && AllUnambiguous(db, targets[1..]) by {
        assert forall i :: 0 < i < |targets| ==> targets[i] == targets[1..][i - 1];
        assert forall i :: 0 <= i < |targets| - 1 ==> targets[1..][i] == targets[i + 1];
      }
    }
  }

  // ------------------------------------------------------------ the filters on the rewritten statement

  lemma {:induction false} SameExplain(db: Store, explain: Explainer, policy: Policy, sql: string,
                                       targets: seq<RouteTarget>)
    ensures FirstRejection(db, explain, policy, sql, Retargeted(targets)) ==
          FirstRejection(db, explain, policy, sql, targets)
    ensures Summaries(db, explain, policy, sql, Retargeted(targets)) == Summaries(db, explain, policy, sql, targets)
    decreases |targets|
  {
    hide EnabledDatasource;
    if targets != [] {
      assert Retargeted(targets)[1..] == Retargeted(targets[1..]);
      SameExplain(db, explain, policy, sql, targets[1..]);
    }
  }

  lemma SameDatasources(db: Store, targets: seq<RouteTarget>)
    ensures (exists i :: 0 <= i < |targets| && !HasEnabledDatasource(db, targets[i]))
       <==> (exists i :: 0 <= i < |Retargeted(targets)| && !HasEnabledDatasource(db, Retargeted(targets)[i]))
  {
    hide EnabledDatasource;
    if i :| 0 <= i < |targets| && !HasEnabledDatasource(db, targets[i]) {
      assert !HasEnabledDatasource(db, Retargeted(targets)[i]);
    }
    if i :| 0 <= i < |Retargeted(targets)| && !HasEnabledDatasource(db, Retargeted(targets)[i]) {
      assert !HasEnabledDatasource(db, targets[i]);
    }
  }

  lemma SameScope(targets: seq<RouteTarget>)
    ensures DatasourceCodes(Retargeted(targets)) == DatasourceCodes(targets)
  {
    var a, b := DatasourceCodes(Retargeted(targets)), DatasourceCodes(targets);
    forall code | code in b
      ensures code in a
    {
      var t :| t in targets && t.datasourceCode == code;
      var i :| 0 <= i < |targets| && targets[i] == t;
      assert Retargeted(targets)[i] in Retargeted(targets);
    }
    forall code | code in a
      ensures code in b
    {
      var t :| t in Retargeted(targets) && t.datasourceCode == code;
      var i :| 0 <= i < |targets| && Retargeted(targets)[i] == t;
      assert targets[i] in targets;
    }
  }

  /** What the limit rule says of the statement when its tables are named `names`, read off the original statement. */
  ghost function LimitUnderNames(db: Store, sql: string, names: seq<string>): FilterDecision {
    match EnabledPolicy(db, DEFAULT_POLICY_CODE)
    case Ok(Some(policy)) =>
      LimitVerdict(policy,
          ParseSpec(sql).(hasLimit := LimitRead(sql, names).Some?, limitValue := LimitValue(LimitRead(sql, names))))
    case _ => ALLOW
  }

  lemma SameLimitVerdict(policy: Policy, p: ParsedSql, q: ParsedSql)
    requires p.hasLimit == q.hasLimit && p.limitValue == q.limitValue
    ensures LimitVerdict(policy, p) == LimitVerdict(policy, q)
  {
  }

  /** An allowed verdict passed the rules before EXPLAIN and every EXPLAIN. */
  lemma VerdictParts(db: Store, explain: Explainer, q: Request)
    requires Verdict(db, explain, q).allowed
    ensures EnabledPolicy(db, DEFAULT_POLICY_CODE).Ok? && EnabledPolicy(db, DEFAULT_POLICY_CODE).value.Some?
    ensures var policy := EnabledPolicy(db, DEFAULT_POLICY_CODE).value.value;
            && BeforeExplain(db, q).allowed && LimitVerdict(policy, q.parsed).allowed
            && FirstRejection(db, explain, policy, q.rewrittenSql, q.targets).allowed
  {
    hide EnabledPolicy, TypeVerdict, ScopeVerdict, LimitVerdict, FirstRejection, HasEnabledDatasource;
  }

  /** The rules before EXPLAIN, asked again: only the limit rule can answer differently. */
  lemma RulesAgain(db: Store, explain: Explainer, q: Request, parsed': ParsedSql)
    requires Verdict(db, explain, q).allowed && parsed'.sqlType == q.parsed.sqlType
    ensures EnabledPolicy(db, DEFAULT_POLICY_CODE).Ok? && EnabledPolicy(db, DEFAULT_POLICY_CODE).value.Some?
    ensures var policy := EnabledPolicy(db, DEFAULT_POLICY_CODE).value.value;
            BeforeExplain(db, Request(parsed', q.rewrittenSql, Retargeted(q.targets))) == LimitVerdict(policy, parsed')
  {
    hide EnabledPolicy, LimitVerdict, FirstRejection, HasEnabledDatasource, DatasourceCodes;
    SameDatasources(db, q.targets);
    SameScope(q.targets);
  }

  /**
   The chain on the rewritten statement, after it allowed the original: the limit rule decides, and
   if it allows then the answer and the summaries are those of the first run.
   */
  lemma ChainAgain(db: Store, explain: Explainer, q: Request, parsed': ParsedSql)
    requires ValidStore(db) && q.targets != []
    requires RunSpec(AS_BUILT, db, explain, q, FRESH).result == Ok(ALLOW) && parsed'.sqlType == q.parsed.sqlType
    ensures EnabledPolicy(db, DEFAULT_POLICY_CODE).Ok? && EnabledPolicy(db, DEFAULT_POLICY_CODE).value.Some?
    ensures var limit := LimitVerdict(EnabledPolicy(db, DEFAULT_POLICY_CODE).value.value, parsed');
            var again := RunSpec(AS_BUILT, db, explain, Request(parsed', q.rewrittenSql, Retargeted(q.targets)), FRESH);
            if limit.allowed then
              && again.result == Ok(ALLOW)
              && again.state.summaries == RunSpec(AS_BUILT, db, explain, q, FRESH).state.summaries
            else again.result == Ok(limit) && again.state.summaries == []
  {
    hide RunSpec, EnabledPolicy, LimitVerdict, FirstRejection, BeforeExplain, Summaries, ValidStore;
    var q' := Request(parsed', q.rewrittenSql, Retargeted(q.targets));
    ChainIsVerdict(db, explain, q);
    VerdictParts(db, explain, q);
    RulesAgain(db, explain, q, parsed');
    var policy := EnabledPolicy(db, DEFAULT_POLICY_CODE).value.value;
    ChainIsVerdict(db, explain, q');
    SameExplain(db, explain, policy, q.rewrittenSql, q.targets);
    AllowIsAllow(db, explain, policy, q.rewrittenSql, q.targets);
  }

  // ------------------------------------------------------------ the main results

  /** The rewritten statement of an allowed check, described by its plans. */
  lemma RewrittenBy(db: Store, explain: Explainer, sql: string, ctx: RouteContext) returns (targets: seq<RouteTarget>)
    requires ValidStore(db)
    requires CheckSpec(db, explain, sql, ctx).Ok? && CheckSpec(db, explain, sql, ctx).value.allowed
    ensures var r := CheckSpec(db, explain, sql, ctx).value;
            && r.rewrittenSql == RewriteSpec(sql, RewritePlans(targets))
            && r.physicalTables == PhysicalNames(targets)
            && PlansFor(ParseSpec(sql).tables, PhysicalNames(targets), RewritePlans(targets))
    ensures var route := ResolveSpec(db, ParseSpec(sql), ctx);
            route.Ok? && route.value.allowed && route.value.targets == targets
    ensures |targets| == |ParseSpec(sql).tables|
  {
    hide Evaluate, ParseSpec, ResolveSpec, Registered, ValidStore, PlansFor, RewriteSpec, RewritePlans, RunSpec;
    targets := AllowedCheck(db, explain, sql, ctx);
    PlansFit(ParseSpec(sql).tables, targets);
    OriginalKept(sql);
  }

  /** The parsed tables are exactly these names, in order. */
  predicate TablesNamed(p: ParsedSql, names: seq<string>) {
    |p.tables| == |names| && forall i :: 0 <= i < |names| ==> p.tables[i].tableName == names[i]
  }

  /**
   Every verdict reached on the statement as written, against the rewritten statement, whatever the
   physical names are. Its type is the same, and the guard allows it unless the names make a second
   statement of it. Its tables are exactly the physical tables if and only if the names are
   identifiers. Then the guard does allow it, and its limit is the one the original has under the
   physical names, which is the original's own if no table that numbers follow becomes or ceases to
   be called LIMIT.
   */
  lemma VerdictsTransfer(db: Store, explain: Explainer, sql: string, ctx: RouteContext)
    requires ValidStore(db)
    requires CheckSpec(db, explain, sql, ctx).Ok? && CheckSpec(db, explain, sql, ctx).value.allowed
    ensures var r := CheckSpec(db, explain, sql, ctx).value;
            var before, after := ParseSpec(sql), ParseSpec(r.rewrittenSql);
            && Evaluate(sql).allowed
            && after.sqlType == before.sqlType
            && (after.isMultiStatement <==> Splits(sql, before.tables, r.physicalTables))
            && Evaluate(r.rewrittenSql) ==
                  (if after.isMultiStatement then PrecheckDecision(false, "MULTI_STATEMENT") else Evaluate(sql))
            && (TablesNamed(after, r.physicalTables) <==> AllIdents(r.physicalTables))
    ensures var r := CheckSpec(db, explain, sql, ctx).value;
            var before, after := ParseSpec(sql), ParseSpec(r.rewrittenSql);
            AllIdents(r.physicalTables) ==>
              && !after.isMultiStatement
              && after.hasLimit == LimitRead(sql, r.physicalTables).Some?
              && after.limitValue == LimitValue(LimitRead(sql, r.physicalTables))
              && (LimitStays(sql, before.tables, r.physicalTables) ==>
                    after.hasLimit == before.hasLimit && after.limitValue == before.limitValue)
  {
    hide CheckSpec, ParseSpec, PlansFor, RewriteSpec, RewritePlans, AllIdents, LimitStays, LimitRead, LimitToken,
         FreeLimit, LimitValue, IsMultiStatement, ResolveSpec, Splits;
    var targets := RewrittenBy(db, explain, sql, ctx);
    var names, plans := PhysicalNames(targets), RewritePlans(targets);
    GuardAfterRewrite(sql, names, plans);
    var again := AllowedCheck(db, explain, sql, ctx);
    AllowedIsSingle(sql);
    if AllIdents(names) {
      LimitAfterRewrite(sql, names, plans);
      ParseAfterRewrite(sql, names, plans);
      GuardParsed(RewriteSpec(sql, plans));
    }
    if TablesNamed(ParseSpec(RewriteSpec(sql, plans)), names) {
      ParsedIdents(RewriteSpec(sql, plans), names);
    }
  }

  /** What the parser calls a table is always an identifier. */
  lemma ParsedIdents(sql: string, names: seq<string>)
    requires TablesNamed(ParseSpec(sql), names)
    ensures AllIdents(names)
  {
    hide ParseSpec, IsIdent;
    ParseSpans(sql);
    var ts := ParseSpec(sql).tables;
    forall i | 0 <= i < |names|
      ensures IsIdent(names[i])
    {
      assert NamesItsSpan(sql, ts[i]);
    }
  }

  lemma GuardParsed(sql: string)
    ensures Evaluate(sql).allowed ==> !ParseSpec(sql).isMultiStatement
  {
    if Evaluate(sql).allowed {
      AllowedIsSingle(sql);
    }
  }

  lemma AllowedIsSingle(sql: string)
    requires Evaluate(sql).allowed
    ensures !ParseSpec(sql).isMultiStatement
  {
    hide IsMultiStatement;
  }

  /** What checking the rewritten statement of an allowed check `r` of `sql` gives. */
  ghost function Rechecked(db: Store, sql: string, r: CheckResult): Result<CheckResult> {
    var limit := LimitUnderNames(db, sql, r.physicalTables);
    var again := r.(parsedSql := Some(ParseSpec(r.rewrittenSql)), routeDiagnostics := []);
    if exists name :: name in r.physicalTables && !Unambiguous(db, name) then Raise(MultipleResultsFound)
    else if !limit.allowed then Ok(again.(allowed := false, reasonCode := limit.reasonCode, explainSummaries := []))
    else Ok(again)
  }

  /**
   Checking the rewritten statement of an allowed check, in any context and whatever the physical
   names are. If the names are identifiers, then: if one is on two enabled routes its lookup raises;
   otherwise the limit rule decides, on the limit that the original statement has under the physical
   names; if it is satisfied the result is the same (only the parse and the diagnostics differ), and
   if not it is the only rule that refuses. If the names make a second statement, the guard refuses it.
   Where no name is on two enabled routes, identifiers are also the only names for which the second
   check goes that way: with any other it refuses, raises, or rewrites once more.
   */
  lemma CheckFixpoint(db: Store, explain: Explainer, sql: string, ctx: RouteContext, ctx': RouteContext)
    requires ValidStore(db)
    requires CheckSpec(db, explain, sql, ctx).Ok? && CheckSpec(db, explain, sql, ctx).value.allowed
    ensures var r := CheckSpec(db, explain, sql, ctx).value;
            var again := CheckSpec(db, explain, r.rewrittenSql, ctx');
            && (AllIdents(r.physicalTables) ==> again == Rechecked(db, sql, r))
            && (Splits(sql, ParseSpec(sql).tables, r.physicalTables) ==> again == Ok(GUARD_REFUSAL))
            && ((forall name :: name in r.physicalTables ==> Unambiguous(db, name)) ==>
                  (again == Rechecked(db, sql, r) <==> AllIdents(r.physicalTables)))
  {
    hide CheckSpec, ParseSpec, AllIdents, ValidStore, Unambiguous, LimitUnderNames, Splits, Evaluate;
    VerdictsTransfer(db, explain, sql, ctx);
    var r := CheckSpec(db, explain, sql, ctx).value;
    if AllIdents(r.physicalTables) {
      IdentsRechecked(db, explain, sql, ctx, ctx');
    }
    if Splits(sql, ParseSpec(sql).tables, r.physicalTables) {
      GuardRefuses(db, explain, r.rewrittenSql, ctx');
    }
    if (forall name :: name in r.physicalTables ==> Unambiguous(db, name)) &&
        CheckSpec(db, explain, r.rewrittenSql, ctx') == Rechecked(db, sql, r) {
      SomeTarget(db, explain, sql, ctx);
      UndiagnosedNames(db, explain, r.rewrittenSql, ctx');
    }
  }

  /** What the check answers when the guard finds a second statement. */
  const GUARD_REFUSAL := CheckResult(false, "MULTI_STATEMENT", None, "", [], [], [], [], [])

  lemma GuardRefuses(db: Store, explain: Explainer, sql: string, ctx: RouteContext)
    requires Evaluate(sql) == PrecheckDecision(false, "MULTI_STATEMENT")
    ensures CheckSpec(db, explain, sql, ctx) == Ok(GUARD_REFUSAL)
  {
    hide Evaluate;
  }

  lemma SomeTarget(db: Store, explain: Explainer, sql: string, ctx: RouteContext)
    requires ValidStore(db)
    requires CheckSpec(db, explain, sql, ctx).Ok? && CheckSpec(db, explain, sql, ctx).value.allowed
    ensures CheckSpec(db, explain, sql, ctx).value.physicalTables != []
  {
    hide CheckSpec, ParseSpec, ResolveSpec, ValidStore, Registered, PlanFits, RewritePlans, PlansFor, RewriteSpec;
    var targets := AllowedCheck(db, explain, sql, ctx);
    var same := RewrittenBy(db, explain, sql, ctx);
  }

  lemma {:induction false} NoRewrites(targets: seq<RouteTarget>)
    requires CountRewrites(targets) == 0
    ensures forall i :: 0 <= i < |targets| ==> targets[i].rewritePlan.None?
  {
    if targets != [] {
      NoRewrites(targets[1..]);
      assert forall i :: 0 < i < |targets| ==> targets[i] == targets[1..][i - 1];
    }
  }

  /** A check that routes without a diagnostic has rewritten nothing, so its physical names are the parsed ones. */
  lemma UndiagnosedNames(db: Store, explain: Explainer, sql: string, ctx: RouteContext)
    requires ValidStore(db) && CheckSpec(db, explain, sql, ctx).Ok?
    requires var r := CheckSpec(db, explain, sql, ctx).value; r.physicalTables != [] && r.routeDiagnostics == []
    ensures AllIdents(CheckSpec(db, explain, sql, ctx).value.physicalTables)
  {
    hide Evaluate, ParseSpec, ResolveSpec, Registered, ValidStore, RewriteSpec, RewritePlans, RunSpec, IsIdent;
    ResolutionInvariant(db, ParseSpec(sql), ctx);
    ParseSpans(sql);
    var targets := ResolveSpec(db, ParseSpec(sql), ctx).value.targets;
    NoRewrites(targets);
    var ts := ParseSpec(sql).tables;
    forall i | 0 <= i < |targets|
      ensures IsIdent(PhysicalNames(targets)[i])
    {
      assert PlanFits(ts[i], targets[i]) && NamesItsSpan(sql, ts[i]);
    }
  }

  lemma IdentsRechecked(db: Store, explain: Explainer, sql: string, ctx: RouteContext, ctx': RouteContext)
    requires ValidStore(db)
    requires CheckSpec(db, explain, sql, ctx).Ok? && CheckSpec(db, explain, sql, ctx).value.allowed
    requires AllIdents(CheckSpec(db, explain, sql, ctx).value.physicalTables)
    ensures var r := CheckSpec(db, explain, sql, ctx).value;
            CheckSpec(db, explain, r.rewrittenSql, ctx') == Rechecked(db, sql, r)
  {
    hide ParseSpec, PlansFor, RewriteSpec, RewritePlans, AllIdents, ResolveSpec, Evaluate, RunSpec, ValidStore,
         LimitRead, LimitValue, LimitVerdict, EnabledPolicy, LimitStays, Unambiguous, AllUnambiguous, Splits;
    VerdictsTransfer(db, explain, sql, ctx);
    var targets := RewrittenBy(db, explain, sql, ctx);
    var r := CheckSpec(db, explain, sql, ctx).value;
    var after := ParseSpec(r.rewrittenSql);
    RecheckRoute(db, sql, ctx, targets, after, ctx');
    NamesOfTargets(db, targets);
    OriginalKept(r.rewrittenSql);
    OriginalKept(sql);
    if AllUnambiguous(db, targets) {
      RecheckRouted(db, explain, sql, ctx, targets, after);
    }
  }

  /** The part of the second check after routing. */
  lemma RecheckRouted(db: Store, explain: Explainer, sql: string, ctx: RouteContext, targets: seq<RouteTarget>,
                      after: ParsedSql)
    requires ValidStore(db) && CheckSpec(db, explain, sql, ctx).Ok? && CheckSpec(db, explain, sql, ctx).value.allowed
    requires var route := ResolveSpec(db, ParseSpec(sql), ctx);
             route.Ok? && route.value.allowed && route.value.targets == targets
    requires after.originalSql == CheckSpec(db, explain, sql, ctx).value.rewrittenSql
    requires after.sqlType == ParseSpec(sql).sqlType
    requires var names := PhysicalNames(targets);
             after.hasLimit == LimitRead(sql, names).Some? && after.limitValue == LimitValue(LimitRead(sql, names))
    ensures var r := CheckSpec(db, explain, sql, ctx).value;
            var limit := LimitUnderNames(db, sql, PhysicalNames(targets));
            CheckRouted(db, explain, after, RouteDecision(true, "ALLOW", Retargeted(targets), []))
            == if limit.allowed then Ok(r.(parsedSql := Some(after), routeDiagnostics := []))
               else Ok(r.(allowed := false, reasonCode := limit.reasonCode, parsedSql := Some(after),
                   explainSummaries := [], routeDiagnostics := []))
  {
    hide ParseSpec, PlansFor, RewriteSpec, RewritePlans, ResolveSpec, Evaluate, RunSpec, ValidStore, LimitRead,
         LimitValue, LimitVerdict, EnabledPolicy, Verdict, Registered, PlanFits;
    var same := AllowedCheck(db, explain, sql, ctx);
    var r := CheckSpec(db, explain, sql, ctx).value;
    OriginalKept(sql);
    var q := Request(ParseSpec(sql), r.rewrittenSql, targets);
    ChainIsVerdict(db, explain, q);
    AllowedOnce(db, explain, q);
    ChainAgain(db, explain, q, after);
    var policy := EnabledPolicy(db, DEFAULT_POLICY_CODE).value.value;
    var names := PhysicalNames(targets);
    SameLimitVerdict(policy, after,
        ParseSpec(sql).(hasLimit := LimitRead(sql, names).Some?, limitValue := LimitValue(LimitRead(sql, names))));
    NoPlans(targets);
    NothingToRewrite(r.rewrittenSql);
    SameNames(targets);
  }

  /** An allowed verdict is plain ALLOW. */
  lemma AllowedOnce(db: Store, explain: Explainer, q: Request)
    ensures Verdict(db, explain, q).allowed ==> Verdict(db, explain, q) == ALLOW
  {
    hide EnabledPolicy, FirstRejection, TypeVerdict, ScopeVerdict, LimitVerdict, HasEnabledDatasource;
    if Verdict(db, explain, q).allowed {
      VerdictParts(db, explain, q);
      AllowIsAllow(db, explain, EnabledPolicy(db, DEFAULT_POLICY_CODE).value.value, q.rewrittenSql, q.targets);
    }
  }

  lemma NamesOfTargets(db: Store, targets: seq<RouteTarget>)
    ensures AllUnambiguous(db, targets) <==> forall name :: name in PhysicalNames(targets) ==> Unambiguous(db, name)
  {
    hide Unambiguous;
    if forall name :: name in PhysicalNames(targets) ==> Unambiguous(db, name) {
      forall i | 0 <= i < |targets|
        ensures Unambiguous(db, targets[i].physicalTableName)
      {
        assert PhysicalNames(targets)[i] in PhysicalNames(targets);
      }
    }
  }

  lemma SameNames(targets: seq<RouteTarget>)
    ensures LogicalNames(Retargeted(targets)) == LogicalNames(targets)
    ensures PhysicalNames(Retargeted(targets)) == PhysicalNames(targets)
    ensures Codes(Retargeted(targets)) == Codes(targets)
  {
  }

  lemma {:induction false} NoPlans(targets: seq<RouteTarget>)
    ensures RewritePlans(Retargeted(targets)) == []
  {
    if targets != [] {
      assert Retargeted(targets)[1..] == Retargeted(targets[1..]);
      NoPlans(targets[1..]);
    }
  }

  lemma NothingToRewrite(sql: string)
    ensures RewriteSpec(sql, []) == sql
  {
  }

  lemma RecheckRoute(db: Store, sql: string, ctx: RouteContext, targets: seq<RouteTarget>, parsed': ParsedSql,
                     ctx': RouteContext)
    requires ValidStore(db)
    requires var route := ResolveSpec(db, ParseSpec(sql), ctx);
             route.Ok? && route.value.allowed && route.value.targets == targets
    requires |parsed'.tables| == |targets| == |ParseSpec(sql).tables|
    requires forall i :: 0 <= i < |targets| ==> parsed'.tables[i].tableName == targets[i].physicalTableName
    ensures ResolveSpec(db, parsed', ctx')
         == if AllUnambiguous(db, targets) then Ok(RouteDecision(true, "ALLOW", Retargeted(targets), []))
            else Raise(MultipleResultsFound)
  {
    hide ParseSpec, ResolveFrom, RoutedAs, ValidStore, AllUnambiguous;
    var parsed := ParseSpec(sql);
    RoutedTargets(db, parsed, ctx);
    RecheckTables(db, parsed, ctx, parsed.tables, targets, parsed', ctx', parsed'.tables, []);
    assert [] + Retargeted(targets) == Retargeted(targets);
  }

  /** The physical names of the enabled routes are identifiers, each on one enabled route. */
  ghost predicate StoreReady(db: Store) {
    forall r :: r in db.routes && r.enabled ==> IsIdent(r.physicalTableName) && Unambiguous(db, r.physicalTableName)
  }

  lemma ReadyTarget(db: Store, target: RouteTarget)
    requires StoreReady(db) && Registered(db, target)
    ensures IsIdent(target.physicalTableName) && Unambiguous(db, target.physicalTableName)
  {
    hide IsIdent, Unambiguous;
  }

  /** The targets of an allowed check on a ready store have identifiers for names, each on one route. */
  lemma ReadyNames(db: Store, explain: Explainer, sql: string, ctx: RouteContext)
    requires ValidStore(db) && StoreReady(db)
    requires CheckSpec(db, explain, sql, ctx).Ok? && CheckSpec(db, explain, sql, ctx).value.allowed
    ensures var names := CheckSpec(db, explain, sql, ctx).value.physicalTables;
            AllIdents(names) && forall name :: name in names ==> Unambiguous(db, name)
  {
    hide CheckSpec, ParseSpec, ValidStore, StoreReady, Registered, PlanFits, IsIdent, Unambiguous, ResolveSpec,
         RewritePlans, PlansFor, RewriteSpec;
    var targets := AllowedCheck(db, explain, sql, ctx);
    var same := RewrittenBy(db, explain, sql, ctx);
    forall i | 0 <= i < |targets|
      ensures IsIdent(targets[i].physicalTableName) && Unambiguous(db, targets[i].physicalTableName)
    {
      ReadyTarget(db, targets[i]);
    }
  }

  /** A limit that stays still satisfies the policy. */
  lemma StayingLimitAllowed(db: Store, explain: Explainer, sql: string, ctx: RouteContext)
    requires ValidStore(db)
    requires CheckSpec(db, explain, sql, ctx).Ok? && CheckSpec(db, explain, sql, ctx).value.allowed
    requires LimitStays(sql, ParseSpec(sql).tables, CheckSpec(db, explain, sql, ctx).value.physicalTables)
    ensures LimitUnderNames(db, sql, CheckSpec(db, explain, sql, ctx).value.physicalTables).allowed
  {
    var r := CheckSpec(db, explain, sql, ctx).value;
    hide ParseSpec, RewriteSpec, RewritePlans, ResolveSpec, Evaluate, RunSpec, ValidStore, LimitRead, LimitValue,
         LimitVerdict, EnabledPolicy, Verdict, Registered, PlanFits, FindLimit, LimitStays;
    LimitReadStays(sql, r.physicalTables);
    LimitOfParse(sql);
    OriginalKept(sql);
    var targets := AllowedCheck(db, explain, sql, ctx);
    var q := Request(ParseSpec(sql), r.rewrittenSql, targets);
    ChainIsVerdict(db, explain, q);
    VerdictParts(db, explain, q);
    var policy := EnabledPolicy(db, DEFAULT_POLICY_CODE).value.value;
    var names := r.physicalTables;
    SameLimitVerdict(policy, ParseSpec(sql),
        ParseSpec(sql).(hasLimit := LimitRead(sql, names).Some?, limitValue := LimitValue(LimitRead(sql, names))));
  }

  /**
   On a ready store, the rewritten statement of an allowed check is allowed in every context, with
   the same text, tables, datasources and summaries, if and only if the limit rule accepts the limit
   read under the physical names; it does whenever no numbered table becomes or ceases to be LIMIT.
   */
  lemma AllowedIsStable(db: Store, explain: Explainer, sql: string, ctx: RouteContext, ctx': RouteContext)
    requires ValidStore(db) && StoreReady(db)
    requires CheckSpec(db, explain, sql, ctx).Ok? && CheckSpec(db, explain, sql, ctx).value.allowed
    ensures var r := CheckSpec(db, explain, sql, ctx).value;
            var again := CheckSpec(db, explain, r.rewrittenSql, ctx');
            && again.Ok?
            && (again.value.allowed <==> LimitUnderNames(db, sql, r.physicalTables).allowed)
            && (again.value.allowed ==> again.value == r.(parsedSql := again.value.parsedSql, routeDiagnostics := []))
            && (LimitStays(sql, ParseSpec(sql).tables, r.physicalTables) ==> again.value.allowed)
  {
    hide CheckSpec, ParseSpec, ValidStore, StoreReady, Unambiguous, LimitUnderNames, LimitStays;
    ReadyNames(db, explain, sql, ctx);
    CheckFixpoint(db, explain, sql, ctx, ctx');
    if LimitStays(sql, ParseSpec(sql).tables, CheckSpec(db, explain, sql, ctx).value.physicalTables) {
      StayingLimitAllowed(db, explain, sql, ctx);
    }
  }
}
