/** Executing a checked statement: one datasource, one fetch, a capped number of rows. */
module Executor {
  import opened Wrappers
  import opened SqlParser
  import opened SqlRewrite
  import opened Precheck
  import opened Metadata
  import opened Routing
  import opened RoutingProofs
  import opened FilterChain
  import opened Checker

  type Row = map<string, string>

  datatype ExecuteResult = ExecuteResult(allowed: bool, reasonCode: string, rows: seq<Row>)

  /** What the datasource returns for a statement; `Fetch` keeps at most `maxLimit + 1` rows of it. */
  type RowSource = (Datasource, string) -> seq<Row>

  /** `_fetch_rows`: `fetchmany(max_limit + 1)`. */
  function Fetch(source: RowSource, d: Datasource, sql: string, maxLimit: int): (rows: seq<Row>)
    ensures rows <= source(d, sql)
    ensures maxLimit >= 0 && |source(d, sql)| <= maxLimit ==> rows == source(d, sql)
    ensures maxLimit >= 0 && |source(d, sql)| > maxLimit ==> |rows| == maxLimit + 1
  {
    var rows := source(d, sql);
    if 0 <= maxLimit + 1 < |rows| then rows[..maxLimit + 1] else rows
  }

  /** The statement as it is sent: the rewritten statement behind an optimizer hint that bounds its running time. */
  function Guarded(sql: string): string {
    "/*+ MAX_EXECUTION_TIME(5000) */ " + sql
  }

  function Distinct(codes: seq<string>): set<string> {
    set c | c in codes
  }

  /** `SqlExecutionService.execute`. */
  function Execute(db: Store, source: RowSource, check: CheckResult): Result<ExecuteResult> {
    if !check.allowed then Ok(ExecuteResult(false, check.reasonCode, []))
    else if |Distinct(check.datasourceCodes)| != 1 then Ok(ExecuteResult(false, "CROSS_DATASOURCE_UNSUPPORTED", []))
    else
      match EnabledDatasource(db, check.datasourceCodes[0])
      case Raise(error) => Raise(error)
      case Ok(None) => Ok(ExecuteResult(false, "DATASOURCE_NOT_FOUND", []))
      case Ok(Some(datasource)) =>
        match EnabledPolicy(db, DEFAULT_POLICY_CODE)
        case Raise(error) => Raise(error)
        case Ok(None) => Ok(ExecuteResult(false, "POLICY_NOT_FOUND", []))
        case Ok(Some(policy)) =>
          var rows := Fetch(source, datasource, Guarded(check.rewrittenSql), policy.maxLimit);
          if |rows| > policy.maxLimit then Ok(ExecuteResult(false, "RESULT_ROWS_EXCEEDED", []))
          else Ok(ExecuteResult(true, "EXECUTED", rows))
  }

  lemma OneCode(codes: seq<string>)
    requires codes != [] && |Distinct(codes)| <= 1
    ensures |Distinct(codes)| == 1
    ensures forall i :: 0 <= i < |codes| ==> codes[i] == codes[0]
  {
    assert codes[0] in Distinct(codes);
    var others := Distinct(codes) - {codes[0]};
    assert |others| == |Distinct(codes)| - 1;
    forall i | 0 <= i < |codes|
      ensures codes[i] == codes[0]
    {
      assert codes[i] in Distinct(codes);
      assert codes[i] !in others;
    }
  }

  /** An allowed verdict of the chain found the policy, every datasource, and one datasource code. */
  lemma AllowedVerdict(db: Store, explain: Explainer, q: Request)
    requires Verdict(db, explain, q).allowed && q.targets != []
    ensures var policy := EnabledPolicy(db, DEFAULT_POLICY_CODE);
            policy.Ok? && policy.value.Some? && LimitVerdict(policy.value.value, q.parsed).allowed
    ensures forall i :: 0 <= i < |q.targets| ==> HasEnabledDatasource(db, q.targets[i])
    ensures |Distinct(Codes(q.targets))| <= 1
  {
    hide EnabledPolicy, HasEnabledDatasource, FirstRejection;
    assert Distinct(Codes(q.targets)) == DatasourceCodes(q.targets) by {
      hide *;
      CodesAreDistinct(q.targets);
    }
  }

  lemma CodesAreDistinct(targets: seq<RouteTarget>)
    ensures Distinct(Codes(targets)) == DatasourceCodes(targets)
  {
    forall c | c in DatasourceCodes(targets)
      ensures c in Distinct(Codes(targets))
    {
      var t :| t in targets && t.datasourceCode == c;
      var i :| 0 <= i < |targets| && targets[i] == t;
      assert Codes(targets)[i] == c;
    }
    forall c | c in Distinct(Codes(targets))
      ensures c in DatasourceCodes(targets)
    {
      var i :| 0 <= i < |Codes(targets)| && Codes(targets)[i] == c;
      assert targets[i] in targets;
    }
  }

  /** The outcome of a fetch: every row if they are within the policy's limit, else the row-limit refusal. */
  function Fetched(rows: seq<Row>, policy: Policy): Result<ExecuteResult> {
    if |rows| <= policy.maxLimit then Ok(ExecuteResult(true, "EXECUTED", rows))
    else Ok(ExecuteResult(false, "RESULT_ROWS_EXCEEDED", []))
  }

  predicate OneCodeOnly(codes: seq<string>) {
    codes != [] && forall i :: 0 <= i < |codes| ==> codes[i] == codes[0]
  }

  lemma OneCodeExactly(codes: seq<string>)
    ensures |Distinct(codes)| == 1 <==> OneCodeOnly(codes)
  {
    if codes != [] {
      if |Distinct(codes)| == 1 {
        OneCode(codes);
      }
      if OneCodeOnly(codes) {
        assert Distinct(codes) == {codes[0]};
      }
    }
  }

  /**
   Executing any check result at all: a refused one is answered with its refusal; then the first of these
   that fails decides: it names one datasource, that is enabled, there is a default policy. Only then
   the statement is sent, behind the hint, to that datasource.
   */
  lemma ExecuteExactly(db: Store, source: RowSource, check: CheckResult)
    requires ValidStore(db)
    ensures var r := Execute(db, source, check);
            if !check.allowed then r == Ok(ExecuteResult(false, check.reasonCode, []))
            else if !OneCodeOnly(check.datasourceCodes) then
              r == Ok(ExecuteResult(false, "CROSS_DATASOURCE_UNSUPPORTED", []))
            else if forall d :: !Serving(db, d, check.datasourceCodes[0]) then
              r == Ok(ExecuteResult(false, "DATASOURCE_NOT_FOUND", []))
            else if forall p :: !DefaultPolicy(db, p) then r == Ok(ExecuteResult(false, "POLICY_NOT_FOUND", []))
            else
              exists d, p :: Serving(db, d, check.datasourceCodes[0]) && DefaultPolicy(db, p)
                && r == Fetched(source(d, "/*+ MAX_EXECUTION_TIME(5000) */ " + check.rewrittenSql), p)
  {
    hide EnabledDatasource, EnabledPolicy, Distinct, ValidStore;
    OneCodeExactly(check.datasourceCodes);
    StoreLookups(db);
    NoPolicy(db);
    if check.allowed && OneCodeOnly(check.datasourceCodes) {
      var code := check.datasourceCodes[0];
      DatasourceLookup(db, code);
      PolicyLookup(db, DEFAULT_POLICY_CODE);
      var d, p := EnabledDatasource(db, code).value, EnabledPolicy(db, DEFAULT_POLICY_CODE).value;
      assert d.Some? ==> Serving(db, d.value, code);
      assert p.Some? ==> DefaultPolicy(db, p.value);
    }
  }

  ghost predicate Serving(db: Store, d: Datasource, code: string) {
    d in db.datasources && d.enabled && d.code == code
  }

  lemma StoreLookups(db: Store)
    requires ValidStore(db)
    ensures DatasourceKeys(db.datasources) && PolicyKeys(db.policies)
  {
  }

  /**
   Executing an allowed check on the unchanged store reaches the fetch: there is exactly one
   datasource, it and the policy are found, the hinted rewritten statement is what is sent, a successful
   result is everything the datasource returned and at most the policy's limit, and the only
   rejection left is a result that is too large (which under a negative limit every result is).
   */
  lemma AllowedReachesFetch(db: Store, explain: Explainer, sql: string, ctx: RouteContext, source: RowSource)
    requires ValidStore(db)
    requires CheckSpec(db, explain, sql, ctx).Ok? && CheckSpec(db, explain, sql, ctx).value.allowed
    ensures var check := CheckSpec(db, explain, sql, ctx).value;
            exists datasource: Datasource, policy: Policy ::
              && datasource in db.datasources && datasource.enabled
              && (forall i :: 0 <= i < |check.datasourceCodes| ==> check.datasourceCodes[i] == datasource.code)
              && EnabledPolicy(db, DEFAULT_POLICY_CODE) == Ok(Some(policy))
              && Execute(db, source, check)
                 == Fetched(source(datasource, "/*+ MAX_EXECUTION_TIME(5000) */ " + check.rewrittenSql), policy)
  {
    hide ParseSpec, ResolveSpec, Registered, PlanFits, Evaluate, RunSpec, Verdict, RewriteSpec, RewritePlans,
         EnabledDatasource, EnabledPolicy;
    var targets := AllowedCheck(db, explain, sql, ctx);
    var check := CheckSpec(db, explain, sql, ctx).value;
    OriginalKept(sql);
    var q := Request(ParseSpec(sql), RewriteSpec(sql, RewritePlans(targets)), targets);
    ChainIsVerdict(db, explain, q);
    AllowedVerdict(db, explain, q);
    OneCode(check.datasourceCodes);
    assert HasEnabledDatasource(db, targets[0]);
    var code := check.datasourceCodes[0];
    DatasourceLookup(db, code);
    var datasource := EnabledDatasource(db, code).value.value;
    var policy := EnabledPolicy(db, DEFAULT_POLICY_CODE).value.value;
    assert Execute(db, source, check)
        == Fetched(source(datasource, "/*+ MAX_EXECUTION_TIME(5000) */ " + check.rewrittenSql), policy);
  }
}
