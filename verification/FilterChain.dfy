/** The policy filters, run in order over one mutable request context. */
module FilterChain {
  import opened Wrappers
  import opened Sequences
  import opened SqlParser
  import opened Metadata
  import opened Routing

  datatype ExplainPlanSummary = ExplainPlanSummary(
    tableName: string, accessType: string, rowsExamined: int, extra: string, estimatedTableRows: int)

  datatype ExplainDecision = ExplainDecision(allowed: bool, reasonCode: string, summary: Option<ExplainPlanSummary>)

  /** The EXPLAIN evaluation of a statement for one physical table: an answer of the datasource. */
  type Explainer = (Datasource, string, string, Policy) -> ExplainDecision

  datatype FilterDecision = FilterDecision(allowed: bool, reasonCode: string)

  const ALLOW := FilterDecision(true, "ALLOW")

  /** What the filters look at and never change. */
  datatype Request = Request(parsed: ParsedSql, rewrittenSql: string, targets: seq<RouteTarget>)

  /** What the filters record for one another. */
  datatype ChainState = ChainState(
    policy: Option<Policy>, datasources: map<string, Datasource>, summaries: seq<ExplainPlanSummary>)

  const FRESH := ChainState(None, map[], [])

  class FilterContext {
    const request: Request
    var policy: Option<Policy>
    var datasources: map<string, Datasource>
    var explainSummaries: seq<ExplainPlanSummary>

    constructor (request: Request)
      ensures this.request == request && State() == FRESH
    {
      this.request := request;
      policy := None;
      datasources := map[];
      explainSummaries := [];
    }

    function State(): ChainState
      reads this
    {
      ChainState(policy, datasources, explainSummaries)
    }
  }

  datatype SqlFilter = PolicyLoad | PhysicalTableValidate | SqlTypeCheck | CrossDatasource | LimitCheck | ExplainRisk

  const AS_BUILT := [PolicyLoad, PhysicalTableValidate, SqlTypeCheck, CrossDatasource, LimitCheck, ExplainRisk]

  datatype Step = Step(result: Result<FilterDecision>, state: ChainState)

  // ------------------------------------------------------------ what each filter does

  function LoadPolicy(db: Store, q: Request, st: ChainState): Step {
    if q.targets == [] then Step(Raise(IndexError), st)
    else
      match EnabledPolicy(db, DEFAULT_POLICY_CODE)
      case Raise(error) => Step(Raise(error), st)
      case Ok(None) => Step(Ok(FilterDecision(false, "POLICY_NOT_FOUND")), st)
      case Ok(Some(policy)) => Step(Ok(ALLOW), st.(policy := Some(policy)))
  }

  function ValidateTargets(db: Store, targets: seq<RouteTarget>, st: ChainState): Step
    decreases |targets|
  {
    if targets == [] then Step(Ok(ALLOW), st)
    else
      match EnabledDatasource(db, targets[0].datasourceCode)
      case Raise(error) => Step(Raise(error), st)
      case Ok(None) => Step(Ok(FilterDecision(false, "DATASOURCE_NOT_FOUND")), st)
      case Ok(Some(d)) =>
        ValidateTargets(db, targets[1..], st.(datasources := st.datasources[targets[0].datasourceCode := d]))
  }

  function TypeVerdict(policy: Policy, parsed: ParsedSql): FilterDecision {
    if parsed.sqlType !in policy.allowSqlTypes then FilterDecision(false, "SQL_TYPE_DENIED") else ALLOW
  }

  function DatasourceCodes(targets: seq<RouteTarget>): set<string> {
    set t | t in targets :: t.datasourceCode
  }

  function ScopeVerdict(targets: seq<RouteTarget>): FilterDecision {
    if |DatasourceCodes(targets)| > 1 then FilterDecision(false, "CROSS_DATASOURCE_JOIN") else ALLOW
  }

  function LimitVerdict(policy: Policy, parsed: ParsedSql): FilterDecision {
    if policy.requireLimit && !parsed.hasLimit then FilterDecision(false, "LIMIT_REQUIRED")
    else if parsed.limitValue.Some? &&
        parsed.limitValue.value > policy.maxLimit then FilterDecision(false, "LIMIT_EXCEEDED")
    else ALLOW
  }

  function Record(st: ChainState, summary: Option<ExplainPlanSummary>): ChainState {
    if summary.Some? then st.(summaries := st.summaries + [summary.value]) else st
  }

  function ExplainTargets(explain: Explainer, policy: Policy, sql: string, targets: seq<RouteTarget>,
                          st: ChainState): Step
    decreases |targets|
  {
    if targets == [] then Step(Ok(ALLOW), st)
    else if targets[0].datasourceCode !in st.datasources then Step(Raise(KeyError), st)
    else
      var d := explain(st.datasources[targets[0].datasourceCode], sql, targets[0].physicalTableName, policy);
      if !d.allowed then Step(Ok(FilterDecision(false, d.reasonCode)), Record(st, d.summary))
      else ExplainTargets(explain, policy, sql, targets[1..], Record(st, d.summary))
  }

  function ApplySpec(f: SqlFilter, db: Store, explain: Explainer, q: Request, st: ChainState): Step {
    match f
    case PolicyLoad => LoadPolicy(db, q, st)
    case PhysicalTableValidate => ValidateTargets(db, q.targets, st)
    case SqlTypeCheck =>
      if st.policy.None? then Step(Raise(AssertionError), st) else Step(Ok(TypeVerdict(st.policy.value, q.parsed)), st)
    case CrossDatasource => Step(Ok(ScopeVerdict(q.targets)), st)
    case LimitCheck =>
      if st.policy.None? then Step(Raise(AssertionError), st) else Step(Ok(LimitVerdict(st.policy.value, q.parsed)), st)
    case ExplainRisk =>
      if st.policy.None? then Step(Raise(AssertionError), st)
      else ExplainTargets(explain, st.policy.value, q.rewrittenSql, q.targets, st)
  }

  /** Filters run in order until one raises or rejects. */
  function RunSpec(filters: seq<SqlFilter>, db: Store, explain: Explainer, q: Request, st: ChainState): Step
    decreases |filters|
  {
    if filters == [] then Step(Ok(ALLOW), st)
    else
      var step := ApplySpec(filters[0], db, explain, q, st);
      if step.result.Raise? || !step.result.value.allowed then step
      else RunSpec(filters[1..], db, explain, q, step.state)
  }

  // ------------------------------------------------------------ the filters, on the context

  method ApplyPolicyLoad(db: Store, context: FilterContext) returns (r: Result<FilterDecision>)
    modifies context
    ensures Step(r, context.State()) == LoadPolicy(db, context.request, old(context.State()))
  {
    if context.request.targets == [] {
      return Raise(IndexError);
    }
    var policy := EnabledPolicy(db, DEFAULT_POLICY_CODE);
    if policy.Raise? {
      return Raise(policy.error);
    }
    if policy.value.None? {
      return Ok(FilterDecision(false, "POLICY_NOT_FOUND"));
    }
    context.policy := policy.value;
    r := Ok(ALLOW);
  }

  method ApplyPhysicalTableValidate(db: Store, context: FilterContext) returns (r: Result<FilterDecision>)
    modifies context
    ensures Step(r, context.State()) == ValidateTargets(db, context.request.targets, old(context.State()))
  {
    hide EnabledDatasource;
    var targets := context.request.targets;
    var i := 0;
    while i < |targets|
      invariant i <= |targets|
      invariant ValidateTargets(db, targets[i..], context.State()) == ValidateTargets(db, targets, old(context.State()))
    {
      assert targets[i..][1..] == targets[i + 1..];
      var datasource := EnabledDatasource(db, targets[i].datasourceCode);
      if datasource.Raise? {
        return Raise(datasource.error);
      }
      if datasource.value.None? {
        return Ok(FilterDecision(false, "DATASOURCE_NOT_FOUND"));
      }
      context.datasources := context.datasources[targets[i].datasourceCode := datasource.value.value];
      i := i + 1;
    }
    r := Ok(ALLOW);
  }

  method ApplyExplainRisk(explain: Explainer, context: FilterContext) returns (r: Result<FilterDecision>)
    modifies context
    ensures Step(r, context.State())
         == if old(context.policy).None? then Step(Raise(AssertionError), old(context.State()))
            else ExplainTargets(explain, old(context.policy).value, context.request.rewrittenSql,
                                context.request.targets, old(context.State()))
  {
    if context.policy.None? {
      return Raise(AssertionError);
    }
    var policy := context.policy.value;
    var sql, targets := context.request.rewrittenSql, context.request.targets;
    var i := 0;
    while i < |targets|
      invariant i <= |targets|
      invariant ExplainTargets(explain, policy, sql, targets[i..], context.State())
             == ExplainTargets(explain, policy, sql, targets, old(context.State()))
    {
      assert targets[i..][1..] == targets[i + 1..];
      var target := targets[i];
      if target.datasourceCode !in context.datasources {
        return Raise(KeyError);
      }
      var decision := explain(context.datasources[target.datasourceCode], sql, target.physicalTableName, policy);
      if decision.summary.Some? {
        context.explainSummaries := context.explainSummaries + [decision.summary.value];
      }
      if !decision.allowed {
        return Ok(FilterDecision(false, decision.reasonCode));
      }
      i := i + 1;
    }
    r := Ok(ALLOW);
  }

  method Apply(f: SqlFilter, db: Store, explain: Explainer, context: FilterContext) returns (r: Result<FilterDecision>)
    modifies context
    ensures Step(r, context.State()) == ApplySpec(f, db, explain, context.request, old(context.State()))
  {
    match f {
      case PolicyLoad => r := ApplyPolicyLoad(db, context);
      case PhysicalTableValidate => r := ApplyPhysicalTableValidate(db, context);
      case SqlTypeCheck =>
        r := if context.policy.None? then Raise(AssertionError)
            else Ok(TypeVerdict(context.policy.value, context.request.parsed));
      case CrossDatasource => r := Ok(ScopeVerdict(context.request.targets));
      case LimitCheck =>
        r := if context.policy.None? then Raise(AssertionError)
            else Ok(LimitVerdict(context.policy.value, context.request.parsed));
      case ExplainRisk => r := ApplyExplainRisk(explain, context);
    }
  }

  class Chain {
    const filters: seq<SqlFilter>

    constructor (filters: seq<SqlFilter>)
      ensures this.filters == filters
    {
      this.filters := filters;
    }

    /** `FilterChain.run`. */
    method Run(db: Store, explain: Explainer, context: FilterContext) returns (r: Result<FilterDecision>)
      modifies context
      ensures Step(r, context.State()) == RunSpec(filters, db, explain, context.request, old(context.State()))
    {
      hide ApplySpec;
      var i := 0;
      while i < |filters|
        invariant i <= |filters|
        invariant RunSpec(filters[i..], db, explain, context.request, context.State())
               == RunSpec(filters, db, explain, context.request, old(context.State()))
      {
        assert filters[i..][1..] == filters[i + 1..];
        var decision := Apply(filters[i], db, explain, context);
        if decision.Raise? || !decision.value.allowed {
          return decision;
        }
        i := i + 1;
      }
      r := Ok(ALLOW);
    }
  }

  // ------------------------------------------------------------ the chain as one stateless decision

  /** The verdict of EXPLAIN for a target, asked of the datasource its code names. */
  function ExplainVerdict(db: Store, explain: Explainer, policy: Policy, sql: string,
                          target: RouteTarget): Option<ExplainDecision> {
    match EnabledDatasource(db, target.datasourceCode)
    case Ok(Some(d)) => Some(explain(d, sql, target.physicalTableName, policy))
    case _ => None
  }

  predicate Rejects(v: Option<ExplainDecision>) {
    v.Some? && !v.value.allowed
  }

  function FirstRejection(db: Store, explain: Explainer, policy: Policy, sql: string,
                          targets: seq<RouteTarget>): FilterDecision
    decreases |targets|
  {
    if targets == [] then ALLOW
    else
      var v := ExplainVerdict(db, explain, policy, sql, targets[0]);
      if Rejects(v) then FilterDecision(false, v.value.reasonCode)
          else FirstRejection(db, explain, policy, sql, targets[1..])
  }

  predicate HasEnabledDatasource(db: Store, target: RouteTarget) {
    var d := EnabledDatasource(db, target.datasourceCode);
    d.Ok? && d.value.Some?
  }

  /** The first of the five rules before EXPLAIN that fails. */
  function BeforeExplain(db: Store, q: Request): FilterDecision {
    match EnabledPolicy(db, DEFAULT_POLICY_CODE)
    case Ok(Some(policy)) =>
      if exists i :: 0 <= i < |q.targets| &&
          !HasEnabledDatasource(db, q.targets[i]) then FilterDecision(false, "DATASOURCE_NOT_FOUND")
      else if !TypeVerdict(policy, q.parsed).allowed then TypeVerdict(policy, q.parsed)
      else if !ScopeVerdict(q.targets).allowed then ScopeVerdict(q.targets)
      else LimitVerdict(policy, q.parsed)
    case _ => FilterDecision(false, "POLICY_NOT_FOUND")
  }

  /** The first of the six rules that fails, read straight off the store. */
  function Verdict(db: Store, explain: Explainer, q: Request): FilterDecision {
    match EnabledPolicy(db, DEFAULT_POLICY_CODE)
    case Ok(Some(policy)) =>
      if BeforeExplain(db, q).allowed then FirstRejection(db, explain, policy, q.rewrittenSql, q.targets)
          else BeforeExplain(db, q)
    case _ => BeforeExplain(db, q)
  }

  /** Every recorded datasource is the one its code finds. */
  ghost predicate Cached(db: Store, m: map<string, Datasource>) {
    forall code :: code in m ==> EnabledDatasource(db, code) == Ok(Some(m[code]))
  }

  lemma {:induction false} ValidateOutcome(db: Store, targets: seq<RouteTarget>, st: ChainState)
    requires DatasourceKeys(db.datasources) && Cached(db, st.datasources)
    ensures var step := ValidateTargets(db, targets, st);
            && step.state.policy == st.policy && step.state.summaries == st.summaries
            && Cached(db, step.state.datasources)
            && st.datasources.Keys <= step.state.datasources.Keys
            && if exists i :: 0 <= i < |targets| && !HasEnabledDatasource(db, targets[i])
               then step.result == Ok(FilterDecision(false, "DATASOURCE_NOT_FOUND"))
               else step.result == Ok(ALLOW) && forall i :: 0 <= i < |targets| ==>
                   targets[i].datasourceCode in step.state.datasources
    decreases |targets|
  {
    hide EnabledDatasource, DatasourceKeys;
    if targets != [] {
      var code := targets[0].datasourceCode;
      DatasourceLookup(db, code);
      var d := EnabledDatasource(db, code).value;
      if d.Some? {
        var next := st.(datasources := st.datasources[code := d.value]);
        ValidateOutcome(db, targets[1..], next);
        assert code in next.datasources;
        assert HasEnabledDatasource(db, targets[0]);
        assert forall i :: 0 < i < |targets| ==> targets[i] == targets[1..][i - 1];
        assert forall i :: 0 <= i < |targets[1..]| ==> targets[1..][i] == targets[i + 1];
      } else {
        assert !HasEnabledDatasource(db, targets[0]);
      }
    }
  }

  /** The summaries an allowing run records: those of the targets, in order. */
  function Summaries(db: Store, explain: Explainer, policy: Policy, sql: string,
                     targets: seq<RouteTarget>): seq<ExplainPlanSummary>
    decreases |targets|
  {
    if targets == [] then []
    else
      var v := ExplainVerdict(db, explain, policy, sql, targets[0]);
      (if v.Some? && v.value.summary.Some? then [v.value.summary.value] else [])
      + Summaries(db, explain, policy, sql, targets[1..])
  }

  /** The summaries recorded up to and including the first rejection. */
  function Recorded(db: Store, explain: Explainer, policy: Policy, sql: string,
                    targets: seq<RouteTarget>): seq<ExplainPlanSummary>
    decreases |targets|
  {
    if targets == [] then []
    else
      var v := ExplainVerdict(db, explain, policy, sql, targets[0]);
      (if v.Some? && v.value.summary.Some? then [v.value.summary.value] else [])
      + if Rejects(v) then [] else Recorded(db, explain, policy, sql, targets[1..])
  }

  lemma {:induction false} ExplainOutcome(db: Store, explain: Explainer, policy: Policy, sql: string,
                                          targets: seq<RouteTarget>, st: ChainState)
    requires Cached(db, st.datasources)
    requires forall i :: 0 <= i < |targets| ==> targets[i].datasourceCode in st.datasources
    ensures var step := ExplainTargets(explain, policy, sql, targets, st);
            && step.result == Ok(FirstRejection(db, explain, policy, sql, targets))
            && (step.result.value.allowed ==>
                  step.state.summaries == st.summaries + Summaries(db, explain, policy, sql, targets))
    decreases |targets|
  {
    hide EnabledDatasource;
    if targets != [] {
      var code := targets[0].datasourceCode;
      assert EnabledDatasource(db, code) == Ok(Some(st.datasources[code]));
      var d := explain(st.datasources[code], sql, targets[0].physicalTableName, policy);
      assert ExplainVerdict(db, explain, policy, sql, targets[0]) == Some(d);
      if d.allowed {
        ExplainOutcome(db, explain, policy, sql, targets[1..], Record(st, d.summary));
      }
    }
  }

  lemma {:induction false} ExplainRecords(db: Store, explain: Explainer, policy: Policy, sql: string,
                                          targets: seq<RouteTarget>, st: ChainState)
    requires Cached(db, st.datasources)
    requires forall i :: 0 <= i < |targets| ==> targets[i].datasourceCode in st.datasources
    ensures ExplainTargets(explain, policy, sql, targets, st).state.summaries
         == st.summaries + Recorded(db, explain, policy, sql, targets)
    decreases |targets|
  {
    hide EnabledDatasource;
    if targets != [] {
      var code := targets[0].datasourceCode;
      assert EnabledDatasource(db, code) == Ok(Some(st.datasources[code]));
      var d := explain(st.datasources[code], sql, targets[0].physicalTableName, policy);
      assert ExplainVerdict(db, explain, policy, sql, targets[0]) == Some(d);
      if d.allowed {
        ExplainRecords(db, explain, policy, sql, targets[1..], Record(st, d.summary));
      }
    }
  }

  lemma RunUnfold(filters: seq<SqlFilter>, f: SqlFilter, rest: seq<SqlFilter>, db: Store, explain: Explainer,
                  q: Request, st: ChainState)
    requires filters == [f] + rest
    ensures var step := ApplySpec(f, db, explain, q, st);
            RunSpec(filters, db, explain, q, st)
            == if step.result.Raise? || !step.result.value.allowed then step
                else RunSpec(rest, db, explain, q, step.state)
  {
    hide ApplySpec;
    assert filters[1..] == rest;
  }

  lemma RunAfterPolicy(db: Store, explain: Explainer, q: Request, policy: Policy, st: ChainState)
    requires st.policy == Some(policy) && Cached(db, st.datasources) && st.summaries == []
    requires forall i :: 0 <= i < |q.targets| ==> q.targets[i].datasourceCode in st.datasources
    ensures var step := RunSpec([SqlTypeCheck, CrossDatasource, LimitCheck, ExplainRisk], db, explain, q, st);
            && step.result == Ok(
                 if !TypeVerdict(policy, q.parsed).allowed then TypeVerdict(policy, q.parsed)
                 else if !ScopeVerdict(q.targets).allowed then ScopeVerdict(q.targets)
                 else if !LimitVerdict(policy, q.parsed).allowed then LimitVerdict(policy, q.parsed)
                 else FirstRejection(db, explain, policy, q.rewrittenSql, q.targets))
            && (step.result.value.allowed ==>
                  step.state.summaries == Summaries(db, explain, policy, q.rewrittenSql, q.targets))
            && (TypeVerdict(policy, q.parsed).allowed && ScopeVerdict(q.targets).allowed &&
                  LimitVerdict(policy, q.parsed).allowed ==>
                  step.state.summaries == Recorded(db, explain, policy, q.rewrittenSql, q.targets))
            && (!TypeVerdict(policy, q.parsed).allowed || !ScopeVerdict(q.targets).allowed ||
                  !LimitVerdict(policy, q.parsed).allowed ==>
                  step.state.summaries == [])
  {
    hide RunSpec, ExplainTargets, FirstRejection, Summaries, Recorded, TypeVerdict, ScopeVerdict, LimitVerdict, Cached;
    RunUnfold([SqlTypeCheck, CrossDatasource, LimitCheck, ExplainRisk], SqlTypeCheck,
        [CrossDatasource, LimitCheck, ExplainRisk], db, explain, q, st);
    RunUnfold([CrossDatasource, LimitCheck, ExplainRisk], CrossDatasource, [LimitCheck, ExplainRisk], db, explain, q,
        st);
    RunUnfold([LimitCheck, ExplainRisk], LimitCheck, [ExplainRisk], db, explain, q, st);
    RunUnfold([ExplainRisk], ExplainRisk, [], db, explain, q, st);
    RunNone(db, explain, q, ApplySpec(ExplainRisk, db, explain, q, st).state);
    ExplainOutcome(db, explain, policy, q.rewrittenSql, q.targets, st);
    ExplainRecords(db, explain, policy, q.rewrittenSql, q.targets, st);
    AllowIsAllow(db, explain, policy, q.rewrittenSql, q.targets);
  }

  lemma RunNone(db: Store, explain: Explainer, q: Request, st: ChainState)
    ensures RunSpec([], db, explain, q, st) == Step(Ok(ALLOW), st)
  {
  }

  lemma {:induction false} AllowIsAllow(db: Store, explain: Explainer, policy: Policy, sql: string,
                                        targets: seq<RouteTarget>)
    ensures var d := FirstRejection(db, explain, policy, sql, targets);
            d.allowed ==> d == ALLOW
    decreases |targets|
  {
    hide ExplainVerdict;
    if targets != [] {
      AllowIsAllow(db, explain, policy, sql, targets[1..]);
    }
  }

  /**
   The chain as built, on at least one target: it never raises (no failed assertion, empty index,
   missing key or ambiguous row), its verdict is the first failing rule, when it allows it has
   recorded the targets' summaries in order, when EXPLAIN rejects those up to the rejected target, and a
   rule that fails before EXPLAIN leaves no summary.
   */
  lemma ChainIsVerdict(db: Store, explain: Explainer, q: Request)
    requires ValidStore(db) && q.targets != []
    ensures var step := RunSpec(AS_BUILT, db, explain, q, FRESH);
            && step.result == Ok(Verdict(db, explain, q))
            && (step.result.value.allowed ==>
                  && EnabledPolicy(db, DEFAULT_POLICY_CODE).value.Some?
                  && step.state.summaries
                     == Summaries(db, explain, EnabledPolicy(db, DEFAULT_POLICY_CODE).value.value, q.rewrittenSql,
                         q.targets))
            && (BeforeExplain(db, q).allowed ==>
                  step.state.summaries
                  == Recorded(db, explain, EnabledPolicy(db, DEFAULT_POLICY_CODE).value.value, q.rewrittenSql,
                              q.targets))
            && (!BeforeExplain(db, q).allowed ==> step.state.summaries == [])
  {
    PolicyLookup(db, DEFAULT_POLICY_CODE);
    hide RunSpec, FirstRejection, Summaries, Recorded, TypeVerdict, ScopeVerdict, LimitVerdict, EnabledPolicy,
         EnabledDatasource, ValidateTargets, ExplainTargets, HasEnabledDatasource;
    var rest := [SqlTypeCheck, CrossDatasource, LimitCheck, ExplainRisk];
    RunUnfold(AS_BUILT, PolicyLoad, [PhysicalTableValidate] + rest, db, explain, q, FRESH);
    var policy := EnabledPolicy(db, DEFAULT_POLICY_CODE).value;
    if policy.Some? {
      var st := FRESH.(policy := policy);
      RunUnfold([PhysicalTableValidate] + rest, PhysicalTableValidate, rest, db, explain, q, st);
      ValidateOutcome(db, q.targets, st);
      var step := ValidateTargets(db, q.targets, st);
      if step.result == Ok(ALLOW) {
        RunAfterPolicy(db, explain, q, policy.value, step.state);
      }
    }
  }

  // ------------------------------------------------------------ the reason, in the fields of policy and parse

  /** The enabled default policy. */
  ghost predicate DefaultPolicy(db: Store, policy: Policy) {
    policy in db.policies && policy.enabled && policy.policyCode == "default_select_guard"
  }

  ghost predicate Reachable(db: Store, target: RouteTarget) {
    exists d :: d in db.datasources && d.enabled && d.code == target.datasourceCode
  }

  predicate OverLimit(policy: Policy, parsed: ParsedSql) {
    parsed.limitValue.Some? && policy.maxLimit < parsed.limitValue.value
  }

  ghost predicate CrossesDatasources(targets: seq<RouteTarget>) {
    exists i, j :: 0 <= i < j < |targets| && targets[i].datasourceCode != targets[j].datasourceCode
  }

  /** Target `k` is the first whose EXPLAIN is rejected. */
  ghost predicate RejectedFirst(db: Store, explain: Explainer, policy: Policy, sql: string, targets: seq<RouteTarget>,
                                k: int) {
    && 0 <= k < |targets| && Rejects(ExplainVerdict(db, explain, policy, sql, targets[k]))
    && forall j :: 0 <= j < k ==> !Rejects(ExplainVerdict(db, explain, policy, sql, targets[j]))
  }

  /** The summaries up to the first rejection are those of the targets up to that one, or of all. */
  lemma {:induction false} RecordedExactly(db: Store, explain: Explainer, policy: Policy, sql: string,
                                           targets: seq<RouteTarget>, k: nat)
    requires k <= |targets| && forall j :: 0 <= j < k ==> !Rejects(ExplainVerdict(db, explain, policy, sql, targets[j]))
    requires k < |targets| ==> Rejects(ExplainVerdict(db, explain, policy, sql, targets[k]))
    ensures Recorded(db, explain, policy, sql, targets)
         == Summaries(db, explain, policy, sql, targets[..if k < |targets| then k + 1 else k])
    decreases |targets|
  {
    hide ExplainVerdict, Rejects;
    if targets != [] {
      var n := if k < |targets| then k + 1 else k;
      assert targets[..n][1..] == targets[1..][..n - 1];
      if k > 0 {
        assert forall j :: 0 <= j < k - 1 ==> targets[1..][j] == targets[j + 1];
        RecordedExactly(db, explain, policy, sql, targets[1..], k - 1);
      } else {
        assert targets[..n][1..] == [];
      }
    }
  }

  lemma {:induction false} FirstRejectionIs(db: Store, explain: Explainer, policy: Policy, sql: string,
                                            targets: seq<RouteTarget>)
    ensures var d := FirstRejection(db, explain, policy, sql, targets);
            && (forall k :: RejectedFirst(db, explain, policy, sql, targets, k) ==>
                  d == FilterDecision(false, ExplainVerdict(db, explain, policy, sql, targets[k]).value.reasonCode))
            && (d != FilterDecision(true, "ALLOW") ==> exists k :: RejectedFirst(db, explain, policy, sql, targets, k))
    decreases |targets|
  {
    hide ExplainVerdict, Rejects;
    if targets != [] {
      FirstRejectionIs(db, explain, policy, sql, targets[1..]);
      if !Rejects(ExplainVerdict(db, explain, policy, sql, targets[0])) {
        forall k | RejectedFirst(db, explain, policy, sql, targets, k)
          ensures RejectedFirst(db, explain, policy, sql, targets[1..], k - 1)
        {
          assert forall j :: 0 <= j < k - 1 ==> targets[1..][j] == targets[j + 1];
        }
        if k :| RejectedFirst(db, explain, policy, sql, targets[1..], k) {
          assert forall j :: 0 < j <= k ==> targets[j] == targets[1..][j - 1];
          assert RejectedFirst(db, explain, policy, sql, targets, k + 1);
        }
      } else {
        assert RejectedFirst(db, explain, policy, sql, targets, 0);
      }
    }
  }

  lemma SeveralCodes(targets: seq<RouteTarget>)
    ensures |DatasourceCodes(targets)| > 1 <==> CrossesDatasources(targets)
  {
    var codes := DatasourceCodes(targets);
    if i, j :| 0 <= i < j < |targets| && targets[i].datasourceCode != targets[j].datasourceCode {
      assert targets[i] in targets && targets[j] in targets;
      assert {targets[i].datasourceCode, targets[j].datasourceCode} <= codes;
      SubsetSize({targets[i].datasourceCode, targets[j].datasourceCode}, codes);
    } else if targets != [] {
      forall code | code in codes
        ensures code == targets[0].datasourceCode
      {
        var t :| t in targets && t.datasourceCode == code;
        var i :| 0 <= i < |targets| && targets[i] == t;
      }
      SubsetSize(codes, {targets[0].datasourceCode});
    } else {
      assert codes == {};
    }
  }

  lemma VerdictsInFields(policy: Policy, q: Request)
    ensures TypeVerdict(policy, q.parsed)
         == if q.parsed.sqlType in policy.allowSqlTypes then ALLOW else FilterDecision(false, "SQL_TYPE_DENIED")
    ensures ScopeVerdict(q.targets)
         == if CrossesDatasources(q.targets) then FilterDecision(false, "CROSS_DATASOURCE_JOIN") else ALLOW
    ensures LimitVerdict(policy, q.parsed)
         == if policy.requireLimit && !q.parsed.hasLimit then FilterDecision(false, "LIMIT_REQUIRED")
            else if OverLimit(policy, q.parsed) then FilterDecision(false, "LIMIT_EXCEEDED")
            else ALLOW
  {
    SeveralCodes(q.targets);
  }

  lemma PolicyFound(db: Store, policy: Policy)
    requires ValidStore(db) && DefaultPolicy(db, policy)
    ensures EnabledPolicy(db, DEFAULT_POLICY_CODE) == Ok(Some(policy))
  {
    hide EnabledPolicy;
    PolicyLookup(db, DEFAULT_POLICY_CODE);
    var found := EnabledPolicy(db, DEFAULT_POLICY_CODE).value.value;
    var i :| 0 <= i < |db.policies| && db.policies[i] == policy;
    var j :| 0 <= j < |db.policies| && db.policies[j] == found;
  }

  lemma ReachableIsEnabled(db: Store, target: RouteTarget)
    requires ValidStore(db)
    ensures HasEnabledDatasource(db, target) <==> Reachable(db, target)
  {
    hide EnabledDatasource;
    DatasourceLookup(db, target.datasourceCode);
  }

  /**
   The result of the chain as built, rule by rule: under the enabled default policy the reason is that of
   the first of these that fails: every target's datasource is enabled, the type is an allowed one, the
   targets share one datasource, a required limit is there, the limit is at most the maximum, EXPLAIN
   accepts every target. Without that policy the reason is its absence.
   */
  lemma ReasonsExactly(db: Store, explain: Explainer, q: Request)
    requires ValidStore(db) && q.targets != []
    ensures var r := RunSpec(AS_BUILT, db, explain, q, FRESH).result;
            && ((forall policy :: !DefaultPolicy(db, policy)) ==> r == Ok(FilterDecision(false, "POLICY_NOT_FOUND")))
            && forall policy :: DefaultPolicy(db, policy) ==>
                 if exists t :: t in q.targets && !Reachable(db, t) then
                   r == Ok(FilterDecision(false, "DATASOURCE_NOT_FOUND"))
                 else if q.parsed.sqlType !in policy.allowSqlTypes then
                   r == Ok(FilterDecision(false, "SQL_TYPE_DENIED"))
                 else if CrossesDatasources(q.targets) then r == Ok(FilterDecision(false, "CROSS_DATASOURCE_JOIN"))
                 else if policy.requireLimit && !q.parsed.hasLimit then r == Ok(FilterDecision(false, "LIMIT_REQUIRED"))
                 else if OverLimit(policy, q.parsed) then r == Ok(FilterDecision(false, "LIMIT_EXCEEDED"))
                 else
                   && (forall k :: RejectedFirst(db, explain, policy, q.rewrittenSql, q.targets, k) ==>
                         r == Ok(FilterDecision(false, ExplainVerdict(db, explain, policy, q.rewrittenSql,
                             q.targets[k]).value.reasonCode)))
                   && ((forall k :: !RejectedFirst(db, explain, policy, q.rewrittenSql, q.targets, k)) ==>
                         r == Ok(FilterDecision(true, "ALLOW")))
  {
    hide RunSpec, EnabledPolicy, HasEnabledDatasource, FirstRejection, RejectedFirst, ExplainVerdict, TypeVerdict,
         ScopeVerdict, LimitVerdict, ValidStore, DefaultPolicy, Reachable, CrossesDatasources, OverLimit;
    ChainIsVerdict(db, explain, q);
    NoPolicy(db);
    forall t
      ensures HasEnabledDatasource(db, t) <==> Reachable(db, t)
    {
      ReachableIsEnabled(db, t);
    }
    assert forall i :: 0 <= i < |q.targets| ==> q.targets[i] in q.targets;
    forall policy | DefaultPolicy(db, policy)
      ensures EnabledPolicy(db, DEFAULT_POLICY_CODE) == Ok(Some(policy))
    {
      PolicyFound(db, policy);
    }
    if policy :| DefaultPolicy(db, policy) {
      VerdictsInFields(policy, q);
      FirstRejectionIs(db, explain, policy, q.rewrittenSql, q.targets);
    }
  }

  /**
   A filter that finds its context without what an earlier one records raises and changes nothing; the
   chain as built, asked about no target at all, raises at once.
   */
  lemma FiltersNeedContext(f: SqlFilter, db: Store, explain: Explainer, q: Request, st: ChainState)
    ensures st.policy.None? && (f.SqlTypeCheck? || f.LimitCheck? || f.ExplainRisk?) ==>
              ApplySpec(f, db, explain, q, st) == Step(Raise(AssertionError), st)
    ensures f.ExplainRisk? && st.policy.Some? && q.targets != [] && q.targets[0].datasourceCode !in st.datasources ==>
              ApplySpec(f, db, explain, q, st) == Step(Raise(KeyError), st)
    ensures q.targets == [] ==> RunSpec(AS_BUILT, db, explain, q, FRESH) == Step(Raise(IndexError), FRESH)
  {
    RunUnfold(AS_BUILT, PolicyLoad, AS_BUILT[1..], db, explain, q, FRESH);
    hide RunSpec;
  }

  lemma NoPolicy(db: Store)
    requires ValidStore(db)
    ensures (forall policy :: !DefaultPolicy(db, policy)) ==> EnabledPolicy(db, DEFAULT_POLICY_CODE) == Ok(None)
  {
    hide EnabledPolicy;
    PolicyLookup(db, DEFAULT_POLICY_CODE);
    var found := EnabledPolicy(db, DEFAULT_POLICY_CODE).value;
    assert found.Some? ==> DefaultPolicy(db, found.value);
  }

  /** An explainer that allows only with a summary gives an allowed request one summary per target. */
  lemma {:induction false} SummaryPerTarget(db: Store, explain: Explainer, policy: Policy, sql: string,
                                            targets: seq<RouteTarget>)
    requires forall d, s, n, p :: explain(d, s, n, p).allowed ==> explain(d, s, n, p).summary.Some?
    requires forall i :: 0 <= i < |targets| ==> HasEnabledDatasource(db, targets[i])
    requires FirstRejection(db, explain, policy, sql, targets).allowed
    ensures |Summaries(db, explain, policy, sql, targets)| == |targets|
    ensures forall i :: 0 <= i < |targets| ==>
              var v := ExplainVerdict(db, explain, policy, sql, targets[i]);
              v.Some? && v.value.summary == Some(Summaries(db, explain, policy, sql, targets)[i])
    decreases |targets|
  {
    hide EnabledDatasource;
    if targets != [] {
      assert HasEnabledDatasource(db, targets[0]);
      assert forall i :: 0 <= i < |targets[1..]| ==> targets[1..][i] == targets[i + 1];
      SummaryPerTarget(db, explain, policy, sql, targets[1..]);
      assert forall i :: 0 < i < |targets| ==> targets[i] == targets[1..][i - 1];
    }
  }
}
