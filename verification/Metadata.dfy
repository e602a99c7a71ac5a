/**
 The metadata store: its rows, its declared keys and foreign keys, the repository lookups over
 it, and the expression language of route rules.
 */
module Metadata {
  import opened Wrappers
  import opened Text
  import opened Sequences

  const SYNC_ORIGIN := "spy.table_config"
  const DEFAULT_POLICY_CODE := "default_select_guard"

  datatype Connection = Connection(
    host: string, port: int, databaseName: string, username: string, passwordSecretRef: string)

  /** The `allowed_key_prefixes` entry of a datasource's extra data. */
  datatype PrefixSpec = Unset | PrefixList(items: seq<string>) | PrefixText(text: string)

  datatype Datasource = Datasource(
    id: int, code: string, displayName: string, dbType: string, connection: Connection,
    enabled: bool, extra: map<string, string>, keyPrefixes: PrefixSpec)

  datatype LogicalTable = LogicalTable(
    id: int, tableName: string, routeSource: string, physicalNameTemplate: string,
    enabled: bool, extra: map<string, string>)

  datatype RouteFactor = RouteFactor(
    id: int, logicalTableId: int, factorName: string, sourceType: string, sourceKey: string,
    required: bool, enabled: bool)

  datatype RouteRule = RouteRule(
    id: int, logicalTableId: int, ruleName: string, ruleType: string, expression: RuleExpr, enabled: bool)

  datatype PhysicalRoute = PhysicalRoute(
    id: int, logicalTableId: int, routeValue: string, physicalTableName: string, datasourceId: int, enabled: bool)

  datatype Policy = Policy(
    id: int, policyCode: string, allowSqlTypes: seq<string>, requireLimit: bool, maxLimit: int, enabled: bool)

  datatype Store = Store(
    datasources: seq<Datasource>,
    logicalTables: seq<LogicalTable>,
    factors: seq<RouteFactor>,
    rules: seq<RouteRule>,
    routes: seq<PhysicalRoute>,
    policies: seq<Policy>)

  // ------------------------------------------------------------ keys and foreign keys

  ghost predicate DatasourceKeys(s: seq<Datasource>) {
    forall i, j :: 0 <= i < j < |s| ==> s[i].id != s[j].id && s[i].code != s[j].code
  }

  ghost predicate LogicalTableKeys(s: seq<LogicalTable>) {
    forall i, j :: 0 <= i < j < |s| ==> s[i].id != s[j].id && s[i].tableName != s[j].tableName
  }

  ghost predicate FactorKeys(s: seq<RouteFactor>) {
    forall i, j :: 0 <= i < j < |s| ==>
      s[i].id != s[j].id && (s[i].logicalTableId, s[i].factorName) != (s[j].logicalTableId, s[j].factorName)
  }

  ghost predicate RuleKeys(s: seq<RouteRule>) {
    forall i, j :: 0 <= i < j < |s| ==>
      s[i].id != s[j].id && (s[i].logicalTableId, s[i].ruleName) != (s[j].logicalTableId, s[j].ruleName)
  }

  ghost predicate RouteKeys(s: seq<PhysicalRoute>) {
    forall i, j :: 0 <= i < j < |s| ==>
      s[i].id != s[j].id && (s[i].logicalTableId, s[i].routeValue) != (s[j].logicalTableId, s[j].routeValue)
  }

  ghost predicate PolicyKeys(s: seq<Policy>) {
    forall i, j :: 0 <= i < j < |s| ==> s[i].id != s[j].id && s[i].policyCode != s[j].policyCode
  }

  predicate HasTable(s: seq<LogicalTable>, id: int) {
    exists i :: 0 <= i < |s| && s[i].id == id
  }

  predicate HasDatasource(s: seq<Datasource>, id: int) {
    exists i :: 0 <= i < |s| && s[i].id == id
  }

  ghost predicate ForeignKeys(db: Store) {
    && (forall r :: r in db.factors ==> HasTable(db.logicalTables, r.logicalTableId))
    && (forall r :: r in db.rules ==> HasTable(db.logicalTables, r.logicalTableId))
    && (forall r :: r in db.routes ==>
          HasTable(db.logicalTables, r.logicalTableId) && HasDatasource(db.datasources, r.datasourceId))
  }

  /** Every declared unique key and foreign key of the schema holds. */
  ghost predicate ValidStore(db: Store) {
    && DatasourceKeys(db.datasources)
    && LogicalTableKeys(db.logicalTables)
    && FactorKeys(db.factors)
    && RuleKeys(db.rules)
    && RouteKeys(db.routes)
    && PolicyKeys(db.policies)
    && ForeignKeys(db)
  }

  // ------------------------------------------------------------ lookups

  /** SQLAlchemy's `scalar_one_or_none`. */
  function OneOrNone<T>(rows: seq<T>): Result<Option<T>> {
    if |rows| == 0 then Ok(None) else if |rows| == 1 then Ok(Some(rows[0])) else Raise(MultipleResultsFound)
  }

  function EnabledDatasource(db: Store, code: string): Result<Option<Datasource>> {
    OneOrNone(Filter((d: Datasource) => d.code == code && d.enabled, db.datasources))
  }

  function EnabledLogicalTable(db: Store, name: string): Result<Option<LogicalTable>> {
    OneOrNone(Filter((t: LogicalTable) => t.tableName == name && t.enabled, db.logicalTables))
  }

  function EnabledRoutesNamed(db: Store, name: string): seq<PhysicalRoute> {
    Filter((r: PhysicalRoute) => r.physicalTableName == name && r.enabled, db.routes)
  }

  function EnabledRouteByName(db: Store, name: string): Result<Option<PhysicalRoute>> {
    OneOrNone(EnabledRoutesNamed(db, name))
  }

  function EnabledRouteByValue(db: Store, tableId: int, value: string): Result<Option<PhysicalRoute>> {
    OneOrNone(Filter((r: PhysicalRoute) => r.logicalTableId == tableId && r.routeValue == value &&
        r.enabled, db.routes))
  }

  function EnabledRoutesOf(db: Store, tableId: int): seq<PhysicalRoute> {
    Filter((r: PhysicalRoute) => r.logicalTableId == tableId && r.enabled, db.routes)
  }

  function RequiredFactors(db: Store, tableId: int): seq<RouteFactor> {
    Filter((f: RouteFactor) => f.logicalTableId == tableId && f.enabled && f.required, db.factors)
  }

  function EnabledRule(db: Store, tableId: int): Result<Option<RouteRule>> {
    OneOrNone(Filter((r: RouteRule) => r.logicalTableId == tableId && r.enabled, db.rules))
  }

  function EnabledPolicy(db: Store, code: string): Result<Option<Policy>> {
    OneOrNone(Filter((p: Policy) => p.policyCode == code && p.enabled, db.policies))
  }

  /** `session.get(DatasourceInstance, id)`. */
  function DatasourceById(s: seq<Datasource>, id: int): (r: Option<Datasource>)
    ensures r.Some? ==> r.value in s && r.value.id == id
    ensures r.None? ==> forall d :: d in s ==> d.id != id
  {
    if s == [] then None else if s[0].id == id then Some(s[0]) else DatasourceById(s[1..], id)
  }

  /** `session.get(LogicalTable, id)`. */
  function LogicalTableById(s: seq<LogicalTable>, id: int): (r: Option<LogicalTable>)
    ensures r.Some? ==> r.value in s && r.value.id == id
    ensures r.None? ==> forall t :: t in s ==> t.id != id
  {
    if s == [] then None else if s[0].id == id then Some(s[0]) else LogicalTableById(s[1..], id)
  }

  /** If no two rows satisfy `p`, looking one up never raises, and finds the row if there is one. */
  lemma {:induction false} KeyLookup<T(!new)>(p: T -> bool, s: seq<T>)
    requires forall i, j :: 0 <= i < j < |s| ==> !(p(s[i]) && p(s[j]))
    ensures OneOrNone(Filter(p, s)).Ok?
    ensures var r := OneOrNone(Filter(p, s)).value;
            if r.Some? then r.value in s && p(r.value) else forall x :: x in s ==> !p(x)
  {
    FilterAtMostOne(p, s);
    var rows := Filter(p, s);
    if rows != [] {
      assert rows[0] in rows;
    } else {
      assert forall x :: x in s ==> x !in rows;
    }
  }

  /** The only one of the rows that satisfies `p`. */
  ghost predicate Only<T(!new)>(p: T -> bool, s: seq<T>, x: T) {
    x in s && p(x) && forall y :: y in s && p(y) ==> y == x
  }

  ghost predicate NoneFits<T(!new)>(p: T -> bool, s: seq<T>) {
    forall x :: x in s ==> !p(x)
  }

  ghost predicate TwoFit<T(!new)>(p: T -> bool, s: seq<T>) {
    exists a, b :: a in s && b in s && a != b && p(a) && p(b)
  }

  /** Among distinct rows the lookup finds the only one that satisfies `p`, and raises exactly when two do. */
  lemma LookupExactly<T(!new)>(p: T -> bool, s: seq<T>)
    requires forall i, j :: 0 <= i < j < |s| ==> s[i] != s[j]
    ensures OneOrNone(Filter(p, s)) == Ok(None) <==> NoneFits(p, s)
    ensures forall x :: OneOrNone(Filter(p, s)) == Ok(Some(x)) <==> Only(p, s, x)
    ensures OneOrNone(Filter(p, s)) == Raise(MultipleResultsFound) <==> TwoFit(p, s)
  {
    var rows := Filter(p, s);
    FilterPairs((a: T, b: T) => a != b, p, s);
    if |rows| == 0 {
      assert forall x :: x in s && p(x) ==> x in rows;
    } else if |rows| == 1 {
      assert rows[0] in rows;
      assert forall x :: x in s && p(x) ==> x in rows;
    } else {
      assert rows[0] in rows && rows[1] in rows && rows[0] != rows[1];
    }
  }

  /** On a valid store the code lookup of datasources never raises and finds the enabled row. */
  lemma DatasourceLookup(db: Store, code: string)
    requires DatasourceKeys(db.datasources)
    ensures EnabledDatasource(db, code).Ok?
    ensures var r := EnabledDatasource(db, code).value;
            && (r.Some? ==> r.value in db.datasources && r.value.code == code && r.value.enabled)
            && (r.None? ==> forall d :: d in db.datasources && d.enabled ==> d.code != code)
  {
    var p := (d: Datasource) => d.code == code && d.enabled;
    KeyLookup(p, db.datasources);
  }

  lemma LogicalTableLookup(db: Store, name: string)
    requires LogicalTableKeys(db.logicalTables)
    ensures EnabledLogicalTable(db, name).Ok?
    ensures var r := EnabledLogicalTable(db, name).value;
            && (r.Some? ==> r.value in db.logicalTables && r.value.tableName == name && r.value.enabled)
            && (r.None? ==> forall t :: t in db.logicalTables && t.enabled ==> t.tableName != name)
  {
    var p := (t: LogicalTable) => t.tableName == name && t.enabled;
    KeyLookup(p, db.logicalTables);
  }

  lemma PolicyLookup(db: Store, code: string)
    requires PolicyKeys(db.policies)
    ensures EnabledPolicy(db, code).Ok?
    ensures var r := EnabledPolicy(db, code).value;
            && (r.Some? ==> r.value in db.policies && r.value.policyCode == code && r.value.enabled)
            && (r.None? ==> forall p :: p in db.policies && p.enabled ==> p.policyCode != code)
  {
    var p := (r: Policy) => r.policyCode == code && r.enabled;
    KeyLookup(p, db.policies);
  }

  lemma RouteLookup(db: Store, tableId: int, value: string)
    requires RouteKeys(db.routes)
    ensures EnabledRouteByValue(db, tableId, value).Ok?
    ensures var r := EnabledRouteByValue(db, tableId, value).value;
            && (r.Some? ==>
                  r.value in db.routes && r.value.logicalTableId == tableId && r.value.routeValue == value &&
                      r.value.enabled)
            && (r.None? ==> forall x :: x in db.routes && x.enabled ==>
                  x.logicalTableId != tableId || x.routeValue != value)
  {
    var p := (r: PhysicalRoute) => r.logicalTableId == tableId && r.routeValue == value && r.enabled;
    KeyLookup(p, db.routes);
  }

  /** Two rows of a keyed table with the same id are the same row. */
  lemma SameIdSameTable(s: seq<LogicalTable>, a: LogicalTable, b: LogicalTable)
    requires LogicalTableKeys(s) && a in s && b in s && a.id == b.id
    ensures a == b
  {
    var i :| 0 <= i < |s| && s[i] == a;
    var j :| 0 <= j < |s| && s[j] == b;
  }

  lemma SameCodeSameDatasource(s: seq<Datasource>, a: Datasource, b: Datasource)
    requires DatasourceKeys(s) && a in s && b in s && (a.id == b.id || a.code == b.code)
    ensures a == b
  {
    var i :| 0 <= i < |s| && s[i] == a;
    var j :| 0 <= j < |s| && s[j] == b;
  }

  // ------------------------------------------------------------ route rules

  /** The rule expressions that the importer and the reference data contain. */
  datatype RuleExpr =
    | Var(name: string)
    | Literal(text: string)
    | Num(n: int)
    | ToInt(arg: RuleExpr)
    | ToStr(arg: RuleExpr)
    | Mod(left: RuleExpr, right: RuleExpr)
    | ReplaceChar(arg: RuleExpr, before: char, after: char)

  datatype RuleValue = TextValue(text: string) | IntValue(n: int)

  /** Python's `%` on integers: the result has the sign of the divisor. */
  function PyMod(a: int, b: int): int
    requires b != 0
  {
    if b > 0 then a % b else -((-a) % (-b))
  }

  function Render(v: RuleValue): string {
    match v
    case TextValue(s) => s
    case IntValue(n) => IntToString(n)
  }

  function Replaced(s: string, before: char, after: char): string {
    seq(|s|, i requires 0 <= i < |s| => if s[i] == before then after else s[i])
  }

  function Eval(e: RuleExpr, env: map<string, string>): Result<RuleValue> {
    match e
    case Var(name) => if name in env then Ok(TextValue(env[name])) else Raise(NameError)
    case Literal(text) => Ok(TextValue(text))
    case Num(n) => Ok(IntValue(n))
    case ToInt(arg) =>
      (match Eval(arg, env)
       case Raise(error) => Raise(error)
       case Ok(IntValue(n)) => Ok(IntValue(n))
       case Ok(TextValue(s)) =>
         match ParseInt(s)
         case None => Raise(ValueError)
         case Some(n) => Ok(IntValue(n)))
    case ToStr(arg) =>
      (match Eval(arg, env)
       case Raise(error) => Raise(error)
       case Ok(v) => Ok(TextValue(Render(v))))
    case Mod(left, right) =>
      (match (Eval(left, env), Eval(right, env))
       case (Raise(error), _) => Raise(error)
       case (_, Raise(error)) => Raise(error)
       case (Ok(IntValue(a)), Ok(IntValue(b))) => if b == 0 then Raise(ZeroDivisionError) else Ok(IntValue(PyMod(a, b)))
       case _ => Raise(TypeError))
    case ReplaceChar(arg, before, after) =>
      match Eval(arg, env)
      case Raise(error) => Raise(error)
      case Ok(TextValue(s)) => Ok(TextValue(Replaced(s, before, after)))
      case Ok(IntValue(_)) => Raise(AttributeError)
  }

  /** `_evaluate_route_rule` with the output format `{value}`. */
  function EvaluateRule(rule: RouteRule, env: map<string, string>): Result<string> {
    match Eval(rule.expression, env)
    case Raise(error) => Raise(error)
    case Ok(v) => Ok(Render(v))
  }
}
