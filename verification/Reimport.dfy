/**
 Replacing the imported part of the metadata store: ordered deletes and inserts under the store's
 keys and foreign keys, in one transaction.
 */
module Reimport {
  import opened Wrappers
  import opened Sequences
  import opened Metadata
  import opened Importer

  /** The store and the next value of its id counter. */
  datatype Session = Session(db: Store, nextId: int)

  predicate FromImport(extra: map<string, string>) {
    "sync_origin" in extra && extra["sync_origin"] == SYNC_ORIGIN
  }

  const IMPORT_EXTRA: map<string, string> := map["sync_origin" := SYNC_ORIGIN]

  function ImportedTableIds(tables: seq<LogicalTable>): set<int> {
    set t | t in tables && FromImport(t.extra) :: t.id
  }

  function ImportedDatasourceIds(datasources: seq<Datasource>): set<int> {
    set d | d in datasources && FromImport(d.extra) :: d.id
  }

  // ------------------------------------------------------------ deletes

  function RoutesOutside(routes: seq<PhysicalRoute>, ids: set<int>): seq<PhysicalRoute> {
    Filter((r: PhysicalRoute) => r.logicalTableId !in ids, routes)
  }

  function FactorsOutside(factors: seq<RouteFactor>, ids: set<int>): seq<RouteFactor> {
    Filter((f: RouteFactor) => f.logicalTableId !in ids, factors)
  }

  function RulesOutside(rules: seq<RouteRule>, ids: set<int>): seq<RouteRule> {
    Filter((r: RouteRule) => r.logicalTableId !in ids, rules)
  }

  function TablesOutside(tables: seq<LogicalTable>, ids: set<int>): seq<LogicalTable> {
    Filter((t: LogicalTable) => t.id !in ids, tables)
  }

  function DatasourcesOutside(datasources: seq<Datasource>, ids: set<int>): seq<Datasource> {
    Filter((d: Datasource) => d.id !in ids, datasources)
  }

  predicate TableReferenced(db: Store, ids: set<int>) {
    || (exists i :: 0 <= i < |db.factors| && db.factors[i].logicalTableId in ids)
    || (exists i :: 0 <= i < |db.rules| && db.rules[i].logicalTableId in ids)
    || (exists i :: 0 <= i < |db.routes| && db.routes[i].logicalTableId in ids)
  }

  predicate DatasourceReferenced(routes: seq<PhysicalRoute>, ids: set<int>) {
    exists i :: 0 <= i < |routes| && routes[i].datasourceId in ids
  }

  function DeleteTables(s: Session, ids: set<int>): Result<Session> {
    if TableReferenced(s.db, ids) then Raise(IntegrityError)
    else Ok(s.(db := s.db.(logicalTables := TablesOutside(s.db.logicalTables, ids))))
  }

  function DeleteDatasources(s: Session, ids: set<int>): Result<Session> {
    if DatasourceReferenced(s.db.routes, ids) then Raise(IntegrityError)
    else Ok(s.(db := s.db.(datasources := DatasourcesOutside(s.db.datasources, ids))))
  }

  /** The rows that refer to the tables `ids`, deleted. */
  function DeleteChildren(s: Session, ids: set<int>): Session {
    s.(db := s.db.(
       routes := RoutesOutside(s.db.routes, ids),
       factors := FactorsOutside(s.db.factors, ids),
       rules := RulesOutside(s.db.rules, ids)))
  }

  /** `delete_previous_import`. */
  function DeletePreviousImport(s: Session): Result<Session> {
    var ids := ImportedTableIds(s.db.logicalTables);
    match DeleteTables(DeleteChildren(s, ids), ids)
    case Raise(error) => Raise(error)
    case Ok(cleared) => DeleteDatasources(cleared, ImportedDatasourceIds(cleared.db.datasources))
  }

  // ------------------------------------------------------------ inserts

  function NewDatasourceRow(id: int, r: DatasourceRecord): Datasource {
    Datasource(id, r.code, r.displayName, "mysql", r.connection, true, IMPORT_EXTRA, Unset)
  }

  function NewTableRow(id: int, r: LogicalTableRecord): LogicalTable {
    LogicalTable(id, r.tableName, r.routeSource, r.physicalNameTemplate, true, IMPORT_EXTRA)
  }

  function NewFactorRow(id: int, tableId: int, r: FactorRecord): RouteFactor {
    RouteFactor(id, tableId, r.factorName, r.sourceType, r.sourceKey, true, true)
  }

  function NewRuleRow(id: int, tableId: int, r: RuleRecord): RouteRule {
    RouteRule(id, tableId, r.ruleName, r.ruleType, r.expression, true)
  }

  function NewRouteRow(id: int, tableId: int, datasourceId: int, r: RouteRecord): PhysicalRoute {
    PhysicalRoute(id, tableId, r.routeValue, r.physicalTableName, datasourceId, true)
  }

  predicate CodeTaken(ds: seq<Datasource>, code: string) {
    exists i :: 0 <= i < |ds| && ds[i].code == code
  }

  predicate NameTaken(ts: seq<LogicalTable>, name: string) {
    exists i :: 0 <= i < |ts| && ts[i].tableName == name
  }

  predicate FactorTaken(fs: seq<RouteFactor>, tableId: int, name: string) {
    exists i :: 0 <= i < |fs| && fs[i].logicalTableId == tableId && fs[i].factorName == name
  }

  predicate RuleTaken(rs: seq<RouteRule>, tableId: int, name: string) {
    exists i :: 0 <= i < |rs| && rs[i].logicalTableId == tableId && rs[i].ruleName == name
  }

  predicate RouteTaken(rs: seq<PhysicalRoute>, tableId: int, value: string) {
    exists i :: 0 <= i < |rs| && rs[i].logicalTableId == tableId && rs[i].routeValue == value
  }

  function AddDatasource(s: Session, r: DatasourceRecord): Result<Session> {
    if CodeTaken(s.db.datasources, r.code) then Raise(IntegrityError)
    else Ok(Session(s.db.(datasources := s.db.datasources + [NewDatasourceRow(s.nextId, r)]), s.nextId + 1))
  }

  function AddTable(s: Session, r: LogicalTableRecord): Result<Session> {
    if NameTaken(s.db.logicalTables, r.tableName) then Raise(IntegrityError)
    else Ok(Session(s.db.(logicalTables := s.db.logicalTables + [NewTableRow(s.nextId, r)]), s.nextId + 1))
  }

  /** `logical_objects[name].id`: the table just imported under this name. */
  function ImportedTableId(ts: seq<LogicalTable>, name: string): Option<int> {
    if ts == [] then None
    else if FromImport(ts[0].extra) && ts[0].tableName == name then Some(ts[0].id)
    else ImportedTableId(ts[1..], name)
  }

  /** `datasource_objects[code].id`: the datasource just imported under this code. */
  function ImportedDatasourceId(ds: seq<Datasource>, code: string): Option<int> {
    if ds == [] then None
    else if FromImport(ds[0].extra) && ds[0].code == code then Some(ds[0].id)
    else ImportedDatasourceId(ds[1..], code)
  }

  function AddFactor(s: Session, r: FactorRecord): Result<Session> {
    match ImportedTableId(s.db.logicalTables, r.logicalTableName)
    case None => Raise(KeyError)
    case Some(tableId) =>
      if FactorTaken(s.db.factors, tableId, r.factorName) then Raise(IntegrityError)
      else Ok(Session(s.db.(factors := s.db.factors + [NewFactorRow(s.nextId, tableId, r)]), s.nextId + 1))
  }

  function AddRule(s: Session, r: RuleRecord): Result<Session> {
    match ImportedTableId(s.db.logicalTables, r.logicalTableName)
    case None => Raise(KeyError)
    case Some(tableId) =>
      if RuleTaken(s.db.rules, tableId, r.ruleName) then Raise(IntegrityError)
      else Ok(Session(s.db.(rules := s.db.rules + [NewRuleRow(s.nextId, tableId, r)]), s.nextId + 1))
  }

  function AddRoute(s: Session, r: RouteRecord): Result<Session> {
    match (ImportedTableId(s.db.logicalTables, r.logicalTableName),
        ImportedDatasourceId(s.db.datasources, r.datasourceCode))
    case (Some(tableId), Some(datasourceId)) =>
      if RouteTaken(s.db.routes, tableId, r.routeValue) then Raise(IntegrityError)
      else Ok(Session(s.db.(routes := s.db.routes + [NewRouteRow(s.nextId, tableId, datasourceId, r)]), s.nextId + 1))
    case _ => Raise(KeyError)
  }

  /** The inserts of a whole list, in order, stopping at the first refusal. */
  function AddAll<T>(add: (Session, T) -> Result<Session>, s: Session, rs: seq<T>): Result<Session> {
    if rs == [] then Ok(s)
    else
      match AddAll(add, s, rs[..|rs| - 1])
      case Raise(error) => Raise(error)
      case Ok(t) => add(t, rs[|rs| - 1])
  }

  function AddDatasources(s: Session, rs: seq<DatasourceRecord>): Result<Session> { AddAll(AddDatasource, s, rs) }

  function AddTables(s: Session, rs: seq<LogicalTableRecord>): Result<Session> { AddAll(AddTable, s, rs) }

  function AddFactors(s: Session, rs: seq<FactorRecord>): Result<Session> { AddAll(AddFactor, s, rs) }

  function AddRules(s: Session, rs: seq<RuleRecord>): Result<Session> { AddAll(AddRule, s, rs) }

  function AddRoutes(s: Session, rs: seq<RouteRecord>): Result<Session> { AddAll(AddRoute, s, rs) }

  /** `ensure_default_policy`. */
  function EnsureDefaultPolicy(s: Session): Session {
    if exists i :: 0 <= i < |s.db.policies| && s.db.policies[i].policyCode == DEFAULT_POLICY_CODE then s
    else Session(s.db.(policies := s.db.policies +
        [Policy(s.nextId, DEFAULT_POLICY_CODE, ["select"], true, 1000, true)]), s.nextId + 1)
  }

  function Load(s: Session, b: SyncBundle): Result<Session> {
    match AddDatasources(s, b.datasources)
    case Raise(error) => Raise(error)
    case Ok(s1) =>
      match AddTables(s1, b.logicalTables)
      case Raise(error) => Raise(error)
      case Ok(s2) =>
        match AddFactors(s2, b.factors)
        case Raise(error) => Raise(error)
        case Ok(s3) =>
          match AddRules(s3, b.rules)
          case Raise(error) => Raise(error)
          case Ok(s4) => AddRoutes(s4, b.routes)
  }

  /** What `sync_bundle_to_local` commits, or the exception that rolls it back. */
  function SyncSpec(s: Session, b: SyncBundle): Result<Session> {
    match DeletePreviousImport(EnsureDefaultPolicy(s))
    case Raise(error) => Raise(error)
    case Ok(cleared) => Load(cleared, b)
  }

  // ------------------------------------------------------------ the session object

  class MetadataSession {
    var datasources: seq<Datasource>
    var logicalTables: seq<LogicalTable>
    var factors: seq<RouteFactor>
    var rules: seq<RouteRule>
    var routes: seq<PhysicalRoute>
    var policies: seq<Policy>
    var nextId: int

    constructor (s: Session)
      ensures State() == s
    {
      datasources := s.db.datasources;
      logicalTables := s.db.logicalTables;
      factors := s.db.factors;
      rules := s.db.rules;
      routes := s.db.routes;
      policies := s.db.policies;
      nextId := s.nextId;
    }

    function State(): Session
      reads this
    {
      Session(Store(datasources, logicalTables, factors, rules, routes, policies), nextId)
    }

    method Rollback(s: Session)
      modifies this
      ensures State() == s
    {
      datasources := s.db.datasources;
      logicalTables := s.db.logicalTables;
      factors := s.db.factors;
      rules := s.db.rules;
      routes := s.db.routes;
      policies := s.db.policies;
      nextId := s.nextId;
    }

    method EnsurePolicy()
      modifies this
      ensures State() == EnsureDefaultPolicy(old(State()))
    {
      if !(exists i :: 0 <= i < |policies| && policies[i].policyCode == DEFAULT_POLICY_CODE) {
        policies := policies + [Policy(nextId, DEFAULT_POLICY_CODE, ["select"], true, 1000, true)];
        nextId := nextId + 1;
      }
    }

    /** `delete_previous_import`: children first, then the tables, then the datasources. */
    method DeletePrevious() returns (r: Result<()>)
      modifies this
      ensures match DeletePreviousImport(old(State()))
              case Raise(error) => r == Raise(error)
              case Ok(s) => r == Ok(()) && State() == s
    {
      hide RoutesOutside, FactorsOutside, RulesOutside, TablesOutside, DatasourcesOutside, TableReferenced,
           DatasourceReferenced, ImportedTableIds, ImportedDatasourceIds;
      var tableIds := ImportedTableIds(logicalTables);
      routes := RoutesOutside(routes, tableIds);
      factors := FactorsOutside(factors, tableIds);
      rules := RulesOutside(rules, tableIds);
      if TableReferenced(State().db, tableIds) {
        return Raise(IntegrityError);
      }
      logicalTables := TablesOutside(logicalTables, tableIds);
      var datasourceIds := ImportedDatasourceIds(datasources);
      if DatasourceReferenced(routes, datasourceIds) {
        return Raise(IntegrityError);
      }
      datasources := DatasourcesOutside(datasources, datasourceIds);
      r := Ok(());
    }

    method Apply(step: Result<Session>) returns (r: Result<()>)
      modifies this
      ensures match step
              case Raise(error) => r == Raise(error) && State() == old(State())
              case Ok(s) => r == Ok(()) && State() == s
    {
      match step {
        case Raise(error) => r := Raise(error);
        case Ok(s) =>
          datasources, logicalTables := s.db.datasources, s.db.logicalTables;
          factors, rules, routes := s.db.factors, s.db.rules, s.db.routes;
          policies, nextId := s.db.policies, s.nextId;
          r := Ok(());
      }
    }

    /** One insert loop of `sync_bundle_to_local`. */
    method InsertAll<T>(add: (Session, T) -> Result<Session>, records: seq<T>) returns (r: Result<()>)
      modifies this
      ensures match AddAll(add, old(State()), records)
              case Raise(error) => r == Raise(error)
              case Ok(s) => r == Ok(()) && State() == s
    {
      var i := 0;
      while i < |records|
        invariant i <= |records|
        invariant AddAll(add, old(State()), records[..i]) == Ok(State())
      {
        assert records[..i + 1][..i] == records[..i];
        r := Apply(add(State(), records[i]));
        if r.Raise? {
          AddAllRaises(add, old(State()), records, i + 1);
          return;
        }
        i := i + 1;
      }
      assert records[..i] == records;
      r := Ok(());
    }

    /** `sync_bundle_to_local`: commits the whole import, or leaves the store as it was. */
    method Sync(b: SyncBundle) returns (r: Result<()>)
      modifies this
      ensures match SyncSpec(old(State()), b)
              case Raise(error) => r == Raise(error) && State() == old(State())
              case Ok(s) => r == Ok(()) && State() == s
    {
      hide EnsureDefaultPolicy, DeletePreviousImport, AddAll;
      var before := State();
      EnsurePolicy();
      r := DeletePrevious();
      if r.Ok? {
        r := InsertAll(AddDatasource, b.datasources);
        if r.Ok? {
          r := InsertAll(AddTable, b.logicalTables);
          if r.Ok? {
            r := InsertAll(AddFactor, b.factors);
            if r.Ok? {
              r := InsertAll(AddRule, b.rules);
              if r.Ok? {
                r := InsertAll(AddRoute, b.routes);
              }
            }
          }
        }
      }
      if r.Raise? {
        Rollback(before);
      }
    }
  }

  lemma {:induction false} AddAllRaises<T>(add: (Session, T) -> Result<Session>, s: Session, rs: seq<T>, i: nat)
    requires i <= |rs| && AddAll(add, s, rs[..i]).Raise?
    ensures AddAll(add, s, rs) == AddAll(add, s, rs[..i])
    decreases |rs| - i
  {
    if i < |rs| {
      assert rs[..i + 1][..i] == rs[..i];
      AddAllRaises(add, s, rs, i + 1);
    } else {
      assert rs[..i] == rs;
    }
  }
}
