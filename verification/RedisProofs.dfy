/** What an allowed Redis decision guarantees about its execution, and what catalog routing depends on. */
module RedisProofs {
  import opened Wrappers
  import opened Text
  import opened TextMeaning
  import opened Sequences
  import opened Metadata
  import opened Redis
  import opened RedisScope

  // ------------------------------------------------------------ keys

  ghost predicate HasPattern(key: string) {
    exists i :: 0 <= i < |key| && (key[i] == '*' || key[i] == '?' || key[i] == '[')
  }

  /** The key may be read on this datasource. */
  ghost predicate KeyPermitted(settings: Settings, key: string, d: Datasource) {
    key != "" && |key| <= settings.maxKeyLength && !HasPattern(key) && InScope(settings, key, d)
  }

  /** Why a key may not be read: the first of the four demands that it does not meet. */
  ghost predicate Forbidden(settings: Settings, key: string, d: Datasource, reason: string) {
    if key == "" then reason == "REDIS_KEY_EMPTY"
    else if |key| > settings.maxKeyLength then reason == "REDIS_KEY_TOO_LONG"
    else if HasPattern(key) then reason == "REDIS_KEY_PATTERN_DENIED"
    else !InScope(settings, key, d) && reason == "REDIS_KEY_SCOPE_DENIED"
  }

  /** Keys pass exactly when every one of them may be read; otherwise the first that may not decides the reason. */
  lemma {:induction false} KeysValidated(settings: Settings, keys: seq<string>, d: Datasource)
    ensures ValidateKeys(settings, keys, d).None? <==>
          forall i :: 0 <= i < |keys| ==> KeyPermitted(settings, keys[i], d)
    ensures ValidateKeys(settings, keys, d).Some? ==>
              exists i :: 0 <= i < |keys| && Forbidden(settings, keys[i], d, ValidateKeys(settings, keys, d).value)
                          && forall j :: 0 <= j < i ==> KeyPermitted(settings, keys[j], d)
  {
    hide KeyPermitted, Forbidden, KeyFault;
    if keys != [] {
      FaultExactly(settings, keys[0], d);
      KeysValidated(settings, keys[1..], d);
      assert forall i :: 0 < i < |keys| ==> keys[i] == keys[1..][i - 1];
      if KeyFault(settings, keys[0], d).None? && ValidateKeys(settings, keys, d).Some? {
        var reason := ValidateKeys(settings, keys, d).value;
        var i :| 0 <= i < |keys[1..]| && Forbidden(settings, keys[1..][i], d, reason)
                 && forall j :: 0 <= j < i ==> KeyPermitted(settings, keys[1..][j], d);
        assert Forbidden(settings, keys[i + 1], d, reason);
      }
    }
  }

  lemma FaultExactly(settings: Settings, key: string, d: Datasource)
    ensures var fault := KeyFault(settings, key, d);
            && (fault.None? <==> KeyPermitted(settings, key, d))
            && (fault.Some? ==> Forbidden(settings, key, d, fault.value))
  {
    ScopeExactly(settings, key, d);
    hide AllowedPrefixes, InScope, StartsWithOne;
    PatternExactly(key);
    hide HasWildcard, HasPattern;
  }

  lemma PatternExactly(key: string)
    ensures HasWildcard(key) <==> HasPattern(key)
  {
  }

  // ------------------------------------------------------------ catalog routing

  /** An enabled Redis datasource of the catalog that serves the key. */
  ghost predicate Serves(settings: Settings, d: Datasource, catalog: string, key: string) {
    OfCatalog(d, catalog) && (key == "" || InScope(settings, key, d))
  }

  /** The value of the first of the keys that has a non-empty one; the empty text if none has. */
  predicate FirstEntry(m: map<string, string>, keys: seq<string>, v: string) {
    if keys == [] then v == ""
    else if keys[0] in m && m[keys[0]] != "" then v == m[keys[0]]
    else FirstEntry(m, keys[1..], v)
  }

  /** The datasource belongs to the catalog, whatever the case of the name. */
  ghost predicate OfCatalog(d: Datasource, catalog: string) {
    exists name :: FirstEntry(d.extra, ["catlog_name", "catalog_name", "redis_catalog"], name)
                   && SameIgnoringCase(name, catalog)
  }

  lemma FirstOfThree(m: map<string, string>, a: string, b: string, c: string, v: string)
    ensures FirstEntry(m, [a, b, c], v) <==> FirstText(ContextEntry(m, a), ContextEntry(m, b), ContextEntry(m, c)) == v
  {
    FirstOrLater(m, a, [b, c], v);
    FirstOrLater(m, b, [c], v);
    FirstOrLater(m, c, [], v);
    assert [a] + [b, c] == [a, b, c] && [b] + [c] == [b, c] && [c] + [] == [c];
  }

  lemma FirstOrLater(m: map<string, string>, key: string, rest: seq<string>, v: string)
    ensures FirstEntry(m, [key] + rest, v)
       <==> if ContextEntry(m, key) != "" then v == ContextEntry(m, key) else FirstEntry(m, rest, v)
  {
    assert ([key] + rest)[1..] == rest;
  }

  /** The catalog of the request: the first of its three entries that is not empty. */
  lemma CatalogNameExactly(ctx: RedisContext, v: string)
    ensures FirstEntry(ctx, ["catlog_name", "catalog_name", "catalog"], v) <==> CatalogName(ctx) == v
  {
    hide FirstEntry, FirstText, ContextEntry;
    FirstOfThree(ctx, "catlog_name", "catalog_name", "catalog", v);
  }

  lemma CatalogExactly(d: Datasource, catalog: string)
    ensures OfCatalog(d, catalog) <==> Lower(DatasourceCatalog(d)) == Lower(catalog)
  {
    hide FirstEntry, FirstText, ContextEntry, SameIgnoringCase, Lower;
    forall v
      ensures FirstEntry(d.extra, ["catlog_name", "catalog_name", "redis_catalog"], v) <==> DatasourceCatalog(d) == v
    {
      FirstOfThree(d.extra, "catlog_name", "catalog_name", "redis_catalog", v);
    }
    LowerSame(DatasourceCatalog(d), catalog);
  }

  lemma ServesExactly(settings: Settings, d: Datasource, catalog: string, key: string)
    ensures Serves(settings, d, catalog, key) <==>
            Lower(DatasourceCatalog(d)) == Lower(catalog) && (key == "" || KeyAllowed(settings, key, d))
  {
    CatalogExactly(d, catalog);
    ScopeExactly(settings, key, d);
    hide OfCatalog, InScope, KeyAllowed, DatasourceCatalog, Lower;
  }

  /** The order in which the database lists the candidates does not matter. */
  lemma CatalogOrderIndependent(settings: Settings, candidates: seq<Datasource>, others: seq<Datasource>,
                                catalog: string, key: string)
    requires multiset(candidates) == multiset(others)
    ensures RouteByCatalog(settings, candidates, catalog, key) == RouteByCatalog(settings, others, catalog, key)
  {
    hide Filter, KeyAllowed, DatasourceCatalog, Lower;
    FilterPermuted((d: Datasource) => Lower(DatasourceCatalog(d)) == Lower(catalog), candidates, others);
    var m, n := InCatalog(catalog, candidates), InCatalog(catalog, others);
    FilterPermuted((d: Datasource) => key == "" || KeyAllowed(settings, key, d), m, n);
    PermutedOne(m, n);
    PermutedOne(ForKey(settings, key, m), ForKey(settings, key, n));
  }

  /** The positions of the candidates that serve. */
  ghost predicate OnlyAt(settings: Settings, candidates: seq<Datasource>, catalog: string, key: string, i: int) {
    && 0 <= i < |candidates| && Serves(settings, candidates[i], catalog, key)
    && forall j :: 0 <= j < |candidates| && Serves(settings, candidates[j], catalog, key) ==> j == i
  }

  lemma ServingRows(settings: Settings, candidates: seq<Datasource>, catalog: string, key: string)
    ensures ForKey(settings, key, InCatalog(catalog, candidates)) ==
          Filter((d: Datasource) => Serves(settings, d, catalog, key), candidates)
  {
    hide KeyAllowed, DatasourceCatalog, Lower, Serves;
    forall d
      ensures Serves(settings, d, catalog, key) <==>
              Lower(DatasourceCatalog(d)) == Lower(catalog) && (key == "" || KeyAllowed(settings, key, d))
    {
      ServesExactly(settings, d, catalog, key);
    }
    FilterTwice((d: Datasource) => Lower(DatasourceCatalog(d)) == Lower(catalog),
                (d: Datasource) => key == "" || KeyAllowed(settings, key, d),
                (d: Datasource) => Serves(settings, d, catalog, key), candidates);
  }

  /** Catalog routing finds a datasource exactly when one and only one candidate serves, and then finds that one. */
  lemma CatalogFindsTheOnlyOne(settings: Settings, candidates: seq<Datasource>, catalog: string, key: string)
    ensures var r := RouteByCatalog(settings, candidates, catalog, key);
            && (r.Found? <==> exists i :: OnlyAt(settings, candidates, catalog, key, i))
            && (forall i :: OnlyAt(settings, candidates, catalog, key, i) ==> r == Found(candidates[i]))
            && (r.NotFound? ==>
                  r.reasonCode == if exists i :: 0 <= i < |candidates| && Serves(settings, candidates[i], catalog, key)
                                  then "REDIS_ROUTE_AMBIGUOUS" else "REDIS_ROUTE_NOT_FOUND")
  {
    hide Serves, Filter, KeyAllowed, DatasourceCatalog, Lower;
    ServingRows(settings, candidates, catalog, key);
    var p := (d: Datasource) => Serves(settings, d, catalog, key);
    var serving := Filter(p, candidates);
    FilterOneExactly(p, candidates);
    forall i | OnlyAt(settings, candidates, catalog, key, i)
      ensures serving == [candidates[i]]
    {
      FilterAtMostOne(p, candidates);
      assert candidates[i] in serving;
    }
    if i :| 0 <= i < |candidates| && p(candidates[i]) {
      assert candidates[i] in serving;
    }
    if serving != [] {
      assert serving[0] in candidates && p(serving[0]);
      var i :| 0 <= i < |candidates| && candidates[i] == serving[0];
      assert Serves(settings, candidates[i], catalog, key);
    }
    if InCatalog(catalog, candidates) == [] {
      assert serving == [];
    }
    if |serving| == 1 {
      var i :| 0 <= i < |candidates| && p(candidates[i]) && forall j :: 0 <= j < |candidates| && p(candidates[j]) ==>
          j == i;
      OnlyOne(settings, candidates, catalog, key, i);
    }
  }

  lemma OnlyOne(settings: Settings, candidates: seq<Datasource>, catalog: string, key: string, i: int)
    requires var p := (d: Datasource) => Serves(settings, d, catalog, key);
             0 <= i < |candidates| && p(candidates[i]) && forall j :: 0 <= j < |candidates| && p(candidates[j]) ==>
                 j == i
    ensures OnlyAt(settings, candidates, catalog, key, i)
  {
    hide Serves;
  }

  // ------------------------------------------------------------ a routed datasource

  lemma FoundByCode(settings: Settings, metadata: Option<Store>, code: string)
    requires metadata.Some? ==> DatasourceKeys(metadata.value.datasources)
    ensures var r := FindDatasource(settings, metadata, code);
            r.Ok? && (r.value.Some? ==> r.value.value.code == code)
  {
    hide EnabledDatasource;
    if metadata.Some? {
      DatasourceLookup(metadata.value, code);
    }
  }

  lemma CandidateFoundByCode(db: Store, d: Datasource)
    requires DatasourceKeys(db.datasources) && d in Candidates(db)
    ensures EnabledDatasource(db, d.code) == Ok(Some(d))
  {
    hide EnabledDatasource;
    DatasourceLookup(db, d.code);
    SameCodeSameDatasource(db.datasources, d, EnabledDatasource(db, d.code).value.value);
  }

  lemma CatalogFoundIn(settings: Settings, candidates: seq<Datasource>, catalog: string, key: string)
    requires RouteByCatalog(settings, candidates, catalog, key).Found?
    ensures var d := RouteByCatalog(settings, candidates, catalog, key).datasource;
            d in candidates && (key == "" || KeyAllowed(settings, key, d))
  {
    hide Filter, KeyAllowed, DatasourceCatalog, Lower;
    var matching := InCatalog(catalog, candidates);
    var serving := ForKey(settings, key, matching);
    assert serving[0] in serving;
    assert serving[0] in matching;
  }

  /** A resolved datasource is the one its code finds again. */
  lemma ResolvedAgain(settings: Settings, metadata: Option<Store>, c: Command, args: seq<string>, ctx: RedisContext)
    requires metadata.Some? ==> DatasourceKeys(metadata.value.datasources)
    ensures var r := ResolveDatasource(settings, metadata, c, args, ctx);
            && r.Ok?
            && (r.value.Found? ==>
                  && FindDatasource(settings, metadata, r.value.datasource.code) == Ok(Some(r.value.datasource))
                  && (ContextEntry(ctx, "datasource_code") != "" ==>
                        r.value.datasource.code == ContextEntry(ctx, "datasource_code")))
  {
    hide EnabledDatasource, RouteByCatalog, Candidates, CatalogName, RouteKey, DatasourceKeys, ContextEntry;
    FoundByCode(settings, metadata, ContextEntry(ctx, "datasource_code"));
    FoundByCode(settings, metadata, settings.datasourceCode);
    var r := ResolveDatasource(settings, metadata, c, args, ctx);
    if ContextEntry(ctx, "datasource_code") == "" && metadata.Some? && r.Ok? && r.value.Found? {
      CatalogFoundIn(settings, Candidates(metadata.value), CatalogName(ctx), RouteKey(c, args));
      CandidateFoundByCode(metadata.value, r.value.datasource);
    }
  }

  /** A one-key command routed by catalog is never refused because its key is out of scope. */
  lemma CatalogRouteInScope(settings: Settings, db: Store, c: Command, args: seq<string>, ctx: RedisContext)
    requires ContextEntry(ctx, "datasource_code") == "" && |KeyArgs(c, args)| <= 1
    ensures var r := ResolveDatasource(settings, Some(db), c, args, ctx);
            r.Ok? && r.value.Found? ==>
                ValidateKeys(settings, KeyArgs(c, args), r.value.datasource) != Some("REDIS_KEY_SCOPE_DENIED")
  {
    hide RouteByCatalog, Candidates, CatalogName, AllowedPrefixes, StartsWithOne, HasWildcard, ContextEntry;
    var r := ResolveDatasource(settings, Some(db), c, args, ctx);
    if r.Ok? && r.value.Found? {
      CatalogFoundIn(settings, Candidates(db), CatalogName(ctx), RouteKey(c, args));
      var keys := KeyArgs(c, args);
      if keys != [] {
        assert keys[1..] == [];
      }
    }
  }

  // ------------------------------------------------------------ an allowed decision

  /** The argument list is one the command takes: enough to index, within the key limit, and with a range that fits. */
  ghost predicate ArgsFit(settings: Settings, c: Command, args: seq<string>) {
    && (!c.HGet? && !c.HMGet? && !c.MGet? && !c.Exists? && !c.LRange? && !c.ZRange? ==> |args| == 1)
    && (c.HGet? ==> |args| == 2)
    && (c.HMGet? ==> |args| >= 2)
    && (c.MGet? || c.Exists? ==> 1 <= |args| <= settings.maxKeys)
    && (c.LRange? || c.ZRange? ==> |args| == 3 && RangeFits(settings, args[1], args[2]))
  }

  /** Both bounds are numbers, `0 <= start <= stop`, and the range holds at most the maximum. */
  ghost predicate RangeFits(settings: Settings, start: string, stop: string) {
    exists lo, hi :: Range(start, stop, lo, hi) && 0 <= lo <= hi && hi - lo + 1 <= settings.maxItems
  }

  ghost predicate Range(start: string, stop: string, lo: int, hi: int) {
    Writes(start, lo) && Writes(stop, hi)
  }

  lemma RangeRead(start: string, stop: string, lo: int, hi: int)
    ensures Range(start, stop, lo, hi) <==> ParseInt(start) == Some(lo) && ParseInt(stop) == Some(hi)
  {
    hide ParseInt, Writes;
    ParseIntExactly(start, lo);
    ParseIntExactly(stop, hi);
  }

  /** The bounds of a range that fits, read. */
  lemma FittingRange(settings: Settings, start: string, stop: string)
    ensures RangeFits(settings, start, stop)
       <==> && ParseInt(start).Some? && ParseInt(stop).Some?
            && 0 <= ParseInt(start).value <= ParseInt(stop).value
            && ParseInt(stop).value - ParseInt(start).value + 1 <= settings.maxItems
  {
    hide ParseInt, Range;
    if lo, hi :| Range(start, stop, lo, hi) && 0 <= lo <= hi && hi - lo + 1 <= settings.maxItems {
      RangeRead(start, stop, lo, hi);
    }
    if ParseInt(start).Some? && ParseInt(stop).Some? {
      RangeRead(start, stop, ParseInt(start).value, ParseInt(stop).value);
    }
  }

  lemma ArgsValidated(settings: Settings, c: Command, args: seq<string>)
    ensures ValidateArgs(settings, c, args).None? <==> ArgsFit(settings, c, args)
    ensures ArgsFit(settings, c, args) ==> args != []
  {
    hide ParseInt, RangeFits;
    if |args| == 3 {
      FittingRange(settings, args[1], args[2]);
    }
  }

  /**
   A request is allowed exactly when its command is a known read-only one that is not denied, its
   arguments fit, it is routed to a Redis datasource, and every key may be read there.
   */
  lemma CheckAllowsExactly(settings: Settings, metadata: Option<Store>, command: string, args: seq<string>,
                           ctx: RedisContext)
    requires Check(settings, metadata, command, args, ctx).Ok?
    ensures Check(settings, metadata, command, args, ctx).value.allowed
       <==> var name := NormalizeCommand(command);
            && name !in DENIED_COMMANDS && Classify(name).Some? && ArgsFit(settings, Classify(name).value, args)
            && var r := ResolveDatasource(settings, metadata, Classify(name).value, args, ctx);
            && r.Ok? && r.value.Found?
            && Lower(r.value.datasource.dbType) == "redis"
            && forall i :: 0 <= i < |KeyArgs(Classify(name).value, args)| ==>
                 KeyPermitted(settings, KeyArgs(Classify(name).value, args)[i], r.value.datasource)
  {
    NoCommandNoName();
    hide Classify, NormalizeCommand, ValidateArgs, ValidateKeys, ResolveDatasource, ContextEntry, Lower, KeyArgs,
         KeyPermitted, ArgsFit;
    var name := NormalizeCommand(command);
    if Classify(name).Some? {
      var c := Classify(name).value;
      ArgsValidated(settings, c, args);
      var r := ResolveDatasource(settings, metadata, c, args, ctx);
      if r.Ok? && r.value.Found? {
        KeysValidated(settings, KeyArgs(c, args), r.value.datasource);
      }
    }
  }

  lemma NoCommandNoName()
    ensures Classify("").None?
  {
  }

  lemma AllowedParts(settings: Settings, metadata: Option<Store>, command: string, args: seq<string>, ctx: RedisContext)
    requires var r := Check(settings, metadata, command, args, ctx); r.Ok? && r.value.allowed
    ensures var name := NormalizeCommand(command);
            && name !in DENIED_COMMANDS && Classify(name).Some?
            && ValidateArgs(settings, Classify(name).value, args).None?
            && var r := ResolveDatasource(settings, metadata, Classify(name).value, args, ctx);
            && r.Ok? && r.value.Found?
            && Lower(r.value.datasource.dbType) == "redis"
            && ValidateKeys(settings, KeyArgs(Classify(name).value, args), r.value.datasource).None?
            && var asked := ContextEntry(ctx, "datasource_code");
            && Check(settings, metadata, command, args, ctx)
            == Ok(RedisDecision(true, "ALLOW", name, args, if asked != "" then asked else r.value.datasource.code))
  {
    hide Classify, NormalizeCommand, ValidateArgs, ValidateKeys, ResolveDatasource, ContextEntry, Lower, KeyArgs;
  }

  /** Everything an execution of the decision relies on. */
  ghost predicate Vetted(settings: Settings, d: Datasource, decision: RedisDecision) {
    && Lower(d.dbType) == "redis"
    && decision.command !in DENIED_COMMANDS
    && Classify(decision.command).Some?
    && ArgsFit(settings, Classify(decision.command).value, decision.args)
    && (forall key :: key in KeyArgs(Classify(decision.command).value, decision.args) ==>
          KeyPermitted(settings, key, d))
  }

  /** An allowed decision is executed on the very datasource whose scope it was checked against. */
  lemma AllowedIsVetted(settings: Settings, metadata: Option<Store>, command: string, args: seq<string>,
                        ctx: RedisContext)
    requires metadata.Some? ==> DatasourceKeys(metadata.value.datasources)
    requires var r := Check(settings, metadata, command, args, ctx); r.Ok? && r.value.allowed
    ensures var decision := Check(settings, metadata, command, args, ctx).value;
            var found := FindDatasource(settings, metadata, decision.datasourceCode);
            && found.Ok? && found.value.Some?
            && Vetted(settings, found.value.value, decision)
  {
    hide Classify, NormalizeCommand, ValidateArgs, ValidateKeys, ResolveDatasource, ContextEntry, Lower, KeyArgs,
         FindDatasource, Check, ArgsFit, KeyPermitted, DatasourceKeys;
    AllowedParts(settings, metadata, command, args, ctx);
    var name := NormalizeCommand(command);
    var c := Classify(name).value;
    ResolvedAgain(settings, metadata, c, args, ctx);
    ArgsValidated(settings, c, args);
    var d := ResolveDatasource(settings, metadata, c, args, ctx).value.datasource;
    KeysValidated(settings, KeyArgs(c, args), d);
  }

  // ------------------------------------------------------------ totality

  lemma StoreReadsFail(store: RedisStore, key: string)
    ensures HashAt(store, key).Raise? ==> HashAt(store, key).error == ServerError
    ensures ListAt(store, key).Raise? ==> ListAt(store, key).error == ServerError
    ensures SetAt(store, key).Raise? ==> SetAt(store, key).error == ServerError
    ensures ZSetAt(store, key).Raise? ==> ZSetAt(store, key).error == ServerError
    ensures GetReply(store, key).Raise? ==> GetReply(store, key).error == ServerError
  {
  }

  lemma RangeReplyFails(settings: Settings, items: Result<seq<string>>, start: string, stop: string)
    requires RangeFits(settings, start, stop)
    ensures RangeReply(items, start, stop).Raise? ==>
              items.Raise? && RangeReply(items, start, stop).error == items.error
  {
    FittingRange(settings, start, stop);
    hide ParseInt, RangeFits, RangeOf;
  }

  lemma RunKeyedFails(settings: Settings, store: RedisStore, c: Command, args: seq<string>)
    requires ArgsFit(settings, c, args) && !c.MGet? && !c.Exists?
    ensures var r := RunKeyed(store, c, args[0], args[1..]);
            r.Raise? ==> r.error == ServerError
  {
    StoreReadsFail(store, args[0]);
    hide HashAt, ListAt, SetAt, ZSetAt, GetReply, RangeReply, SortTexts, FieldOf, FieldsOf, TimeLeft, TypeName,
         RangeFits;
    match c {
      case LRange => RangeReplyFails(settings, ListAt(store, args[0]), args[1], args[2]);
      case ZRange => RangeReplyFails(settings, ZSetAt(store, args[0]), args[1], args[2]);
      case HGet =>
      case HMGet =>
      case HGetAll =>
      case _ =>
    }
  }

  /** Nothing but the server itself can make a vetted command fail. */
  lemma RunFails(settings: Settings, d: Datasource, store: RedisStore, decision: RedisDecision)
    requires Vetted(settings, d, decision)
    ensures var r := RunCommand(store, decision.command, decision.args);
            r.Raise? ==> r.error == ServerError
    ensures var r := Preflight(settings, store, decision);
            r.Raise? ==> r.error == ServerError
  {
    hide Classify, RunKeyed, Lower, KeyPermitted;
    StoreReadsFail(store, decision.args[0]);
    var c := Classify(decision.command).value;
    if !c.MGet? && !c.Exists? {
      RunKeyedFails(settings, store, c, decision.args);
    }
  }

  /**
   An allowed decision always executes, whatever the server holds and even if it changes in between:
   the datasource is found, no argument is missing or unparsable, and only the server can raise.
   */
  lemma AllowedExecutes(settings: Settings, metadata: Option<Store>, command: string, args: seq<string>,
                        ctx: RedisContext, preflightStore: Datasource -> RedisStore, runStore: Datasource -> RedisStore)
    requires metadata.Some? ==> DatasourceKeys(metadata.value.datasources)
    requires var r := Check(settings, metadata, command, args, ctx); r.Ok? && r.value.allowed
    ensures var r :=
          Execute(settings, metadata, preflightStore, runStore, Check(settings, metadata, command, args, ctx).value);
            match r
            case Raise(error) => error == ServerError
            case Ok(result) =>
              if result.allowed then result.reasonCode == "EXECUTED" &&
                  result.rowCount == |result.rows| <= settings.maxItems
              else result == Refused("REDIS_RESULT_LIMIT_EXCEEDED")
  {
    hide Check, FindDatasource, Vetted, RunCommand, FormatRows, Classify, DatasourceKeys;
    AllowedIsVetted(settings, metadata, command, args, ctx);
    var decision := Check(settings, metadata, command, args, ctx).value;
    assert decision.allowed;
    var d := FindDatasource(settings, metadata, decision.datasourceCode).value.value;
    RunFails(settings, d, preflightStore(d), decision);
    RunFails(settings, d, runStore(d), decision);
    PreflightReason(settings, preflightStore(d), decision);
    hide Preflight;
  }

  lemma PreflightReason(settings: Settings, store: RedisStore, decision: RedisDecision)
    ensures var r := Preflight(settings, store, decision);
            r.Ok? && r.value.Some? ==> r.value.value == "REDIS_RESULT_LIMIT_EXCEEDED"
  {
    hide Classify, HashAt, SetAt;
  }

  // ------------------------------------------------------------ only the checked keys are read

  /** The stores hold the same under the keys. */
  ghost predicate AgreeOn(a: RedisStore, b: RedisStore, keys: seq<string>) {
    forall key :: key in keys ==>
      && (key in a.values <==> key in b.values)
      && (key in a.values ==> a.values[key] == b.values[key])
      && (key in a.expiry <==> key in b.expiry)
      && (key in a.expiry ==> a.expiry[key] == b.expiry[key])
  }

  lemma {:induction false} MGetAgrees(a: RedisStore, b: RedisStore, keys: seq<string>)
    requires AgreeOn(a, b, keys)
    ensures MGetReply(a, keys) == MGetReply(b, keys) && CountExisting(a, keys) == CountExisting(b, keys)
  {
    if keys != [] {
      assert forall key :: key in keys[1..] ==> key in keys;
      assert keys[0] in keys;
      MGetAgrees(a, b, keys[1..]);
    }
  }

  lemma KeyedAgrees(a: RedisStore, b: RedisStore, c: Command, key: string, rest: seq<string>)
    requires AgreeOn(a, b, [key]) && !c.MGet? && !c.Exists?
    ensures RunKeyed(a, c, key, rest) == RunKeyed(b, c, key, rest)
    ensures HashAt(a, key) == HashAt(b, key) && SetAt(a, key) == SetAt(b, key)
  {
    assert key in [key];
    hide ParseInt, RangeOf, SortTexts, FieldOf;
  }

  /** What execution answers depends only on what the server holds under the checked keys. */
  lemma OnlyCheckedKeysRead(settings: Settings, a: RedisStore, b: RedisStore, decision: RedisDecision)
    requires Classify(decision.command).Some? && decision.args != []
    requires AgreeOn(a, b, KeyArgs(Classify(decision.command).value, decision.args))
    ensures RunCommand(a, decision.command, decision.args) == RunCommand(b, decision.command, decision.args)
    ensures Preflight(settings, a, decision) == Preflight(settings, b, decision)
  {
    hide Classify, RunKeyed, HashAt, SetAt;
    var c := Classify(decision.command).value;
    if c.MGet? || c.Exists? {
      MGetAgrees(a, b, decision.args);
    } else {
      assert decision.args[..1] == [decision.args[0]];
      KeyedAgrees(a, b, c, decision.args[0], decision.args[1..]);
    }
  }

  /** Two servers that agree on the permitted keys cannot be told apart by allowed commands. */
  lemma OutOfScopeInvisible(settings: Settings, metadata: Option<Store>, command: string, args: seq<string>,
                            ctx: RedisContext, one: Datasource -> RedisStore, other: Datasource -> RedisStore)
    requires metadata.Some? ==> DatasourceKeys(metadata.value.datasources)
    requires var r := Check(settings, metadata, command, args, ctx); r.Ok? && r.value.allowed
    requires forall d, key: string :: KeyPermitted(settings, key, d) ==> AgreeOn(one(d), other(d), [key])
    ensures var decision := Check(settings, metadata, command, args, ctx).value;
            Execute(settings, metadata, one, one, decision) == Execute(settings, metadata, other, other, decision)
  {
    hide Check, FindDatasource, RunCommand, FormatRows, Classify, Preflight, KeyPermitted, Lower, DatasourceKeys,
         KeyArgs;
    AllowedIsVetted(settings, metadata, command, args, ctx);
    var decision := Check(settings, metadata, command, args, ctx).value;
    var d := FindDatasource(settings, metadata, decision.datasourceCode).value.value;
    var keys := KeyArgs(Classify(decision.command).value, decision.args);
    forall key | key in keys
      ensures AgreeOn(one(d), other(d), [key])
    {
      assert KeyPermitted(settings, key, d);
    }
    AgreeOnEach(one(d), other(d), keys);
    OnlyCheckedKeysRead(settings, one(d), other(d), decision);
  }

  lemma AgreeOnEach(a: RedisStore, b: RedisStore, keys: seq<string>)
    requires forall key :: key in keys ==> AgreeOn(a, b, [key])
    ensures AgreeOn(a, b, keys)
  {
    forall key | key in keys
      ensures key in [key] && AgreeOn(a, b, [key])
    {
    }
  }

  // ------------------------------------------------------------ bounds

  /** The commands whose replies the range check or the preflight keeps within the maximum. */
  predicate BoundedBefore(c: Command) {
    c.HGetAll? || c.SMembers? || c.LRange? || c.ZRange?
  }

  /** The number of rows of any other command: one per key, one per field, or the one reply. */
  function RowsOf(c: Command, args: seq<string>): int {
    if c.MGet? then |args| else if c.HMGet? then |args| - 1 else 1
  }

  /** MGET yields one row per key, in order, with what the server holds under it. */
  lemma {:induction false} MGetRows(store: RedisStore, keys: seq<string>)
    ensures var rows := KeyRows(keys, MGetReply(store, keys));
            |rows| == |keys| && forall i :: 0 <= i < |keys| ==>
                rows[i] == KeyRow(keys[i], ReplyOf(StringAt(store, keys[i])))
  {
    hide StringAt, ReplyOf;
    if keys != [] {
      var replies := MGetReply(store, keys);
      assert replies[1..] == MGetReply(store, keys[1..]);
      MGetRows(store, keys[1..]);
    }
  }

  /** HMGET yields one row per field asked for, in order, with that field's value. */
  lemma {:induction false} HMGetRows(fields: seq<(string, string)>, names: seq<string>)
    ensures var rows := FieldRows(names, FieldsOf(fields, names));
            |rows| == |names| && forall i :: 0 <= i < |names| ==>
                rows[i] == FieldRow(names[i], ReplyOf(FieldOf(fields, names[i])))
  {
    hide FieldOf, ReplyOf;
    if names != [] {
      var replies := FieldsOf(fields, names);
      assert replies[1..] == FieldsOf(fields, names[1..]);
      HMGetRows(fields, names[1..]);
    }
  }

  /** HGETALL yields exactly the fields of the hash, in the order of their names. */
  lemma HGetAllRows(fields: seq<(string, string)>)
    ensures var sorted := SortFields(fields);
            && multiset(sorted) == multiset(fields)
            && (forall i, j :: 0 <= i < j < |sorted| ==> TextLeq(sorted[i].0, sorted[j].0))
            && |PairRows(sorted)| == |fields|
            && forall i :: 0 <= i < |fields| ==> PairRows(sorted)[i] == FieldRow(sorted[i].0, Text(sorted[i].1))
  {
    var leq := (a: (string, string), b: (string, string)) => TextLeq(a.0, b.0);
    forall a, b ensures leq(a, b) || leq(b, a) { TextLeqTotal(a.0, b.0); }
    forall a, b, c | leq(a, b) && leq(b, c) ensures leq(a, c) { TextLeqTransitive(a.0, b.0, c.0); }
    SortByOrdered(leq, fields);
    SortByContents(leq, fields);
    SortBySame(leq, fields);
    var sorted := SortFields(fields);
    assert forall i, j :: 0 <= i < j < |sorted| ==> leq(sorted[i], sorted[j]);
  }

  /**
   LRANGE and ZRANGE within `0 <= start <= stop` yield the elements from `start` on, as many as there
   are up to `stop`.
   */
  lemma RangeRows(items: seq<string>, lo: int, hi: int)
    requires 0 <= lo <= hi
    ensures var r := RangeOf(items, lo, hi);
            && |r| == (if |items| <= lo then 0 else if |items| <= hi then |items| - lo else hi - lo + 1)
            && forall i :: 0 <= i < |r| ==> r[i] == items[lo + i]
  {
  }

  /** Negative positions count from the end of the list, and one before its front stands for the front. */
  lemma RangeFromEnd(items: seq<string>, start: int, stop: int)
    ensures start < 0 ==>
              RangeOf(items, start, stop) == RangeOf(items, if |items| + start < 0 then 0 else |items| + start, stop)
    ensures -|items| <= stop < 0 ==> RangeOf(items, start, stop) == RangeOf(items, start, |items| + stop)
    ensures stop < -|items| ==> RangeOf(items, start, stop) == []
  {
  }

  lemma SortedLengths(items: seq<string>, fields: seq<(string, string)>)
    ensures |SortTexts(items)| == |items| && |SortFields(fields)| == |fields|
  {
    SortBySame((a: string, b: string) => TextLeq(a, b), items);
    SortBySame((a: (string, string), b: (string, string)) => TextLeq(a.0, b.0), fields);
  }

  lemma RangeReplyLength(settings: Settings, items: Result<seq<string>>, start: string, stop: string)
    requires RangeFits(settings, start, stop) && RangeReply(items, start, stop).Ok?
    ensures var r := RangeReply(items, start, stop).value;
            r.Items? && |r.items| <= settings.maxItems
  {
    FittingRange(settings, start, stop);
    hide ParseInt, RangeOf, RangeFits;
    if items.Ok? {
      RangeRows(items.value, ParseInt(start).value, ParseInt(stop).value);
    }
  }

  /** What the reply of a keyed command looks like when the preflight let it through on the same store. */
  lemma KeyedReplyShape(settings: Settings, store: RedisStore, c: Command, args: seq<string>)
    requires ArgsFit(settings, c, args) && !c.MGet? && !c.Exists? && RunKeyed(store, c, args[0], args[1..]).Ok?
    requires c.HGetAll? && HashAt(store, args[0]).Ok? ==> |HashAt(store, args[0]).value| <= settings.maxItems
    requires c.SMembers? && SetAt(store, args[0]).Ok? ==> |SetAt(store, args[0]).value| <= settings.maxItems
    ensures var r := RunKeyed(store, c, args[0], args[1..]).value;
            match c
            case HMGet => r.Replies? && |FieldRows(args[1..], r.replies)| == |args| - 1
            case HGetAll => r.Fields? && |SortFields(r.fields)| <= settings.maxItems
            case LRange => r.Items? && |r.items| <= settings.maxItems
            case ZRange => r.Items? && |r.items| <= settings.maxItems
            case SMembers => r.Items? && |r.items| <= settings.maxItems
            case _ => true
  {
    hide HashAt, ListAt, SetAt, ZSetAt, GetReply, ParseInt, RangeOf, SortTexts, SortFields, FieldOf, TimeLeft, TypeName,
         RangeReply, FieldsOf, FieldRows, RangeFits;
    if c.LRange? {
      RangeReplyLength(settings, ListAt(store, args[0]), args[1], args[2]);
    } else if c.ZRange? {
      RangeReplyLength(settings, ZSetAt(store, args[0]), args[1], args[2]);
    } else if c.HMGet? {
      HMGetRows(HashAt(store, args[0]).value, args[1..]);
    } else if c.HGetAll? {
      SortedLengths([], HashAt(store, args[0]).value);
    } else if c.SMembers? {
      SortedLengths(SetAt(store, args[0]).value, []);
    }
  }

  /** The row count of a vetted command that passed the preflight on the same store. */
  lemma RowBound(settings: Settings, d: Datasource, store: RedisStore, decision: RedisDecision)
    requires Vetted(settings, d, decision)
    requires Preflight(settings, store, decision) == Ok(None)
    requires RunCommand(store, decision.command, decision.args).Ok?
    ensures var c := Classify(decision.command).value;
            var rows :=
                FormatRows(decision.command, decision.args, RunCommand(store, decision.command, decision.args).value);
            if BoundedBefore(c) then |rows| <= settings.maxItems else |rows| == RowsOf(c, decision.args)
  {
    hide Classify, Lower, KeyPermitted, RunKeyed, MGetReply, KeyRows, FieldRows, SortFields, HashAt, SetAt, RangeFits;
    var c := Classify(decision.command).value;
    if c.MGet? {
      MGetRows(store, decision.args);
    } else if !c.Exists? {
      KeyedReplyShape(settings, store, c, decision.args);
    }
  }

  lemma FinalLimitOn(settings: Settings, d: Datasource, store: RedisStore, decision: RedisDecision)
    requires Vetted(settings, d, decision)
    requires Preflight(settings, store, decision) == Ok(None) && ExecuteOn(settings, store, store, decision).Ok?
    ensures var c := Classify(decision.command).value;
            !ExecuteOn(settings, store, store, decision).value.allowed <==>
                !BoundedBefore(c) && RowsOf(c, decision.args) > settings.maxItems
  {
    RowBound(settings, d, store, decision);
    hide Vetted, RunCommand, FormatRows, Classify, Preflight;
  }

  /**
   On a store that does not change between preflight and command, the final row limit rejects exactly
   when an MGET names, or an HMGET asks for, more than the maximum, or the single row of a one-reply
   command is more than it (a maximum below one); the bounded commands that pass the preflight never
   reach it.
   */
  lemma FinalLimitExactly(settings: Settings, metadata: Option<Store>, command: string, args: seq<string>,
                          ctx: RedisContext, stores: Datasource -> RedisStore, decision: RedisDecision, d: Datasource,
                          c: Command)
    requires metadata.Some? ==> DatasourceKeys(metadata.value.datasources)
    requires Check(settings, metadata, command, args, ctx) == Ok(decision) && decision.allowed
    requires FindDatasource(settings, metadata, decision.datasourceCode) == Ok(Some(d))
    requires Classify(decision.command) == Some(c)
    ensures var r := Execute(settings, metadata, stores, stores, decision);
            r.Ok? && Preflight(settings, stores(d), decision) == Ok(None) ==>
              (!r.value.allowed <==> !BoundedBefore(c) && RowsOf(c, args) > settings.maxItems)
  {
    hide Check, FindDatasource, Vetted, Classify, Preflight, DatasourceKeys, ExecuteOn, RowsOf;
    AllowedIsVetted(settings, metadata, command, args, ctx);
    SameArguments(settings, metadata, command, args, ctx);
    if Preflight(settings, stores(d), decision) == Ok(None) && ExecuteOn(settings, stores(d), stores(d), decision).Ok? {
      FinalLimitOn(settings, d, stores(d), decision);
    }
  }

  lemma SameArguments(settings: Settings, metadata: Option<Store>, command: string, args: seq<string>,
                      ctx: RedisContext)
    requires var r := Check(settings, metadata, command, args, ctx); r.Ok? && r.value.allowed
    ensures Check(settings, metadata, command, args, ctx).value.args == args
  {
    hide Check, Classify, NormalizeCommand, ValidateArgs, ValidateKeys, ResolveDatasource, ContextEntry, Lower, KeyArgs;
    AllowedParts(settings, metadata, command, args, ctx);
  }

  // ------------------------------------------------------------ checking a decision again

  lemma UpperSpace(c: char)
    ensures IsSpace(UpperChar(c)) <==> IsSpace(c)
    ensures UpperChar(UpperChar(c)) == UpperChar(c)
  {
  }

  lemma StripEdges(t: string)
    ensures var s := Strip(t); s != "" ==> !IsSpace(s[0]) && !IsSpace(s[|s| - 1])
  {
    var left := TrimLeft(Space, t);
    var s := Strip(t);
    assert left != "" ==> !In(left[0], Space);
    assert s <= left;
  }

  /** A normalized command name is its own normal form. */
  lemma NormalizeIdempotent(command: string)
    ensures NormalizeCommand(NormalizeCommand(command)) == NormalizeCommand(command)
  {
    var s := Strip(command);
    var n := NormalizeCommand(command);
    StripEdges(command);
    if n != "" {
      UpperSpace(s[0]);
      UpperSpace(s[|s| - 1]);
      StripId(n);
    }
    forall i | 0 <= i < |n|
      ensures Upper(n)[i] == n[i]
    {
      UpperSpace(s[i]);
    }
  }

  /** Checking the decision's own command and arguments again gives the same decision. */
  lemma RecheckSame(settings: Settings, metadata: Option<Store>, command: string, args: seq<string>, ctx: RedisContext)
    requires Check(settings, metadata, command, args, ctx).Ok?
    ensures var decision := Check(settings, metadata, command, args, ctx).value;
            Check(settings, metadata, decision.command, decision.args, ctx) == Ok(decision)
  {
    hide Classify, NormalizeCommand, ValidateArgs, ResolveDatasource, ContextEntry, CheckDatasource;
    NormalizeIdempotent(command);
    KeepsCommand(settings, metadata, command, args, ctx);
  }

  lemma KeepsCommand(settings: Settings, metadata: Option<Store>, command: string, args: seq<string>, ctx: RedisContext)
    requires Check(settings, metadata, command, args, ctx).Ok?
    ensures var decision := Check(settings, metadata, command, args, ctx).value;
            decision.command == NormalizeCommand(command) && decision.args == args
  {
    hide Classify, NormalizeCommand, ValidateArgs, ValidateKeys, ResolveDatasource, ContextEntry, Lower, KeyArgs;
  }
}
