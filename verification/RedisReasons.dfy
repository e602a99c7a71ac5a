/** Which Redis requests are allowed and why others are refused, read off the request, the metadata and the settings. */
module RedisReasons {
  import opened Wrappers
  import opened Text
  import opened TextMeaning
  import opened Sequences
  import opened Metadata
  import opened Redis
  import opened RedisProofs

  // ------------------------------------------------------------ command names

  function NameOf(c: Command): string {
    match c
    case Get => "GET"
    case MGet => "MGET"
    case HGet => "HGET"
    case HMGet => "HMGET"
    case HGetAll => "HGETALL"
    case Exists => "EXISTS"
    case Ttl => "TTL"
    case PTtl => "PTTL"
    case Type => "TYPE"
    case LLen => "LLEN"
    case SCard => "SCARD"
    case ZCard => "ZCARD"
    case LRange => "LRANGE"
    case ZRange => "ZRANGE"
    case SMembers => "SMEMBERS"
  }

  /** A command is known exactly when it has one of the fifteen names. */
  lemma ClassifyExactly(name: string, c: Command)
    ensures Classify(name) == Some(c) <==> name == NameOf(c)
  {
  }

  /** The names refused outright. */
  const WRITES: set<string> := {
    "SET", "MSET", "DEL", "UNLINK", "EXPIRE", "PEXPIRE", "PERSIST", "RENAME", "FLUSHDB", "FLUSHALL", "EVAL", "EVALSHA",
    "CONFIG", "KEYS", "SCAN", "HSET", "HMSET", "HDEL", "LPUSH", "RPUSH", "LPOP", "RPOP", "SADD", "SREM", "ZADD", "ZREM"}

  lemma DeniedExactly(name: string)
    ensures name in DENIED_COMMANDS <==> name in WRITES
  {
  }

  lemma ReadsAreNotDenied(c: Command)
    ensures NameOf(c) !in DENIED_COMMANDS
  {
  }

  /** The request's command is this name between blanks, whatever the case of its letters. */
  ghost predicate Spelled(command: string, name: string) {
    exists word :: StripsTo(command, word) && SameIgnoringCase(word, name)
  }

  predicate Capitals(name: string) {
    forall i :: 0 <= i < |name| ==> !('a' <= name[i] <= 'z')
  }

  lemma UpperIs(word: string, name: string)
    requires Capitals(name)
    ensures Upper(word) == name <==> SameIgnoringCase(word, name)
  {
    if SameIgnoringCase(word, name) {
      assert forall i :: 0 <= i < |word| ==> LowerChar(word[i]) == LowerChar(name[i]);
      assert forall i :: 0 <= i < |word| ==> UpperChar(word[i]) == name[i];
    }
    if Upper(word) == name {
      assert forall i :: 0 <= i < |word| ==> Upper(word)[i] == UpperChar(word[i]);
    }
  }

  /** The normalized command is the name exactly when the request spells it. */
  lemma SpelledExactly(command: string, name: string)
    requires Capitals(name)
    ensures NormalizeCommand(command) == name <==> Spelled(command, name)
  {
    hide Upper, SameIgnoringCase, StripsTo, Strip, Capitals;
    forall word
      ensures StripsTo(command, word) <==> Strip(command) == word
    {
      StripIs(command, word);
    }
    UpperIs(Strip(command), name);
  }

  lemma NamesAreCapitals(c: Command)
    ensures Capitals(NameOf(c)) && NameOf(c) != ""
  {
  }

  lemma WritesAreCapitals(name: string)
    requires name in WRITES
    ensures Capitals(name) && name != ""
  {
  }

  // ------------------------------------------------------------ arguments

  /** Why the arguments are refused. */
  ghost predicate ArgsRefused(settings: Settings, c: Command, args: seq<string>, reason: string) {
    && !ArgsFit(settings, c, args)
    && if c.MGet? || c.Exists? then reason == "REDIS_TOO_MANY_KEYS"
       else if (c.LRange? || c.ZRange?) && |args| == 3 then
         if exists lo, hi :: Range(args[1], args[2], lo, hi) && 0 <= lo <= hi
         then reason == "REDIS_RANGE_LIMIT_EXCEEDED" else reason == "REDIS_RANGE_INVALID"
       else reason == "REDIS_ARG_COUNT_INVALID"
  }

  lemma RangeRefused(settings: Settings, start: string, stop: string)
    ensures ValidateRange(settings, start, stop)
         == if RangeFits(settings, start, stop) then None
            else if exists lo, hi :: Range(start, stop, lo, hi) && 0 <= lo <= hi
            then Some("REDIS_RANGE_LIMIT_EXCEEDED") else Some("REDIS_RANGE_INVALID")
  {
    hide ParseInt, Range, RangeFits;
    FittingRange(settings, start, stop);
    if lo, hi :| Range(start, stop, lo, hi) && 0 <= lo <= hi {
      RangeRead(start, stop, lo, hi);
    }
    if ParseInt(start).Some? && ParseInt(stop).Some? {
      RangeRead(start, stop, ParseInt(start).value, ParseInt(stop).value);
    }
  }

  lemma ArgsRefusedExactly(settings: Settings, c: Command, args: seq<string>)
    ensures ValidateArgs(settings, c, args).None? <==> ArgsFit(settings, c, args)
    ensures ValidateArgs(settings, c, args).Some? ==>
              ArgsRefused(settings, c, args, ValidateArgs(settings, c, args).value)
  {
    ArgsValidated(settings, c, args);
    if |args| == 3 {
      RangeRefused(settings, args[1], args[2]);
    }
    hide ValidateRange, ArgsFit, Range;
  }

  // ------------------------------------------------------------ routing

  /** The text entry of a context; an absent one is empty. */
  predicate Entry(ctx: RedisContext, key: string, v: string) {
    if key in ctx then v == ctx[key] else v == ""
  }

  /** The datasource that serves when there is no metadata: that of the settings, with no prefixes of its own. */
  predicate FromSettings(settings: Settings, d: Datasource) {
    && d.code == settings.datasourceCode && d.connection == settings.connection && d.dbType == "redis"
    && d.enabled && d.extra == map[] && d.keyPrefixes == Unset && d.displayName == "Configured Redis" && d.id == 0
  }

  ghost predicate EnabledRedis(db: Store, d: Datasource) {
    d in db.datasources && d.enabled && d.dbType == "redis"
  }

  /** The only enabled Redis datasource that serves the request's catalog and first key. */
  ghost predicate OnlyServing(settings: Settings, db: Store, catalog: string, key: string, d: Datasource) {
    && EnabledRedis(db, d) && Serves(settings, d, catalog, key)
    && forall e :: EnabledRedis(db, e) && Serves(settings, e, catalog, key) ==> e == d
  }

  /** The enabled datasource of this code; without metadata, that of the settings. */
  ghost predicate Coded(settings: Settings, metadata: Option<Store>, code: string, d: Datasource) {
    match metadata
    case None => FromSettings(settings, d) && code == settings.datasourceCode
    case Some(db) => d in db.datasources && d.enabled && d.code == code
  }

  /**
   Where a request goes: to the datasource it asks for by code, else to that of the settings if there is
   no metadata, else to the only one that serves its catalog and first key.
   */
  ghost predicate RoutesFor(settings: Settings, metadata: Option<Store>, asked: string, catalog: string, key: string,
                            d: Datasource) {
    if asked != "" then Coded(settings, metadata, asked, d)
    else
      match metadata
      case None => Coded(settings, None, settings.datasourceCode, d)
      case Some(db) => catalog != "" && OnlyServing(settings, db, catalog, key, d)
  }

  /** Why it goes nowhere. */
  ghost predicate Unrouted(settings: Settings, metadata: Option<Store>, asked: string, catalog: string, key: string,
                           reason: string) {
    && (forall d :: !RoutesFor(settings, metadata, asked, catalog, key, d))
    && if asked != "" then reason == "REDIS_DATASOURCE_NOT_FOUND"
       else if catalog == "" then reason == "REDIS_ROUTE_CONTEXT_REQUIRED"
       else metadata.Some?
            && reason == if exists d :: EnabledRedis(metadata.value, d) && Serves(settings, d, catalog, key)
                         then "REDIS_ROUTE_AMBIGUOUS" else "REDIS_ROUTE_NOT_FOUND"
  }

  /** What the request asks for: a code, a catalog, the key it is routed by. */
  predicate Asks(ctx: RedisContext, args: seq<string>, asked: string, catalog: string, key: string) {
    && Entry(ctx, "datasource_code", asked)
    && FirstEntry(ctx, ["catlog_name", "catalog_name", "catalog"], catalog)
    && key == if args == [] then "" else args[0]
  }

  lemma AsksExactly(ctx: RedisContext, c: Command, args: seq<string>, asked: string, catalog: string, key: string)
    ensures Asks(ctx, args, asked, catalog, key)
       <==> asked == ContextEntry(ctx, "datasource_code") && catalog == CatalogName(ctx) && key == RouteKey(c, args)
  {
    hide CatalogName, FirstEntry;
    CatalogNameExactly(ctx, catalog);
  }

  lemma CandidatesDistinct(db: Store)
    requires DatasourceKeys(db.datasources)
    ensures forall i, j :: 0 <= i < j < |Candidates(db)| ==> Candidates(db)[i] != Candidates(db)[j]
    ensures forall d :: d in Candidates(db) <==> EnabledRedis(db, d)
  {
    FilterPairs((a: Datasource, b: Datasource) => a != b, (d: Datasource) => d.dbType == "redis" && d.enabled,
        db.datasources);
  }

  /** Catalog routing, over the enabled Redis datasources of a store. */
  lemma CatalogExactlyOne(settings: Settings, db: Store, catalog: string, key: string)
    requires DatasourceKeys(db.datasources)
    ensures var r := RouteByCatalog(settings, Candidates(db), catalog, key);
            && (forall d :: r == Found(d) <==> OnlyServing(settings, db, catalog, key, d))
            && (r.NotFound? ==>
                  r.reasonCode == if exists d :: EnabledRedis(db, d) && Serves(settings, d, catalog, key)
                                  then "REDIS_ROUTE_AMBIGUOUS" else "REDIS_ROUTE_NOT_FOUND")
  {
    hide RouteByCatalog, Candidates, Serves, EnabledRedis, DatasourceKeys;
    CandidatesDistinct(db);
    var candidates := Candidates(db);
    CatalogFindsTheOnlyOne(settings, candidates, catalog, key);
    var r := RouteByCatalog(settings, candidates, catalog, key);
    forall d | OnlyServing(settings, db, catalog, key, d)
      ensures r == Found(d)
    {
      var i :| 0 <= i < |candidates| && candidates[i] == d;
      assert forall j :: 0 <= j < |candidates| && Serves(settings, candidates[j], catalog, key) ==>
          candidates[j] in candidates;
      assert OnlyAt(settings, candidates, catalog, key, i);
    }
    if r.Found? {
      var i :| OnlyAt(settings, candidates, catalog, key, i);
      assert r == Found(candidates[i]) && candidates[i] in candidates;
      forall e | EnabledRedis(db, e) && Serves(settings, e, catalog, key)
        ensures e == candidates[i]
      {
        var j :| 0 <= j < |candidates| && candidates[j] == e;
      }
    }
    if i :| 0 <= i < |candidates| && Serves(settings, candidates[i], catalog, key) {
      assert candidates[i] in candidates;
    }
    if d :| EnabledRedis(db, d) && Serves(settings, d, catalog, key) {
      var j :| 0 <= j < |candidates| && candidates[j] == d;
    }
  }

  lemma AskedByCode(settings: Settings, metadata: Option<Store>, code: string)
    requires metadata.Some? ==> DatasourceKeys(metadata.value.datasources)
    ensures var r := FindDatasource(settings, metadata, code);
            && r.Ok?
            && forall d :: r.value == Some(d) <==> Coded(settings, metadata, code, d)
  {
    hide EnabledDatasource;
    if metadata.Some? {
      var db := metadata.value;
      DatasourceLookup(db, code);
      var r := EnabledDatasource(db, code).value;
      forall d | d in db.datasources && d.enabled && d.code == code
        ensures r == Some(d)
      {
        SameCodeSameDatasource(db.datasources, d, r.value);
      }
    }
  }

  /** The resolution finds exactly the datasource the request goes to, or says why there is none. */
  lemma ResolutionExactly(settings: Settings, metadata: Option<Store>, c: Command, args: seq<string>, ctx: RedisContext,
                          asked: string, catalog: string, key: string)
    requires metadata.Some? ==> DatasourceKeys(metadata.value.datasources)
    requires Asks(ctx, args, asked, catalog, key)
    ensures var r := ResolveDatasource(settings, metadata, c, args, ctx);
            && r.Ok?
            && (forall d :: r.value == Found(d) <==> RoutesFor(settings, metadata, asked, catalog, key, d))
            && (r.value.NotFound? ==> Unrouted(settings, metadata, asked, catalog, key, r.value.reasonCode))
  {
    hide FindDatasource, RouteByCatalog, Candidates, CatalogName, RouteKey, ContextEntry, OnlyServing, Asks,
         EnabledRedis, Serves, FromSettings, DatasourceKeys;
    AsksExactly(ctx, c, args, asked, catalog, key);
    AskedByCode(settings, metadata, asked);
    AskedByCode(settings, None, settings.datasourceCode);
    ConfiguredFound(settings);
    if metadata.Some? {
      CatalogExactlyOne(settings, metadata.value, catalog, key);
    }
  }

  lemma ConfiguredFound(settings: Settings)
    ensures FindDatasource(settings, None, settings.datasourceCode) == Ok(Some(Configured(settings)))
    ensures Coded(settings, None, settings.datasourceCode, Configured(settings))
  {
  }

  // ------------------------------------------------------------ the whole check

  /** The keys a command reads. */
  predicate Reads(c: Command, args: seq<string>, key: string) {
    if c.MGet? || c.Exists? then key in args else args != [] && key == args[0]
  }

  lemma ReadsExactly(c: Command, args: seq<string>)
    ensures forall key :: key in KeyArgs(c, args) <==> Reads(c, args, key)
  {
  }

  /** Everything that lets a request through: its command, its arguments, where it goes, and its keys. */
  ghost predicate Admitted(settings: Settings, metadata: Option<Store>, command: string, args: seq<string>,
                           ctx: RedisContext, c: Command, d: Datasource) {
    && Spelled(command, NameOf(c)) && ArgsFit(settings, c, args)
    && (exists asked, catalog, key ::
          Asks(ctx, args, asked, catalog, key) && RoutesFor(settings, metadata, asked, catalog, key, d))
    && SameIgnoringCase(d.dbType, "redis")
    && forall key :: Reads(c, args, key) ==> KeyPermitted(settings, key, d)
  }

  lemma RouteOf(settings: Settings, metadata: Option<Store>, c: Command, args: seq<string>, ctx: RedisContext,
                d: Datasource)
    requires metadata.Some? ==> DatasourceKeys(metadata.value.datasources)
    ensures ResolveDatasource(settings, metadata, c, args, ctx).Ok?
    ensures ResolveDatasource(settings, metadata, c, args, ctx) == Ok(Found(d))
       <==> exists asked, catalog, key ::
              Asks(ctx, args, asked, catalog, key) && RoutesFor(settings, metadata, asked, catalog, key, d)
  {
    hide ResolveDatasource, Asks, RoutesFor, Unrouted, DatasourceKeys;
    var asked, catalog, key := ContextEntry(ctx, "datasource_code"), CatalogName(ctx), RouteKey(c, args);
    AsksExactly(ctx, c, args, asked, catalog, key);
    ResolutionExactly(settings, metadata, c, args, ctx, asked, catalog, key);
    if a, k, first :| Asks(ctx, args, a, k, first) && RoutesFor(settings, metadata, a, k, first, d) {
      AsksExactly(ctx, c, args, a, k, first);
    }
  }

  lemma IsRedis(d: Datasource)
    ensures Lower(d.dbType) == "redis" <==> SameIgnoringCase(d.dbType, "redis")
  {
    LowerSame(d.dbType, "redis");
    assert Lower("redis") == "redis";
  }

  /**
   On metadata with unique codes the check never raises, and allows a request exactly when a read-only
   command of that name, with arguments that fit it, goes to a Redis datasource that serves all its keys.
   */
  lemma AllowedExactly(settings: Settings, metadata: Option<Store>, command: string, args: seq<string>,
                       ctx: RedisContext)
    requires metadata.Some? ==> DatasourceKeys(metadata.value.datasources)
    ensures var r := Check(settings, metadata, command, args, ctx);
            && r.Ok?
            && (r.value.allowed <==> exists c, d :: Admitted(settings, metadata, command, args, ctx, c, d))
  {
    hide Classify, NormalizeCommand, ValidateArgs, ValidateKeys, ResolveDatasource, ContextEntry, Lower, KeyArgs,
         KeyPermitted, ArgsFit, Spelled, Asks, RoutesFor, Reads, DatasourceKeys, NameOf, DENIED_COMMANDS, Capitals;
    CheckTotal(settings, metadata, command, args, ctx);
    CheckAllowsExactly(settings, metadata, command, args, ctx);
    var name := NormalizeCommand(command);
    if Check(settings, metadata, command, args, ctx).value.allowed {
      var c := Classify(name).value;
      var d := ResolveDatasource(settings, metadata, c, args, ctx).value.datasource;
      ClassifyExactly(name, c);
      NamesAreCapitals(c);
      SpelledExactly(command, NameOf(c));
      RouteOf(settings, metadata, c, args, ctx, d);
      IsRedis(d);
      ReadsExactly(c, args);
      assert Admitted(settings, metadata, command, args, ctx, c, d);
    }
    if c, d :| Admitted(settings, metadata, command, args, ctx, c, d) {
      NamesAreCapitals(c);
      SpelledExactly(command, NameOf(c));
      ClassifyExactly(name, c);
      ReadsAreNotDenied(c);
      RouteOf(settings, metadata, c, args, ctx, d);
      IsRedis(d);
      ReadsExactly(c, args);
      assert forall i :: 0 <= i < |KeyArgs(c, args)| ==> Reads(c, args, KeyArgs(c, args)[i]);
    }
  }

  lemma CheckTotal(settings: Settings, metadata: Option<Store>, command: string, args: seq<string>, ctx: RedisContext)
    requires metadata.Some? ==> DatasourceKeys(metadata.value.datasources)
    ensures Check(settings, metadata, command, args, ctx).Ok?
  {
    hide Classify, NormalizeCommand, ValidateArgs, ResolveDatasource, ContextEntry, CheckDatasource, DatasourceKeys;
    if Classify(NormalizeCommand(command)).Some? {
      ResolvedAgain(settings, metadata, Classify(NormalizeCommand(command)).value, args, ctx);
    }
  }

  // ------------------------------------------------------------ refusals

  /** A blank command, a write and any other unknown command are refused for that, in this order. */
  lemma CommandRefused(settings: Settings, metadata: Option<Store>, command: string, args: seq<string>,
                       ctx: RedisContext, asked: string)
    requires Entry(ctx, "datasource_code", asked)
    ensures var r := Check(settings, metadata, command, args, ctx);
            && (All(Space, command) ==> r == Ok(RedisDecision(false, "EMPTY_REDIS_COMMAND", "", args, "")))
            && (forall w :: w in WRITES && Spelled(command, w) ==>
                  r == Ok(RedisDecision(false, "REDIS_COMMAND_DENIED", w, args, asked)))
            && (!All(Space, command) && (forall w :: w in WRITES ==> !Spelled(command, w))
                && (forall c :: !Spelled(command, NameOf(c))) ==>
                  && r.Ok? && !r.value.allowed && r.value.reasonCode == "REDIS_COMMAND_UNSUPPORTED"
                  && r.value.args == args && r.value.datasourceCode == asked)
  {
    hide Classify, NormalizeCommand, ValidateArgs, ResolveDatasource, CheckDatasource, Spelled, NameOf, WRITES,
         DENIED_COMMANDS, Capitals;
    var name := NormalizeCommand(command);
    BlankCommand(command);
    DeniedExactly(name);
    forall w | w in WRITES
      ensures w != "" && (name == w <==> Spelled(command, w))
    {
      WritesAreCapitals(w);
      SpelledExactly(command, w);
    }
    forall c
      ensures name == NameOf(c) <==> Spelled(command, NameOf(c))
      ensures Classify(name) == Some(c) <==> name == NameOf(c)
    {
      NamesAreCapitals(c);
      SpelledExactly(command, NameOf(c));
      ClassifyExactly(name, c);
    }
    if Classify(name).Some? {
      assert Classify(name) == Some(Classify(name).value);
    }
  }

  lemma BlankCommand(command: string)
    ensures NormalizeCommand(command) == "" <==> All(Space, command)
  {
    var a, t, b := TrimParts(Space, command);
    hide TrimRight, TrimLeft;
    assert |NormalizeCommand(command)| == |t|;
    assert t != "" ==> command[|a|] == t[0];
    if t == "" {
      assert command == a + b;
    }
  }

  /** A known command: the arguments decide first, then where it goes. */
  lemma ArgumentsDecide(settings: Settings, metadata: Option<Store>, command: string, args: seq<string>,
                        ctx: RedisContext, c: Command, asked: string, catalog: string, key: string)
    requires metadata.Some? ==> DatasourceKeys(metadata.value.datasources)
    requires Spelled(command, NameOf(c)) && Asks(ctx, args, asked, catalog, key)
    ensures var r := Check(settings, metadata, command, args, ctx);
            && r.Ok? && r.value.command == NameOf(c) && r.value.args == args
            && (!ArgsFit(settings, c, args) ==>
                  && !r.value.allowed && r.value.datasourceCode == asked
                  && ArgsRefused(settings, c, args, r.value.reasonCode))
            && (ArgsFit(settings, c, args) && (forall d :: !RoutesFor(settings, metadata, asked, catalog, key, d)) ==>
                  && !r.value.allowed && r.value.datasourceCode == asked
                  && Unrouted(settings, metadata, asked, catalog, key, r.value.reasonCode))
            && (forall d :: ArgsFit(settings, c, args) && RoutesFor(settings, metadata, asked, catalog, key, d) ==>
                  r.value == CheckDatasource(settings, NameOf(c), c, args, d, if asked != "" then asked else d.code))
  {
    hide Classify, NormalizeCommand, ValidateArgs, ResolveDatasource, CheckDatasource, Spelled, NameOf,
         DENIED_COMMANDS, Capitals, Asks, RoutesFor, Unrouted, ArgsFit, ArgsRefused, DatasourceKeys, ContextEntry;
    NamesAreCapitals(c);
    SpelledExactly(command, NameOf(c));
    ClassifyExactly(NormalizeCommand(command), c);
    ReadsAreNotDenied(c);
    ArgsRefusedExactly(settings, c, args);
    AsksExactly(ctx, c, args, asked, catalog, key);
    ResolutionExactly(settings, metadata, c, args, ctx, asked, catalog, key);
    KeepsArguments(settings, NameOf(c), c, args, ctx);
  }

  lemma KeepsArguments(settings: Settings, name: string, c: Command, args: seq<string>, ctx: RedisContext)
    ensures forall d, code: string :: CheckDatasource(settings, name, c, args, d, code).command == name
    ensures forall d, code: string :: CheckDatasource(settings, name, c, args, d, code).args == args
  {
    hide ValidateKeys, KeyArgs, Lower;
  }

  /** Some key may not be read, every earlier one may, and it decides the reason. */
  ghost predicate KeyRefused(settings: Settings, c: Command, args: seq<string>, d: Datasource, reason: string) {
    exists i :: 0 <= i < |args| && Reads(c, args, args[i]) && Forbidden(settings, args[i], d, reason)
                && forall j :: 0 <= j < i ==> Reads(c, args, args[j]) && KeyPermitted(settings, args[j], d)
  }

  /**
   A request whose command and arguments are fine and that goes to a datasource: it is refused if that is
   no Redis, or for its first forbidden key, and allowed otherwise; the decision carries the code asked
   for, or that of the datasource.
   */
  lemma PlaceDecides(settings: Settings, metadata: Option<Store>, command: string, args: seq<string>,
                     ctx: RedisContext, c: Command, asked: string, catalog: string, key: string, d: Datasource)
    requires metadata.Some? ==> DatasourceKeys(metadata.value.datasources)
    requires Spelled(command, NameOf(c)) && ArgsFit(settings, c, args) && Asks(ctx, args, asked, catalog, key)
    requires RoutesFor(settings, metadata, asked, catalog, key, d)
    ensures var r := Check(settings, metadata, command, args, ctx);
            var code := if asked != "" then asked else d.code;
            if !SameIgnoringCase(d.dbType, "redis") then
              r == Ok(RedisDecision(false, "REDIS_DATASOURCE_TYPE_INVALID", NameOf(c), args, code))
            else if forall k :: Reads(c, args, k) ==> KeyPermitted(settings, k, d) then
              r == Ok(RedisDecision(true, "ALLOW", NameOf(c), args, code))
            else
              && r.Ok? && !r.value.allowed && r.value.datasourceCode == d.code
              && KeyRefused(settings, c, args, d, r.value.reasonCode)
  {
    hide Check, Spelled, NameOf, Asks, RoutesFor, Unrouted, ArgsFit, KeyArgs, Forbidden, Lower, Reads, KeyPermitted,
         DatasourceKeys, ArgsRefused, SameIgnoringCase;
    ArgumentsDecide(settings, metadata, command, args, ctx, c, asked, catalog, key);
    IsRedis(d);
    KeysDecide(settings, c, args, d);
    hide ValidateKeys, KeyRefused;
  }

  lemma KeysDecide(settings: Settings, c: Command, args: seq<string>, d: Datasource)
    ensures var fault := ValidateKeys(settings, KeyArgs(c, args), d);
            && (fault.None? <==> forall k :: Reads(c, args, k) ==> KeyPermitted(settings, k, d))
            && (fault.Some? ==> KeyRefused(settings, c, args, d, fault.value))
  {
    hide KeyArgs, Forbidden, Reads, KeyPermitted, ValidateKeys;
    ReadsExactly(c, args);
    KeysAreFirst(c, args);
    var keys := KeyArgs(c, args);
    KeysValidated(settings, keys, d);
    assert forall i :: 0 <= i < |keys| ==> keys[i] in keys && keys[i] == args[i];
  }

  lemma KeysAreFirst(c: Command, args: seq<string>)
    ensures KeyArgs(c, args) <= args
  {
  }
}
