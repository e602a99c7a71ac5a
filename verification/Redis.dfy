/**
 The read-only Redis gate: command and argument checks, routing to one datasource, key scope,
 and the bounded execution of an allowed command.
 */
module Redis {
  import opened Wrappers
  import opened Text
  import opened Sequences
  import opened Metadata

  datatype Command =
    | Get | MGet | HGet | HMGet | HGetAll | Exists | Ttl | PTtl | Type
    | LLen | SCard | ZCard | LRange | ZRange | SMembers

  /** The read-only command of this normalized name. */
  function Classify(name: string): Option<Command> {
    if name == "GET" then Some(Get)
    else if name == "MGET" then Some(MGet)
    else if name == "HGET" then Some(HGet)
    else if name == "HMGET" then Some(HMGet)
    else if name == "HGETALL" then Some(HGetAll)
    else if name == "EXISTS" then Some(Exists)
    else if name == "TTL" then Some(Ttl)
    else if name == "PTTL" then Some(PTtl)
    else if name == "TYPE" then Some(Type)
    else if name == "LLEN" then Some(LLen)
    else if name == "SCARD" then Some(SCard)
    else if name == "ZCARD" then Some(ZCard)
    else if name == "LRANGE" then Some(LRange)
    else if name == "ZRANGE" then Some(ZRange)
    else if name == "SMEMBERS" then Some(SMembers)
    else None
  }

  const DENIED_COMMANDS: seq<string> := [
    "SET", "MSET", "DEL", "UNLINK", "EXPIRE", "PEXPIRE", "PERSIST", "RENAME", "FLUSHDB", "FLUSHALL", "EVAL", "EVALSHA",
        "CONFIG",
    "KEYS", "SCAN", "HSET", "HMSET", "HDEL", "LPUSH", "RPUSH", "LPOP", "RPOP", "SADD", "SREM", "ZADD", "ZREM"]

  datatype Settings = Settings(
    datasourceCode: string, connection: Connection,
    maxKeys: int, maxItems: int, maxKeyLength: int, allowedPrefixes: string)

  /** The text entries of the request's Redis context; an absent entry is the empty text. */
  type RedisContext = map<string, string>

  datatype RedisDecision = RedisDecision(
    allowed: bool, reasonCode: string, command: string, args: seq<string>, datasourceCode: string)

  datatype Resolution = Found(datasource: Datasource) | NotFound(reasonCode: string)

  // ------------------------------------------------------------ texts

  function UpperChar(c: char): char {
    if 'a' <= c <= 'z' then (c as int - 32) as char else c
  }

  function Upper(s: string): string {
    seq(|s|, i requires 0 <= i < |s| => UpperChar(s[i]))
  }

  function NormalizeCommand(command: string): string {
    Upper(Strip(command))
  }

  /** Python's `split` at a one-character separator. */
  function Split(s: string, separator: char): (parts: seq<string>)
    ensures parts != []
  {
    if s == "" then [""]
    else
      var rest := Split(s[1..], separator);
      if s[0] == separator then [""] + rest else [[s[0]] + rest[0]] + rest[1..]
  }

  /** The items stripped, without the blank ones. */
  function Stripped(items: seq<string>): seq<string> {
    if items == [] then []
    else (if Strip(items[0]) == "" then [] else [Strip(items[0])]) + Stripped(items[1..])
  }

  function ContextEntry(ctx: map<string, string>, key: string): string {
    if key in ctx then ctx[key] else ""
  }

  /** Python's `a or b or c or ""` on texts. */
  function FirstText(a: string, b: string, c: string): string {
    if a != "" then a else if b != "" then b else c
  }

  function CatalogName(ctx: RedisContext): string {
    FirstText(ContextEntry(ctx, "catlog_name"), ContextEntry(ctx, "catalog_name"), ContextEntry(ctx, "catalog"))
  }

  function DatasourceCatalog(d: Datasource): string {
    FirstText(ContextEntry(d.extra, "catlog_name"), ContextEntry(d.extra, "catalog_name"),
        ContextEntry(d.extra, "redis_catalog"))
  }

  // ------------------------------------------------------------ key scope

  function AllowedPrefixes(settings: Settings, d: Datasource): seq<string> {
    match d.keyPrefixes
    case PrefixList(items) => Stripped(items)
    case PrefixText(text) => Stripped(Split(text, ','))
    case Unset => Stripped(Split(settings.allowedPrefixes, ','))
  }

  predicate StartsWithOne(key: string, prefixes: seq<string>) {
    exists i :: 0 <= i < |prefixes| && prefixes[i] <= key
  }

  /** `_key_allowed_by_datasource`. */
  predicate KeyAllowed(settings: Settings, key: string, d: Datasource) {
    var prefixes := AllowedPrefixes(settings, d);
    prefixes == [] || "*" in prefixes || StartsWithOne(key, prefixes)
  }

  predicate HasWildcard(key: string) {
    '*' in key || '?' in key || '[' in key
  }

  function KeyArgs(c: Command, args: seq<string>): seq<string> {
    if c.MGet? || c.Exists? || args == [] then args else args[..1]
  }

  function KeyFault(settings: Settings, key: string, d: Datasource): Option<string> {
    var prefixes := AllowedPrefixes(settings, d);
    if key == "" then Some("REDIS_KEY_EMPTY")
    else if |key| > settings.maxKeyLength then Some("REDIS_KEY_TOO_LONG")
    else if HasWildcard(key) then Some("REDIS_KEY_PATTERN_DENIED")
    else if prefixes != [] && "*" !in prefixes && !StartsWithOne(key, prefixes) then Some("REDIS_KEY_SCOPE_DENIED")
    else None
  }

  /** The fault of the first key that has one. */
  function ValidateKeys(settings: Settings, keys: seq<string>, d: Datasource): Option<string> {
    if keys == [] then None
    else if KeyFault(settings, keys[0], d).Some? then KeyFault(settings, keys[0], d)
    else ValidateKeys(settings, keys[1..], d)
  }

  // ------------------------------------------------------------ arguments

  predicate TakesOneArgument(c: Command) {
    c.Get? || c.HGetAll? || c.Ttl? || c.PTtl? || c.Type? || c.LLen? || c.SCard? || c.ZCard? || c.SMembers?
  }

  function ValidateRange(settings: Settings, start: string, stop: string): Option<string> {
    match (ParseInt(start), ParseInt(stop))
    case (Some(lo), Some(hi)) =>
      if lo < 0 || hi < lo then Some("REDIS_RANGE_INVALID")
      else if hi - lo + 1 > settings.maxItems then Some("REDIS_RANGE_LIMIT_EXCEEDED")
      else None
    case _ => Some("REDIS_RANGE_INVALID")
  }

  function ValidateArgs(settings: Settings, c: Command, args: seq<string>): Option<string> {
    if TakesOneArgument(c) && |args| != 1 then Some("REDIS_ARG_COUNT_INVALID")
    else if c.HGet? && |args| != 2 then Some("REDIS_ARG_COUNT_INVALID")
    else if (c.MGet? || c.Exists?) && !(1 <= |args| <= settings.maxKeys) then Some("REDIS_TOO_MANY_KEYS")
    else if c.HMGet? && |args| < 2 then Some("REDIS_ARG_COUNT_INVALID")
    else if (c.LRange? || c.ZRange?) && |args| != 3 then Some("REDIS_ARG_COUNT_INVALID")
    else if c.LRange? || c.ZRange? then ValidateRange(settings, args[1], args[2])
    else None
  }

  // ------------------------------------------------------------ routing

  /** The datasource of the settings, used when there is no metadata session. */
  function Configured(settings: Settings): Datasource {
    Datasource(0, settings.datasourceCode, "Configured Redis", "redis", settings.connection, true, map[], Unset)
  }

  /** `_datasource`: looked up in the metadata, if there is any. */
  function FindDatasource(settings: Settings, metadata: Option<Store>, code: string): Result<Option<Datasource>> {
    match metadata
    case Some(db) => EnabledDatasource(db, code)
    case None => Ok(if code == settings.datasourceCode then Some(Configured(settings)) else None)
  }

  function InCatalog(catalog: string, candidates: seq<Datasource>): seq<Datasource> {
    Filter((d: Datasource) => Lower(DatasourceCatalog(d)) == Lower(catalog), candidates)
  }

  function ForKey(settings: Settings, key: string, candidates: seq<Datasource>): seq<Datasource> {
    Filter((d: Datasource) => key == "" || KeyAllowed(settings, key, d), candidates)
  }

  /** The catalog part of `_resolve_datasource`, over the enabled Redis datasources in any order. */
  function RouteByCatalog(settings: Settings, candidates: seq<Datasource>, catalog: string, key: string): Resolution {
    var matching := InCatalog(catalog, candidates);
    var serving := ForKey(settings, key, matching);
    if matching == [] then NotFound("REDIS_ROUTE_NOT_FOUND")
    else if |serving| == 1 then Found(serving[0])
    else if serving == [] then NotFound("REDIS_ROUTE_NOT_FOUND")
    else NotFound("REDIS_ROUTE_AMBIGUOUS")
  }

  function Candidates(db: Store): seq<Datasource> {
    Filter((d: Datasource) => d.dbType == "redis" && d.enabled, db.datasources)
  }

  function RouteKey(c: Command, args: seq<string>): string {
    if KeyArgs(c, args) == [] then "" else KeyArgs(c, args)[0]
  }

  function AsResolution(found: Result<Option<Datasource>>): Result<Resolution> {
    match found
    case Raise(error) => Raise(error)
    case Ok(None) => Ok(NotFound("REDIS_DATASOURCE_NOT_FOUND"))
    case Ok(Some(d)) => Ok(Found(d))
  }

  function ResolveDatasource(settings: Settings, metadata: Option<Store>, c: Command, args: seq<string>,
                             ctx: RedisContext): Result<Resolution> {
    var code := ContextEntry(ctx, "datasource_code");
    if code != "" then AsResolution(FindDatasource(settings, metadata, code))
    else
      match metadata
      case None => AsResolution(FindDatasource(settings, metadata, settings.datasourceCode))
      case Some(db) =>
        if CatalogName(ctx) == "" then Ok(NotFound("REDIS_ROUTE_CONTEXT_REQUIRED"))
        else Ok(RouteByCatalog(settings, Candidates(db), CatalogName(ctx), RouteKey(c, args)))
  }

  // ------------------------------------------------------------ the check

  function Reject(reasonCode: string, command: string, args: seq<string>, code: string): RedisDecision {
    RedisDecision(false, reasonCode, command, args, code)
  }

  function CheckDatasource(settings: Settings, name: string, c: Command, args: seq<string>, d: Datasource,
                           code: string): RedisDecision {
    if Lower(d.dbType) != "redis" then Reject("REDIS_DATASOURCE_TYPE_INVALID", name, args, code)
    else
      match ValidateKeys(settings, KeyArgs(c, args), d)
      case Some(reason) => Reject(reason, name, args, d.code)
      case None => RedisDecision(true, "ALLOW", name, args, code)
  }

  /** `check`. */
  function Check(settings: Settings, metadata: Option<Store>, command: string, args: seq<string>,
                 ctx: RedisContext): Result<RedisDecision> {
    var name := NormalizeCommand(command);
    var asked := ContextEntry(ctx, "datasource_code");
    if name == "" then Ok(Reject("EMPTY_REDIS_COMMAND", name, args, ""))
    else if name in DENIED_COMMANDS then Ok(Reject("REDIS_COMMAND_DENIED", name, args, asked))
    else
      match Classify(name)
      case None => Ok(Reject("REDIS_COMMAND_UNSUPPORTED", name, args, asked))
      case Some(c) =>
        match ValidateArgs(settings, c, args)
        case Some(reason) => Ok(Reject(reason, name, args, asked))
        case None =>
          match ResolveDatasource(settings, metadata, c, args, ctx)
          case Raise(error) => Raise(error)
          case Ok(NotFound(reason)) => Ok(Reject(reason, name, args, asked))
          case Ok(Found(d)) => Ok(CheckDatasource(settings, name, c, args, d, if asked != "" then asked else d.code))
  }

  // ------------------------------------------------------------ the server

  /** Set members and hash fields are listed in no particular order, sorted-set members by rank. */
  datatype RedisValue =
    | StringValue(text: string)
    | ListValue(items: seq<string>)
    | HashValue(fields: seq<(string, string)>)
    | SetValue(members: seq<string>)
    | ZSetValue(ranked: seq<string>)

  /** Values, and the milliseconds left to live of the keys that expire. */
  datatype RedisStore = RedisStore(values: map<string, RedisValue>, expiry: map<string, nat>)

  datatype Reply =
    | Nil
    | Text(text: string)
    | Number(n: int)
    | Replies(replies: seq<Option<string>>)
    | Items(items: seq<string>)
    | Fields(fields: seq<(string, string)>)

  function FieldOf(fields: seq<(string, string)>, name: string): Option<string> {
    if fields == [] then None else if fields[0].0 == name then Some(fields[0].1) else FieldOf(fields[1..], name)
  }

  function ReplyOf(v: Option<string>): Reply {
    match v case None => Nil case Some(text) => Text(text)
  }

  /** Fields of the hash at `key`; a key that holds something else is a server error. */
  function HashAt(store: RedisStore, key: string): Result<seq<(string, string)>> {
    if key !in store.values then Ok([])
    else if store.values[key].HashValue? then Ok(store.values[key].fields)
    else Raise(ServerError)
  }

  function ListAt(store: RedisStore, key: string): Result<seq<string>> {
    if key !in store.values then Ok([])
    else if store.values[key].ListValue? then Ok(store.values[key].items)
    else Raise(ServerError)
  }

  function SetAt(store: RedisStore, key: string): Result<seq<string>> {
    if key !in store.values then Ok([])
    else if store.values[key].SetValue? then Ok(store.values[key].members)
    else Raise(ServerError)
  }

  function ZSetAt(store: RedisStore, key: string): Result<seq<string>> {
    if key !in store.values then Ok([])
    else if store.values[key].ZSetValue? then Ok(store.values[key].ranked)
    else Raise(ServerError)
  }

  function GetReply(store: RedisStore, key: string): Result<Reply> {
    if key !in store.values then Ok(Nil)
    else if store.values[key].StringValue? then Ok(Text(store.values[key].text))
    else Raise(ServerError)
  }

  /** What MGET answers for a key: nil if it is missing or not a string. */
  function StringAt(store: RedisStore, key: string): Option<string> {
    if key in store.values && store.values[key].StringValue? then Some(store.values[key].text) else None
  }

  function MGetReply(store: RedisStore, keys: seq<string>): seq<Option<string>> {
    if keys == [] then [] else [StringAt(store, keys[0])] + MGetReply(store, keys[1..])
  }

  function FieldsOf(fields: seq<(string, string)>, names: seq<string>): seq<Option<string>> {
    if names == [] then [] else [FieldOf(fields, names[0])] + FieldsOf(fields, names[1..])
  }

  /** EXISTS counts a key as often as it is named. */
  function CountExisting(store: RedisStore, keys: seq<string>): nat {
    if keys == [] then 0 else (if keys[0] in store.values then 1 else 0) + CountExisting(store, keys[1..])
  }

  /** Milliseconds to live: -2 for a missing key, -1 for one that does not expire. */
  function TimeLeft(store: RedisStore, key: string): int {
    if key !in store.values then -2 else if key in store.expiry then store.expiry[key] else -1
  }

  function TypeName(store: RedisStore, key: string): string {
    if key !in store.values then "none"
    else
      match store.values[key]
      case StringValue(_) => "string"
      case ListValue(_) => "list"
      case HashValue(_) => "hash"
      case SetValue(_) => "set"
      case ZSetValue(_) => "zset"
  }

  /** The inclusive range of a list or sorted set; negative positions count from the end. */
  function RangeOf(items: seq<string>, start: int, stop: int): seq<string> {
    var lo := if start >= 0 then start else if |items| + start < 0 then 0 else |items| + start;
    var last := if stop >= 0 then stop else |items| + stop;
    var hi := if last >= |items| then |items| else last + 1;
    if lo < hi then items[lo..hi] else []
  }

  function MapReply<T>(r: Result<T>, f: T -> Reply): Result<Reply> {
    match r case Raise(error) => Raise(error) case Ok(v) => Ok(f(v))
  }

  // ------------------------------------------------------------ execution

  datatype Row = KeyRow(key: string, value: Reply) | FieldRow(field: string, value: Reply) | IndexRow(index: nat,
      value: Reply)

  datatype RedisExecuteResult = RedisExecuteResult(allowed: bool, reasonCode: string, rows: seq<Row>, rowCount: nat)

  /** `_preflight_result_size`: the reason to refuse, if there is one. */
  function Preflight(settings: Settings, store: RedisStore, decision: RedisDecision): Result<Option<string>> {
    if decision.args == [] then Raise(IndexError)
    else
      match Classify(decision.command)
      case Some(HGetAll) =>
        (match HashAt(store, decision.args[0])
         case Raise(error) => Raise(error)
         case Ok(fields) => Ok(if |fields| > settings.maxItems then Some("REDIS_RESULT_LIMIT_EXCEEDED") else None))
      case Some(SMembers) =>
        (match SetAt(store, decision.args[0])
         case Raise(error) => Raise(error)
         case Ok(members) => Ok(if |members| > settings.maxItems then Some("REDIS_RESULT_LIMIT_EXCEEDED") else None))
      case _ => Ok(None)
  }

  function RangeReply(items: Result<seq<string>>, start: string, stop: string): Result<Reply> {
    match (ParseInt(start), ParseInt(stop))
    case (Some(lo), Some(hi)) => MapReply(items, (all: seq<string>) => Items(RangeOf(all, lo, hi)))
    case _ => Raise(ValueError)
  }

  function SortTexts(items: seq<string>): seq<string> {
    SortBy((a: string, b: string) => TextLeq(a, b), items)
  }

  /** `_run_command`: an argument that is not there is an IndexError, a bound that is no number a ValueError. */
  function RunCommand(store: RedisStore, name: string, args: seq<string>): Result<Reply> {
    match Classify(name)
    case None => Raise(ValueError)
    case Some(MGet) => Ok(Replies(MGetReply(store, args)))
    case Some(Exists) => Ok(Number(CountExisting(store, args)))
    case Some(c) => if args == [] then Raise(IndexError) else RunKeyed(store, c, args[0], args[1..])
  }

  /** The commands on one key, with the arguments after it. */
  function RunKeyed(store: RedisStore, c: Command, key: string, rest: seq<string>): Result<Reply>
    requires !c.MGet? && !c.Exists?
  {
    match c
    case Get => GetReply(store, key)
    case HGet =>
      if rest == [] then Raise(IndexError)
      else MapReply(HashAt(store, key), (fields: seq<(string, string)>) => ReplyOf(FieldOf(fields, rest[0])))
    case HMGet => MapReply(HashAt(store, key), (fields: seq<(string, string)>) => Replies(FieldsOf(fields, rest)))
    case HGetAll => MapReply(HashAt(store, key), (fields: seq<(string, string)>) => Fields(fields))
    case Ttl => Ok(Number(var left := TimeLeft(store, key); if left < 0 then left else (left + 500) / 1000))
    case PTtl => Ok(Number(TimeLeft(store, key)))
    case Type => Ok(Text(TypeName(store, key)))
    case LLen => MapReply(ListAt(store, key), (items: seq<string>) => Number(|items|))
    case SCard => MapReply(SetAt(store, key), (members: seq<string>) => Number(|members|))
    case ZCard => MapReply(ZSetAt(store, key), (members: seq<string>) => Number(|members|))
    case LRange => if |rest| < 2 then Raise(IndexError) else RangeReply(ListAt(store, key), rest[0], rest[1])
    case ZRange => if |rest| < 2 then Raise(IndexError) else RangeReply(ZSetAt(store, key), rest[0], rest[1])
    case SMembers => MapReply(SetAt(store, key), (members: seq<string>) => Items(SortTexts(members)))
  }

  /** `zip`: one row per pair, as long as both last. */
  function KeyRows(keys: seq<string>, replies: seq<Option<string>>): seq<Row> {
    if keys == [] || replies == [] then []
        else [KeyRow(keys[0], ReplyOf(replies[0]))] + KeyRows(keys[1..], replies[1..])
  }

  function FieldRows(names: seq<string>, replies: seq<Option<string>>): seq<Row> {
    if names == [] || replies == [] then []
        else [FieldRow(names[0], ReplyOf(replies[0]))] + FieldRows(names[1..], replies[1..])
  }

  /** `sorted(result.items())`. */
  function SortFields(fields: seq<(string, string)>): seq<(string, string)> {
    SortBy((a: (string, string), b: (string, string)) => TextLeq(a.0, b.0), fields)
  }

  function IndexRows(items: seq<string>): seq<Row> {
    seq(|items|, i requires 0 <= i < |items| => IndexRow(i, Text(items[i])))
  }

  function PairRows(fields: seq<(string, string)>): seq<Row> {
    seq(|fields|, i requires 0 <= i < |fields| => FieldRow(fields[i].0, Text(fields[i].1)))
  }

  function FormatRows(name: string, args: seq<string>, reply: Reply): seq<Row> {
    match (Classify(name), reply)
    case (Some(MGet), Replies(replies)) => KeyRows(args, replies)
    case (Some(HMGet), Replies(replies)) => FieldRows(if args == [] then [] else args[1..], replies)
    case (Some(HGetAll), Fields(fields)) => PairRows(SortFields(fields))
    case (Some(LRange), Items(items)) => IndexRows(items)
    case (Some(ZRange), Items(items)) => IndexRows(items)
    case (Some(SMembers), Items(items)) => IndexRows(items)
    case _ => [KeyRow(if args == [] then "" else args[0], reply)]
  }

  function Refused(reasonCode: string): RedisExecuteResult {
    RedisExecuteResult(false, reasonCode, [], 0)
  }

  /** The reply is formatted and its rows counted. */
  function Finish(settings: Settings, decision: RedisDecision, reply: Reply): RedisExecuteResult {
    var rows := FormatRows(decision.command, decision.args, reply);
    if |rows| > settings.maxItems then Refused("REDIS_RESULT_LIMIT_EXCEEDED")
    else RedisExecuteResult(true, "EXECUTED", rows, |rows|)
  }

  /** Preflight on the store `first`, then the command on the store `second`. */
  function ExecuteOn(settings: Settings, first: RedisStore, second: RedisStore,
                     decision: RedisDecision): Result<RedisExecuteResult> {
    match Preflight(settings, first, decision)
    case Raise(error) => Raise(error)
    case Ok(Some(reason)) => Ok(Refused(reason))
    case Ok(None) =>
      match RunCommand(second, decision.command, decision.args)
      case Raise(error) => Raise(error)
      case Ok(reply) => Ok(Finish(settings, decision, reply))
  }

  /**
   `execute`: `preflightStore` and `runStore` are what the datasource's server holds at the preflight
   and at the command; they differ when someone writes in between.
   */
  function Execute(settings: Settings, metadata: Option<Store>, preflightStore: Datasource -> RedisStore,
                   runStore: Datasource -> RedisStore, decision: RedisDecision): Result<RedisExecuteResult>
  {
    if !decision.allowed then Ok(Refused(decision.reasonCode))
    else
      match FindDatasource(settings, metadata, decision.datasourceCode)
      case Raise(error) => Raise(error)
      case Ok(None) => Ok(Refused("REDIS_DATASOURCE_NOT_FOUND"))
      case Ok(Some(d)) => ExecuteOn(settings, preflightStore(d), runStore(d), decision)
  }
}
