/** What each allowed Redis command answers, in terms of what the server holds. */
module RedisReplies {
  import opened Wrappers
  import opened Text
  import opened Sequences
  import opened Metadata
  import opened Redis
  import opened RedisProofs
  import opened RedisReasons

  /** The value of the first field of this name, or nothing. */
  ghost predicate FieldHolds(fields: seq<(string, string)>, name: string, reply: Reply) {
    if exists i :: FirstField(fields, name, i)
    then forall i :: FirstField(fields, name, i) ==> reply == Text(fields[i].1)
    else reply == Nil
  }

  predicate FirstField(fields: seq<(string, string)>, name: string, i: int) {
    0 <= i < |fields| && fields[i].0 == name && forall j :: 0 <= j < i ==> fields[j].0 != name
  }

  lemma {:induction false} FieldExactly(fields: seq<(string, string)>, name: string)
    ensures FieldHolds(fields, name, ReplyOf(FieldOf(fields, name)))
  {
    if fields != [] {
      var rest := fields[1..];
      FieldExactly(rest, name);
      if fields[0].0 == name {
        assert FirstField(fields, name, 0);
      } else {
        forall i
          ensures FirstField(fields, name, i) <==> FirstField(rest, name, i - 1)
        {
          assert forall j :: 0 < j < |fields| ==> fields[j] == rest[j - 1];
          assert forall j :: 0 <= j < |rest| ==> rest[j] == fields[j + 1];
        }
        if i :| FirstField(rest, name, i) {
          assert FirstField(fields, name, i + 1);
        }
      }
    }
  }

  /** The hash, list, set or ranking at a key; a missing key holds none. */
  predicate HoldsHash(store: RedisStore, key: string, fields: seq<(string, string)>) {
    if key in store.values then store.values[key] == HashValue(fields) else fields == []
  }

  predicate HoldsList(store: RedisStore, key: string, items: seq<string>) {
    if key in store.values then store.values[key] == ListValue(items) else items == []
  }

  predicate HoldsSet(store: RedisStore, key: string, members: seq<string>) {
    if key in store.values then store.values[key] == SetValue(members) else members == []
  }

  predicate HoldsRanking(store: RedisStore, key: string, ranked: seq<string>) {
    if key in store.values then store.values[key] == ZSetValue(ranked) else ranked == []
  }

  /** The command can be asked of what the key holds. */
  predicate RightKind(store: RedisStore, c: Command, key: string) {
    key in store.values ==>
      match c
      case Get => store.values[key].StringValue?
      case HGet => store.values[key].HashValue?
      case HMGet => store.values[key].HashValue?
      case HGetAll => store.values[key].HashValue?
      case LLen => store.values[key].ListValue?
      case LRange => store.values[key].ListValue?
      case SCard => store.values[key].SetValue?
      case SMembers => store.values[key].SetValue?
      case ZCard => store.values[key].ZSetValue?
      case ZRange => store.values[key].ZSetValue?
      case _ => true
  }

  /** The text under a key, if a string is held there. */
  function TextUnder(store: RedisStore, key: string): Reply {
    if key in store.values && store.values[key].StringValue? then Text(store.values[key].text) else Nil
  }

  /** Time to live in units of `unit` milliseconds, rounded to the nearest. */
  predicate LivesFor(store: RedisStore, key: string, unit: nat, n: int) {
    if key !in store.values then n == -2
    else if key !in store.expiry then n == -1
    else n >= 0 && 2 * unit * n - unit <= 2 * store.expiry[key] < 2 * unit * n + unit
  }

  predicate KindName(store: RedisStore, key: string, name: string) {
    && (key !in store.values ==> name == "none")
    && (key in store.values ==>
          && (name == "string" <==> store.values[key].StringValue?)
          && (name == "list" <==> store.values[key].ListValue?)
          && (name == "hash" <==> store.values[key].HashValue?)
          && (name == "set" <==> store.values[key].SetValue?)
          && (name == "zset" <==> store.values[key].ZSetValue?))
  }

  /** The elements from `lo` to `hi`, numbered from zero. */
  predicate RangeShown(items: seq<string>, lo: int, hi: int, rows: seq<Row>) {
    && |rows| == (if |items| <= lo then 0 else if |items| <= hi then |items| - lo else hi - lo + 1)
    && forall i :: 0 <= i < |rows| ==> 0 <= lo + i < |items| && rows[i] == IndexRow(i, Text(items[lo + i]))
  }

  ghost predicate SortedRows(texts: seq<string>, sorted: seq<string>, rows: seq<Row>) {
    && multiset(sorted) == multiset(texts)
    && (forall i, j :: 0 <= i < j < |sorted| ==> TextLeq(sorted[i], sorted[j]))
    && |rows| == |sorted| && forall i :: 0 <= i < |rows| ==> rows[i] == IndexRow(i, Text(sorted[i]))
  }

  ghost predicate SortedFields(fields: seq<(string, string)>, sorted: seq<(string, string)>, rows: seq<Row>) {
    && multiset(sorted) == multiset(fields)
    && (forall i, j :: 0 <= i < j < |sorted| ==> TextLeq(sorted[i].0, sorted[j].0))
    && |rows| == |sorted| && forall i :: 0 <= i < |rows| ==> rows[i] == FieldRow(sorted[i].0, Text(sorted[i].1))
  }

  /** The one row of a command that answers with a single value. */
  predicate One(rows: seq<Row>, key: string, reply: Reply) {
    rows == [KeyRow(key, reply)]
  }

  /** The rows the command shows, by what the server holds. */
  ghost predicate Answered(store: RedisStore, c: Command, args: seq<string>, rows: seq<Row>)
    requires args != []
  {
    var key := args[0];
    match c
    case Get => One(rows, key, TextUnder(store, key))
    case MGet =>
      |rows| == |args| && forall i :: 0 <= i < |args| ==> rows[i] == KeyRow(args[i], TextUnder(store, args[i]))
    case HGet =>
      |args| > 1 && exists fields, reply ::
        HoldsHash(store, key, fields) && FieldHolds(fields, args[1], reply) && One(rows, key, reply)
    case HMGet =>
      exists fields :: HoldsHash(store, key, fields) && |rows| == |args| - 1
                       && forall i :: 0 <= i < |rows| ==>
                            && rows[i].FieldRow? && rows[i].field == args[i + 1]
                            && FieldHolds(fields, args[i + 1], rows[i].value)
    case HGetAll => exists fields, sorted :: HoldsHash(store, key, fields) && SortedFields(fields, sorted, rows)
    case Exists => One(rows, key, Number(|set i: nat | i < |args| && args[i] in store.values|))
    case Ttl => exists n :: LivesFor(store, key, 1000, n) && One(rows, key, Number(n))
    case PTtl => exists n :: LivesFor(store, key, 1, n) && One(rows, key, Number(n))
    case Type => exists name :: KindName(store, key, name) && One(rows, key, Text(name))
    case LLen => exists items :: HoldsList(store, key, items) && One(rows, key, Number(|items|))
    case SCard => exists members :: HoldsSet(store, key, members) && One(rows, key, Number(|members|))
    case ZCard => exists ranked :: HoldsRanking(store, key, ranked) && One(rows, key, Number(|ranked|))
    case LRange =>
      |args| > 2 && exists items, lo, hi ::
        HoldsList(store, key, items) && Range(args[1], args[2], lo, hi) && RangeShown(items, lo, hi, rows)
    case ZRange =>
      |args| > 2 && exists ranked, lo, hi ::
        HoldsRanking(store, key, ranked) && Range(args[1], args[2], lo, hi) && RangeShown(ranked, lo, hi, rows)
    case SMembers => exists members, sorted :: HoldsSet(store, key, members) && SortedRows(members, sorted, rows)
  }

  // ------------------------------------------------------------ the answers

  /** What the command yields on the store: its rows, or the server's error on a key of another kind. */
  ghost predicate Yields(store: RedisStore, c: Command, args: seq<string>)
    requires args != []
  {
    var r := RunCommand(store, NameOf(c), args);
    if RightKind(store, c, args[0]) then r.Ok? && Answered(store, c, args, FormatRows(NameOf(c), args, r.value))
    else r == Raise(ServerError)
  }

  lemma {:induction false} CountsExactly(store: RedisStore, keys: seq<string>)
    ensures CountExisting(store, keys) == |Filter((k: string) => k in store.values, keys)|
  {
    if keys != [] {
      CountsExactly(store, keys[1..]);
    }
  }

  lemma ExistsYields(store: RedisStore, args: seq<string>)
    requires args != []
    ensures Yields(store, Exists, args)
  {
    ClassifyExactly("EXISTS", Exists);
    hide Classify;
    var p := (k: string) => k in store.values;
    CountsExactly(store, args);
    FilterCounts(p, args);
    assert Positions(p, args) == set i: nat | i < |args| && args[i] in store.values;
  }

  lemma MGetYields(store: RedisStore, args: seq<string>)
    requires args != []
    ensures Yields(store, MGet, args)
  {
    ClassifyExactly("MGET", MGet);
    hide Classify;
    MGetRows(store, args);
  }

  function FieldsAt(store: RedisStore, key: string): (fields: seq<(string, string)>)
    requires RightKind(store, HGetAll, key)
    ensures HoldsHash(store, key, fields) && HashAt(store, key) == Ok(fields)
  {
    if key in store.values then store.values[key].fields else []
  }

  lemma HGetYields(store: RedisStore, args: seq<string>)
    requires |args| > 1
    ensures Yields(store, HGet, args)
  {
    ClassifyExactly("HGET", HGet);
    hide Classify, FieldHolds, FieldOf;
    if RightKind(store, HGet, args[0]) {
      var fields := FieldsAt(store, args[0]);
      FieldExactly(fields, args[1]);
    }
  }

  lemma HMGetYields(store: RedisStore, args: seq<string>)
    requires args != []
    ensures Yields(store, HMGet, args)
  {
    ClassifyExactly("HMGET", HMGet);
    hide Classify, FieldHolds, FieldOf;
    if RightKind(store, HMGet, args[0]) {
      var fields := FieldsAt(store, args[0]);
      HMGetRows(fields, args[1..]);
      forall name
        ensures FieldHolds(fields, name, ReplyOf(FieldOf(fields, name)))
      {
        FieldExactly(fields, name);
      }
    }
  }

  lemma HGetAllYields(store: RedisStore, args: seq<string>)
    requires args != []
    ensures Yields(store, HGetAll, args)
  {
    ClassifyExactly("HGETALL", HGetAll);
    hide Classify, SortFields;
    if RightKind(store, HGetAll, args[0]) {
      var fields := FieldsAt(store, args[0]);
      HGetAllRows(fields);
      assert SortedFields(fields, SortFields(fields), PairRows(SortFields(fields)));
    }
  }

  lemma TimeYields(store: RedisStore, c: Command, args: seq<string>)
    requires args != [] && (c.Ttl? || c.PTtl?)
    ensures Yields(store, c, args)
  {
    ClassifyExactly(NameOf(c), c);
    hide Classify;
    var left := TimeLeft(store, args[0]);
    var unit := if c.Ttl? then 1000 else 1;
    assert LivesFor(store, args[0], unit, if c.PTtl? || left < 0 then left else (left + 500) / 1000);
  }

  lemma KindYields(store: RedisStore, c: Command, args: seq<string>)
    requires args != [] && (c.Get? || c.Type?)
    ensures Yields(store, c, args)
  {
    ClassifyExactly(NameOf(c), c);
    hide Classify;
    assert c.Type? ==> KindName(store, args[0], TypeName(store, args[0]));
  }

  lemma LengthYields(store: RedisStore, c: Command, args: seq<string>)
    requires args != [] && (c.LLen? || c.SCard? || c.ZCard?)
    ensures Yields(store, c, args)
  {
    ClassifyExactly(NameOf(c), c);
    hide Classify;
    var key := args[0];
    if RightKind(store, c, key) {
      if c.LLen? {
        assert HoldsList(store, key, ListAt(store, key).value);
      } else if c.SCard? {
        assert HoldsSet(store, key, SetAt(store, key).value);
      } else {
        assert HoldsRanking(store, key, ZSetAt(store, key).value);
      }
    }
  }

  lemma RangeIsShown(items: seq<string>, start: string, stop: string, lo: int, hi: int)
    requires Range(start, stop, lo, hi) && 0 <= lo <= hi
    ensures RangeReply(Ok(items), start, stop) == Ok(Items(RangeOf(items, lo, hi)))
    ensures RangeShown(items, lo, hi, IndexRows(RangeOf(items, lo, hi)))
  {
    RangeRead(start, stop, lo, hi);
    hide Range;
    RangeRows(items, lo, hi);
  }

  /** The reply of a range command is that of its list or ranking. */
  lemma RangeRuns(store: RedisStore, c: Command, args: seq<string>)
    requires |args| > 2 && (c.LRange? || c.ZRange?)
    ensures RunCommand(store, NameOf(c), args)
         == RangeReply(if c.LRange? then ListAt(store, args[0]) else ZSetAt(store, args[0]), args[1], args[2])
    ensures forall items :: FormatRows(NameOf(c), args, Items(items)) == IndexRows(items)
  {
    ClassifyExactly(NameOf(c), c);
    hide Classify, RangeReply, IndexRows;
    assert args[1..][0] == args[1] && args[1..][1] == args[2];
  }

  lemma RangeAnswered(store: RedisStore, c: Command, args: seq<string>, items: seq<string>, lo: int, hi: int,
                      rows: seq<Row>)
    requires |args| > 2 && (c.LRange? || c.ZRange?) && Range(args[1], args[2], lo, hi)
    requires if c.LRange? then HoldsList(store, args[0], items) else HoldsRanking(store, args[0], items)
    requires RangeShown(items, lo, hi, rows)
    ensures Answered(store, c, args, rows)
  {
    hide Range, RangeShown, HoldsList, HoldsRanking;
  }

  lemma RangeFails(start: string, stop: string, lo: int, hi: int)
    requires Range(start, stop, lo, hi)
    ensures RangeReply(Raise(ServerError), start, stop) == Raise(ServerError)
  {
    RangeRead(start, stop, lo, hi);
    hide Range;
  }

  lemma RangeYields(settings: Settings, store: RedisStore, c: Command, args: seq<string>)
    requires (c.LRange? || c.ZRange?) && ArgsFit(settings, c, args)
    ensures Yields(store, c, args)
  {
    hide Range, Answered, RunCommand, FormatRows, RangeReply, RangeShown, IndexRows, RangeOf;
    var lo, hi :| Range(args[1], args[2], lo, hi) && 0 <= lo <= hi && hi - lo + 1 <= settings.maxItems;
    RangeRuns(store, c, args);
    RangeFails(args[1], args[2], lo, hi);
    if RightKind(store, c, args[0]) {
      var items := if c.LRange? then ListAt(store, args[0]).value else ZSetAt(store, args[0]).value;
      RangeIsShown(items, args[1], args[2], lo, hi);
      RangeAnswered(store, c, args, items, lo, hi, IndexRows(RangeOf(items, lo, hi)));
    }
  }

  lemma MembersYield(store: RedisStore, args: seq<string>)
    requires args != []
    ensures Yields(store, SMembers, args)
  {
    ClassifyExactly("SMEMBERS", SMembers);
    hide Classify;
    var key := args[0];
    if RightKind(store, SMembers, key) {
      var members := SetAt(store, key).value;
      assert HoldsSet(store, key, members);
      SortedTexts(members);
      assert SortedRows(members, SortTexts(members), IndexRows(SortTexts(members)));
    }
  }

  lemma SortedTexts(texts: seq<string>)
    ensures var sorted := SortTexts(texts);
            && multiset(sorted) == multiset(texts)
            && forall i, j :: 0 <= i < j < |sorted| ==> TextLeq(sorted[i], sorted[j])
  {
    var leq := (a: string, b: string) => TextLeq(a, b);
    forall a, b ensures leq(a, b) || leq(b, a) { TextLeqTotal(a, b); }
    forall a, b, c | leq(a, b) && leq(b, c) ensures leq(a, c) { TextLeqTransitive(a, b, c); }
    SortByOrdered(leq, texts);
    SortByContents(leq, texts);
    var sorted := SortTexts(texts);
    assert forall i, j :: 0 <= i < j < |sorted| ==> leq(sorted[i], sorted[j]);
  }

  /** Every command with fitting arguments yields what it is for, or fails on a key of another kind. */
  lemma RepliesExactly(settings: Settings, store: RedisStore, c: Command, args: seq<string>)
    requires ArgsFit(settings, c, args)
    ensures args != [] && Yields(store, c, args)
  {
    ArgsValidated(settings, c, args);
    match c
    case Exists => ExistsYields(store, args);
    case MGet => MGetYields(store, args);
    case HGet => HGetYields(store, args);
    case HMGet => HMGetYields(store, args);
    case HGetAll => HGetAllYields(store, args);
    case Ttl => TimeYields(store, c, args);
    case PTtl => TimeYields(store, c, args);
    case Get => KindYields(store, c, args);
    case Type => KindYields(store, c, args);
    case LRange => RangeYields(settings, store, c, args);
    case ZRange => RangeYields(settings, store, c, args);
    case SMembers => MembersYield(store, args);
    case _ => LengthYields(store, c, args);
  }

  // ------------------------------------------------------------ the whole execution

  /** More fields or members than the maximum: what the preflight looks for. */
  ghost predicate TooLarge(settings: Settings, store: RedisStore, c: Command, key: string) {
    || (c.HGetAll? && exists fields :: HoldsHash(store, key, fields) && |fields| > settings.maxItems)
    || (c.SMembers? && exists members :: HoldsSet(store, key, members) && |members| > settings.maxItems)
  }

  /** What the preflight finds on the store. */
  lemma PreflightExactly(settings: Settings, store: RedisStore, c: Command, decision: RedisDecision)
    requires decision.command == NameOf(c) && decision.args != []
    ensures Preflight(settings, store, decision)
         == if (c.HGetAll? || c.SMembers?) && !RightKind(store, c, decision.args[0]) then Raise(ServerError)
            else if TooLarge(settings, store, c, decision.args[0]) then Ok(Some("REDIS_RESULT_LIMIT_EXCEEDED"))
            else Ok(None)
  {
    ClassifyExactly(NameOf(c), c);
    hide Classify, NameOf;
    var key := decision.args[0];
    if c.HGetAll? && RightKind(store, c, key) {
      assert HoldsHash(store, key, HashAt(store, key).value);
    }
    if c.SMembers? && RightKind(store, c, key) {
      assert HoldsSet(store, key, SetAt(store, key).value);
    }
  }

  const TOO_LARGE := RedisExecuteResult(false, "REDIS_RESULT_LIMIT_EXCEEDED", [], 0)

  /** What executing a command gives when the server holds `first` at the preflight and `second` at the command. */
  ghost predicate Executed(settings: Settings, first: RedisStore, second: RedisStore, c: Command, args: seq<string>,
                           r: Result<RedisExecuteResult>)
    requires args != []
  {
    if (c.HGetAll? || c.SMembers?) && !RightKind(first, c, args[0]) then r == Raise(ServerError)
    else if TooLarge(settings, first, c, args[0]) then r == Ok(TOO_LARGE)
    else if !RightKind(second, c, args[0]) then r == Raise(ServerError)
    else
      exists rows :: Answered(second, c, args, rows)
                     && r == Ok(if |rows| <= settings.maxItems then RedisExecuteResult(true, "EXECUTED", rows, |rows|)
                                else TOO_LARGE)
  }

  lemma ExecutedOn(settings: Settings, first: RedisStore, second: RedisStore, c: Command, decision: RedisDecision)
    requires decision.command == NameOf(c) && ArgsFit(settings, c, decision.args)
    ensures decision.args != []
    ensures Executed(settings, first, second, c, decision.args, ExecuteOn(settings, first, second, decision))
  {
    RepliesExactly(settings, second, c, decision.args);
    hide ArgsFit, NameOf, Answered, RunCommand, FormatRows, Preflight, TooLarge, RightKind;
    PreflightExactly(settings, first, c, decision);
  }

  /**
   An allowed request is executed on the datasource it goes to, and shows the rows that command is for, by
   what that datasource's server holds; it is refused only for their number, and fails only on a key of
   another kind.
   */
  lemma ExecutedExactly(settings: Settings, metadata: Option<Store>, command: string, args: seq<string>,
                        ctx: RedisContext, preflightStore: Datasource -> RedisStore, runStore: Datasource -> RedisStore)
    requires metadata.Some? ==> DatasourceKeys(metadata.value.datasources)
    requires var r := Check(settings, metadata, command, args, ctx); r.Ok? && r.value.allowed
    ensures exists c, d ::
              && Admitted(settings, metadata, command, args, ctx, c, d) && args != []
              && Executed(settings, preflightStore(d), runStore(d), c, args,
                          Execute(settings, metadata, preflightStore, runStore,
                                  Check(settings, metadata, command, args, ctx).value))
  {
    hide Check, Spelled, NameOf, Asks, RoutesFor, ArgsFit, Reads, KeyPermitted, DatasourceKeys, SameIgnoringCase,
         ExecuteOn, Executed, FindDatasource;
    AllowedExactly(settings, metadata, command, args, ctx);
    var c, d :| Admitted(settings, metadata, command, args, ctx, c, d);
    var asked, catalog, key :| Asks(ctx, args, asked, catalog, key)
                               && RoutesFor(settings, metadata, asked, catalog, key, d);
    PlaceDecides(settings, metadata, command, args, ctx, c, asked, catalog, key, d);
    var decision := Check(settings, metadata, command, args, ctx).value;
    FoundAgain(settings, metadata, asked, catalog, key, d);
    ExecutedOn(settings, preflightStore(d), runStore(d), c, decision);
  }

  /** The datasource a request goes to is the one the decision's code finds. */
  lemma FoundAgain(settings: Settings, metadata: Option<Store>, asked: string, catalog: string, key: string,
                   d: Datasource)
    requires metadata.Some? ==> DatasourceKeys(metadata.value.datasources)
    requires RoutesFor(settings, metadata, asked, catalog, key, d)
    ensures FindDatasource(settings, metadata, if asked != "" then asked else d.code) == Ok(Some(d))
  {
    hide FindDatasource, DatasourceKeys, Serves;
    AskedByCode(settings, metadata, if asked != "" then asked else d.code);
  }

  /** A refused request is answered with its refusal, and one whose datasource is gone with that; no server is asked. */
  lemma RefusedWithoutServer(settings: Settings, metadata: Option<Store>, decision: RedisDecision,
                             preflightStore: Datasource -> RedisStore, runStore: Datasource -> RedisStore)
    requires metadata.Some? ==> DatasourceKeys(metadata.value.datasources)
    ensures var r := Execute(settings, metadata, preflightStore, runStore, decision);
            && (!decision.allowed ==> r == Ok(RedisExecuteResult(false, decision.reasonCode, [], 0)))
            && (decision.allowed && (forall d :: !Coded(settings, metadata, decision.datasourceCode, d)) ==>
                  r == Ok(RedisExecuteResult(false, "REDIS_DATASOURCE_NOT_FOUND", [], 0)))
  {
    hide FindDatasource, DatasourceKeys, ExecuteOn;
    AskedByCode(settings, metadata, decision.datasourceCode);
    var found := FindDatasource(settings, metadata, decision.datasourceCode).value;
    assert found.Some? ==> Coded(settings, metadata, decision.datasourceCode, found.value);
  }
}
