/** What a successful import declares, exactly when an import raises, and what it does not depend on. */
module ImporterProofs {
  import opened Wrappers
  import opened Text
  import opened Sequences
  import opened Identifiers
  import opened Metadata
  import opened Importer

  // ------------------------------------------------------------ claims

  /** Two claims for one route value that disagree on the table or the datasource. */
  predicate Conflict(a: Claim, b: Claim) {
    a.routeValue == b.routeValue && (a.physicalTableName, a.datasourceCode) != (b.physicalTableName, b.datasourceCode)
  }

  ghost predicate HasConflict(claims: seq<Claim>) {
    exists a, b :: a in claims && b in claims && Conflict(a, b)
  }

  /** `seen` records exactly the claimed values, each with the target every claim gives it. */
  ghost predicate SeenFits(seen: map<string, (string, string)>, claims: seq<Claim>) {
    && (forall v :: v in seen ==> exists c :: c in claims && c.routeValue == v)
    && (forall c :: c in claims ==>
          c.routeValue in seen && seen[c.routeValue] == (c.physicalTableName, c.datasourceCode))
  }

  lemma InSnoc<T>(s: seq<T>, x: T)
    ensures forall y :: y in s + [x] <==> y in s || y == x
  {
  }

  lemma SeenNoConflict(seen: map<string, (string, string)>, claims: seq<Claim>)
    requires SeenFits(seen, claims)
    ensures !HasConflict(claims)
  {
  }

  lemma SeenNext(seen: map<string, (string, string)>, claims: seq<Claim>, c: Claim)
    requires SeenFits(seen, claims)
    ensures c.routeValue in seen && seen[c.routeValue] != (c.physicalTableName, c.datasourceCode) ==>
          HasConflict(claims + [c])
    ensures c.routeValue in seen && seen[c.routeValue] == (c.physicalTableName, c.datasourceCode) ==>
          SeenFits(seen, claims + [c])
    ensures c.routeValue !in seen ==>
          SeenFits(seen[c.routeValue := (c.physicalTableName, c.datasourceCode)], claims + [c])
  {
    InSnoc(claims, c);
    if c.routeValue in seen && seen[c.routeValue] != (c.physicalTableName, c.datasourceCode) {
      var a :| a in claims && a.routeValue == c.routeValue;
      assert Conflict(a, c);
    }
  }

  lemma SeenOverwrite(seen: map<string, (string, string)>, v: string, t: (string, string))
    requires v in seen && seen[v] == t
    ensures seen[v := t] == seen
  {
  }

  /** A group raises exactly when two of its claims conflict. */
  lemma {:induction false} EmitRaisesOnConflict(key: string, skipSeen: bool, claims: seq<Claim>)
    ensures var r := EmitClaims(key, skipSeen, claims);
            if r.Raise? then r.error == ValueError && HasConflict(claims)
            else SeenFits(r.value.seen, claims) && !HasConflict(claims)
  {
    hide HasConflict, SeenFits;
    if claims == [] {
      NothingSeen();
      SeenNoConflict(map[], []);
    } else {
      var front, c := claims[..|claims| - 1], claims[|claims| - 1];
      assert claims == front + [c];
      EmitRaisesOnConflict(key, skipSeen, front);
      var r := EmitClaims(key, skipSeen, front);
      if r.Raise? {
        ConflictGrows(front, c);
      } else {
        var seen := r.value.seen;
        SeenNext(seen, front, c);
        if c.routeValue in seen && seen[c.routeValue] == (c.physicalTableName, c.datasourceCode) {
          SeenOverwrite(seen, c.routeValue, (c.physicalTableName, c.datasourceCode));
        }
        var s := EmitClaims(key, skipSeen, claims);
        if s.Ok? {
          SeenNoConflict(s.value.seen, claims);
        }
      }
    }
  }

  lemma NothingSeen()
    ensures SeenFits(map[], [])
  {
  }

  lemma ConflictGrows(claims: seq<Claim>, c: Claim)
    requires HasConflict(claims)
    ensures HasConflict(claims + [c])
  {
    InSnoc(claims, c);
  }

  /** A route gives this value this table and datasource. */
  predicate SaysTriple(r: RouteRecord, value: string, physical: string, code: string) {
    r.routeValue == value && r.physicalTableName == physical && r.datasourceCode == code
  }

  /** A route says what a claim says. */
  predicate Says(r: RouteRecord, c: Claim) {
    SaysTriple(r, c.routeValue, c.physicalTableName, c.datasourceCode)
  }

  /** Every route comes from a claim. */
  ghost predicate RoutesClaimed(key: string, routes: seq<RouteRecord>, claims: seq<Claim>) {
    forall r :: r in routes ==> exists c :: c in claims && r == Record(key, c)
  }

  /** Every claim has a route that says it. */
  ghost predicate ClaimsRouted(routes: seq<RouteRecord>, claims: seq<Claim>) {
    forall c :: c in claims ==> exists r :: r in routes && Says(r, c)
  }

  ghost predicate ValuesDistinct(routes: seq<RouteRecord>) {
    forall i, j :: 0 <= i < j < |routes| ==> routes[i].routeValue != routes[j].routeValue
  }

  lemma RoutesClaimedMore(key: string, routes: seq<RouteRecord>, claims: seq<Claim>, c: Claim)
    requires RoutesClaimed(key, routes, claims)
    ensures RoutesClaimed(key, routes, claims + [c])
    ensures RoutesClaimed(key, routes + [Record(key, c)], claims + [c])
  {
    InSnoc(claims, c);
    InSnoc(routes, Record(key, c));
  }

  lemma ClaimsRoutedMore(key: string, routes: seq<RouteRecord>, claims: seq<Claim>, c: Claim)
    requires ClaimsRouted(routes, claims)
    ensures ClaimsRouted(routes + [Record(key, c)], claims + [c])
    ensures (exists r :: r in routes && Says(r, c)) ==> ClaimsRouted(routes, claims + [c])
  {
    InSnoc(claims, c);
    InSnoc(routes, Record(key, c));
    assert Says(Record(key, c), c);
  }

  /** The routes of a group are its claims, without repetition when the group is sharded and one each when it is not. */
  lemma {:induction false} EmitMatches(key: string, skipSeen: bool, claims: seq<Claim>)
    ensures var r := EmitClaims(key, skipSeen, claims);
            r.Ok? ==>
              && RoutesClaimed(key, r.value.routes, claims)
              && ClaimsRouted(r.value.routes, claims)
              && (skipSeen ==> ValuesDistinct(r.value.routes))
              && (!skipSeen ==> |r.value.routes| == |claims|)
  {
    hide HasConflict, SeenFits, RoutesClaimed, ClaimsRouted, ValuesDistinct;
    if claims == [] {
      NoRoutes(key);
    } else {
      var front, c := claims[..|claims| - 1], claims[|claims| - 1];
      assert claims == front + [c];
      EmitMatches(key, skipSeen, front);
      EmitRaisesOnConflict(key, skipSeen, front);
      var r := EmitClaims(key, skipSeen, front);
      if r.Ok? && EmitClaims(key, skipSeen, claims).Ok? {
        EmitMatchesStep(key, skipSeen, r.value, front, c);
      }
    }
  }

  lemma NoRoutes(key: string)
    ensures RoutesClaimed(key, [], []) && ClaimsRouted([], []) && ValuesDistinct([])
  {
  }

  lemma EmitMatchesStep(key: string, skipSeen: bool, st: Emission, front: seq<Claim>, c: Claim)
    requires SeenFits(st.seen, front) && RoutesClaimed(key, st.routes, front) && ClaimsRouted(st.routes, front)
    requires skipSeen ==> ValuesDistinct(st.routes)
    requires EmitClaim(key, skipSeen, st, c).Ok?
    ensures var next := EmitClaim(key, skipSeen, st, c).value;
            && RoutesClaimed(key, next.routes, front + [c])
            && ClaimsRouted(next.routes, front + [c])
            && (skipSeen ==> ValuesDistinct(next.routes))
            && (!skipSeen ==> |next.routes| == |st.routes| + 1)
  {
    hide RoutesClaimed, ClaimsRouted, SeenFits, ValuesDistinct;
    RoutesClaimedMore(key, st.routes, front, c);
    ClaimsRoutedMore(key, st.routes, front, c);
    if skipSeen {
      if c.routeValue in st.seen {
        SeenIsSaid(st.routes, front, c, st.seen);
      } else {
        NewValue(key, st.routes, front, c, st.seen);
      }
    }
  }

  lemma SeenIsSaid(routes: seq<RouteRecord>, claims: seq<Claim>, c: Claim, seen: map<string, (string, string)>)
    requires SeenFits(seen, claims) && ClaimsRouted(routes, claims)
    requires c.routeValue in seen && seen[c.routeValue] == (c.physicalTableName, c.datasourceCode)
    ensures exists r :: r in routes && Says(r, c)
  {
    var earlier :| earlier in claims && earlier.routeValue == c.routeValue;
    hide SeenFits;
    var r :| r in routes && Says(r, earlier);
    assert Says(r, c);
  }

  lemma NewValue(key: string, routes: seq<RouteRecord>, claims: seq<Claim>, c: Claim,
                 seen: map<string, (string, string)>)
    requires SeenFits(seen, claims) && RoutesClaimed(key, routes, claims) && c.routeValue !in seen
    requires ValuesDistinct(routes)
    ensures ValuesDistinct(routes + [Record(key, c)])
  {
    forall i | 0 <= i < |routes|
      ensures routes[i].routeValue != c.routeValue
    {
      assert routes[i] in routes;
      var a :| a in claims && routes[i] == Record(key, a);
    }
  }

  // ------------------------------------------------------------ claims of rows

  lemma {:induction false} ShardClaimsAre(hash: Hasher, row: TableConfigRow, lo: int, hi: int)
    ensures forall c :: c in ShardClaims(hash, row, lo, hi) <==>
          exists k :: lo <= k < hi && c == ShardClaim(hash, row, k)
    decreases hi - lo
  {
    hide ShardClaim;
    if lo < hi {
      ShardClaimsAre(hash, row, lo, hi - 1);
      InSnoc(ShardClaims(hash, row, lo, hi - 1), ShardClaim(hash, row, hi - 1));
    }
  }

  /** The claim is made by one of the rows. */
  ghost predicate ClaimedBy(hash: Hasher, style: Style, rows: seq<TableConfigRow>, c: Claim) {
    exists row :: row in rows && c in RowClaims(hash, style, row)
  }

  lemma {:induction false} AllClaimsAre(hash: Hasher, style: Style, rows: seq<TableConfigRow>)
    ensures forall c :: c in AllClaims(hash, style, rows) <==> ClaimedBy(hash, style, rows, c)
  {
    hide RowClaims;
    if rows != [] {
      var front, last := rows[..|rows| - 1], rows[|rows| - 1];
      AllClaimsAre(hash, style, front);
      assert rows == front + [last];
      InSnoc(front, last);
      forall c
        ensures c in AllClaims(hash, style, rows) <==> ClaimedBy(hash, style, rows, c)
      {
        assert c in AllClaims(hash, style, rows) <==>
            c in AllClaims(hash, style, front) || c in RowClaims(hash, style, last);
      }
    }
  }

  lemma SortedClaims(hash: Hasher, style: Style, rows: seq<TableConfigRow>)
    ensures forall c :: c in AllClaims(hash, style, SortRows(rows)) <==> ClaimedBy(hash, style, rows, c)
  {
    hide RowClaims, AllClaims;
    AllClaimsAre(hash, style, SortRows(rows));
    SortBySame((a: TableConfigRow, b: TableConfigRow) => RowLeq(a, b), rows);
  }

  // ------------------------------------------------------------ one group

  /** Two deduplicated rows of the group claim one route value differently. */
  ghost predicate GroupConflict(hash: Hasher, kept: seq<TableConfigRow>, key: string) {
    var segments := GroupSegments(hash, kept, key);
    exists a, b ::
      && ClaimedBy(hash, StyleOf(segments), segments, a)
      && ClaimedBy(hash, StyleOf(segments), segments, b)
      && Conflict(a, b)
  }

  /** A deduplicated row of the group declares this route. */
  ghost predicate Declares(hash: Hasher, kept: seq<TableConfigRow>, key: string, value: string, physical: string,
                           code: string) {
    var segments := GroupSegments(hash, kept, key);
    exists c ::
      && ClaimedBy(hash, StyleOf(segments), segments, c)
      && c.routeValue == value && c.physicalTableName == physical && c.datasourceCode == code
  }

  lemma GroupRaises(hash: Hasher, kept: seq<TableConfigRow>, key: string)
    ensures var r := GroupRoutes(hash, kept, key);
            (r.Raise? <==> GroupConflict(hash, kept, key)) && (r.Raise? ==> r.error == ValueError)
  {
    hide EmitClaims, AllClaims, GroupSegments, StyleOf, ClaimedBy, SortRows;
    var segments := GroupSegments(hash, kept, key);
    var style := StyleOf(segments);
    SortedClaims(hash, style, segments);
    EmitRaisesOnConflict(key, Sharded(style), AllClaims(hash, style, SortRows(segments)));
  }

  /** Every route of the group is declared by a segment. */
  ghost predicate AllDeclared(hash: Hasher, kept: seq<TableConfigRow>, key: string, routes: seq<RouteRecord>) {
    forall r :: r in routes ==>
        r.logicalTableName == key && Declares(hash, kept, key, r.routeValue, r.physicalTableName, r.datasourceCode)
  }

  /** Every declared route is there. */
  ghost predicate AllRouted(hash: Hasher, kept: seq<TableConfigRow>, key: string, routes: seq<RouteRecord>) {
    forall v, p, d :: Declares(hash, kept, key, v, p, d) ==> exists r :: r in routes && SaysTriple(r, v, p, d)
  }

  lemma ClaimedAreDeclared(hash: Hasher, kept: seq<TableConfigRow>, key: string, claims: seq<Claim>,
                           routes: seq<RouteRecord>)
    requires var segments := GroupSegments(hash, kept, key);
             forall c :: c in claims <==> ClaimedBy(hash, StyleOf(segments), segments, c)
    requires RoutesClaimed(key, routes, claims)
    ensures AllDeclared(hash, kept, key, routes)
  {
    hide GroupSegments, StyleOf, ClaimedBy;
  }

  lemma RoutedAreSaid(hash: Hasher, kept: seq<TableConfigRow>, key: string, claims: seq<Claim>,
                      routes: seq<RouteRecord>)
    requires var segments := GroupSegments(hash, kept, key);
             forall c :: c in claims <==> ClaimedBy(hash, StyleOf(segments), segments, c)
    requires ClaimsRouted(routes, claims)
    ensures AllRouted(hash, kept, key, routes)
  {
    hide GroupSegments, StyleOf, ClaimedBy;
    forall v, p, d | Declares(hash, kept, key, v, p, d)
      ensures exists r :: r in routes && SaysTriple(r, v, p, d)
    {
      var segments := GroupSegments(hash, kept, key);
      var c :| ClaimedBy(hash, StyleOf(segments), segments, c) && c.routeValue == v && c.physicalTableName == p &&
          c.datasourceCode == d;
      assert c in claims;
      var r :| r in routes && Says(r, c);
      assert SaysTriple(r, v, p, d);
    }
  }

  /** A group that does not raise emits exactly the declared routes. */
  lemma GroupDeclares(hash: Hasher, kept: seq<TableConfigRow>, key: string)
    requires GroupRoutes(hash, kept, key).Ok?
    ensures var routes := GroupRoutes(hash, kept, key).value;
            && AllDeclared(hash, kept, key, routes)
            && AllRouted(hash, kept, key, routes)
            && (Sharded(GroupStyle(hash, kept, key)) ==> ValuesDistinct(routes))
            && (!Sharded(GroupStyle(hash, kept, key)) ==> |routes| == |GroupSegments(hash, kept, key)|)
  {
    hide EmitClaims, AllClaims, GroupSegments, StyleOf, ClaimedBy, SortRows, ValuesDistinct, RoutesClaimed,
         ClaimsRouted, AllDeclared, AllRouted;
    var segments := GroupSegments(hash, kept, key);
    var style := StyleOf(segments);
    var claims := AllClaims(hash, style, SortRows(segments));
    SortedClaims(hash, style, segments);
    EmitMatches(key, Sharded(style), claims);
    var routes := GroupRoutes(hash, kept, key).value;
    ClaimedAreDeclared(hash, kept, key, claims, routes);
    RoutedAreSaid(hash, kept, key, claims, routes);
    if !Sharded(style) {
      OneClaimEach(hash, style, SortRows(segments));
      SortedLength(segments);
    }
  }

  lemma SortedLength(rows: seq<TableConfigRow>)
    ensures |SortRows(rows)| == |rows|
  {
    SortBySame((a: TableConfigRow, b: TableConfigRow) => RowLeq(a, b), rows);
  }

  lemma {:induction false} OneClaimEach(hash: Hasher, style: Style, rows: seq<TableConfigRow>)
    requires !Sharded(style)
    ensures |AllClaims(hash, style, rows)| == |rows|
  {
    if rows != [] {
      OneClaimEach(hash, style, rows[..|rows| - 1]);
    }
  }

  // ------------------------------------------------------------ all groups

  lemma {:induction false} BuildRaisesOnGroup(hash: Hasher, kept: seq<TableConfigRow>, keys: seq<string>)
    requires forall key :: key in keys ==> GroupRows(hash, kept, key) != []
    ensures var r := BuildGroups(hash, kept, keys);
            (r.Raise? <==> exists key :: key in keys && GroupConflict(hash, kept, key)) &&
                (r.Raise? ==> r.error == ValueError)
  {
    hide GroupRoutes, GroupConflict, GroupStyle, TableRecord, FactorRecords, RuleFor, GroupRows, GroupSegments;
    if keys != [] {
      var front, key := keys[..|keys| - 1], keys[|keys| - 1];
      assert keys == front + [key];
      InSnoc(front, key);
      BuildRaisesOnGroup(hash, kept, front);
      GroupRaises(hash, kept, key);
    }
  }

  /** The routes of the groups `keys`, and nothing else. */
  ghost predicate RoutesBuilt(hash: Hasher, kept: seq<TableConfigRow>, keys: seq<string>, routes: seq<RouteRecord>) {
    && (forall key :: key in keys ==> GroupRoutes(hash, kept, key).Ok?)
    && (forall key, r :: key in keys && r in GroupRoutes(hash, kept, key).value ==> r in routes)
    && (forall r :: r in routes ==>
          r.logicalTableName in keys && r in GroupRoutes(hash, kept, r.logicalTableName).value)
  }

  /** Within a sharded group no two routes share a route value. */
  ghost predicate ShardedDistinct(hash: Hasher, kept: seq<TableConfigRow>, routes: seq<RouteRecord>) {
    forall i, j :: 0 <= i < j < |routes| && routes[i].logicalTableName == routes[j].logicalTableName
                   && Sharded(GroupStyle(hash, kept, routes[i].logicalTableName)) ==>
      routes[i].routeValue != routes[j].routeValue
  }

  function ModulusOf(style: Style): Option<int> {
    match style case Business(m) => Some(m) case _ => None
  }

  /** One logical table and one rule per group, in the order of the keys. */
  ghost predicate TablesBuilt(hash: Hasher, kept: seq<TableConfigRow>, keys: seq<string>, p: Parts) {
    && |p.logicalTables| == |p.rules| == |keys|
    && forall i :: 0 <= i < |keys| ==>
         && p.logicalTables[i].tableName == keys[i]
         && p.logicalTables[i].shardModulus == ModulusOf(GroupStyle(hash, kept, keys[i]))
         && p.logicalTables[i].rowCount == |GroupRows(hash, kept, keys[i])|
         && GroupRows(hash, kept, keys[i]) != []
         && p.logicalTables[i] == TableRecord(keys[i], GroupStyle(hash, kept, keys[i]), GroupRows(hash, kept, keys[i]),
                                              GroupSegments(hash, kept, keys[i]))
         && p.rules[i] == RuleFor(keys[i], GroupStyle(hash, kept, keys[i]))
  }

  ghost predicate FactorsBuilt(hash: Hasher, kept: seq<TableConfigRow>, keys: seq<string>, factors: seq<FactorRecord>) {
    forall f :: f in factors <==>
        f.logicalTableName in keys && f in FactorRecords(f.logicalTableName, GroupStyle(hash, kept, f.logicalTableName))
  }

  ghost predicate BuiltFrom(hash: Hasher, kept: seq<TableConfigRow>, keys: seq<string>, p: Parts) {
    && RoutesBuilt(hash, kept, keys, p.routes)
    && TablesBuilt(hash, kept, keys, p)
    && FactorsBuilt(hash, kept, keys, p.factors)
    && ShardedDistinct(hash, kept, p.routes)
  }

  lemma GroupRoutesNamed(hash: Hasher, kept: seq<TableConfigRow>, key: string)
    requires GroupRoutes(hash, kept, key).Ok?
    ensures forall r :: r in GroupRoutes(hash, kept, key).value ==> r.logicalTableName == key
    ensures Sharded(GroupStyle(hash, kept, key)) ==> ValuesDistinct(GroupRoutes(hash, kept, key).value)
  {
    hide GroupRoutes, GroupStyle, ValuesDistinct;
    GroupDeclares(hash, kept, key);
  }

  lemma RoutesBuiltNext(hash: Hasher, kept: seq<TableConfigRow>, keys: seq<string>, routes: seq<RouteRecord>,
                        key: string)
    requires RoutesBuilt(hash, kept, keys, routes) && GroupRoutes(hash, kept, key).Ok?
    ensures RoutesBuilt(hash, kept, keys + [key], routes + GroupRoutes(hash, kept, key).value)
  {
    hide GroupRoutes;
    GroupRoutesNamed(hash, kept, key);
    InSnoc(keys, key);
  }

  lemma ShardedDistinctNext(hash: Hasher, kept: seq<TableConfigRow>, keys: seq<string>, routes: seq<RouteRecord>,
                            key: string)
    requires RoutesBuilt(hash, kept, keys, routes) && ShardedDistinct(hash, kept, routes)
    requires GroupRoutes(hash, kept, key).Ok? && key !in keys
    ensures ShardedDistinct(hash, kept, routes + GroupRoutes(hash, kept, key).value)
  {
    hide GroupRoutes, GroupStyle;
    GroupRoutesNamed(hash, kept, key);
    var more := GroupRoutes(hash, kept, key).value;
    var all := routes + more;
    forall i, j | 0 <= i < j < |all| && all[i].logicalTableName == all[j].logicalTableName &&
        Sharded(GroupStyle(hash, kept, all[i].logicalTableName))
      ensures all[i].routeValue != all[j].routeValue
    {
      assert i < |routes| ==> all[i] == routes[i] && routes[i] in routes;
      assert j >= |routes| ==> all[j] == more[j - |routes|] && more[j - |routes|] in more;
      assert i >= |routes| ==> all[i] == more[i - |routes|];
    }
  }

  lemma TablesBuiltNext(hash: Hasher, kept: seq<TableConfigRow>, keys: seq<string>, p: Parts, key: string, q: Parts)
    requires TablesBuilt(hash, kept, keys, p) && GroupRows(hash, kept, key) != []
    requires q.logicalTables == p.logicalTables +
          [TableRecord(key, GroupStyle(hash, kept, key), GroupRows(hash, kept, key), GroupSegments(hash, kept, key))]
    requires q.rules == p.rules + [RuleFor(key, GroupStyle(hash, kept, key))]
    ensures TablesBuilt(hash, kept, keys + [key], q)
  {
    hide GroupStyle, GroupRows, GroupSegments, RuleFor;
  }

  lemma FactorsBuiltNext(hash: Hasher, kept: seq<TableConfigRow>, keys: seq<string>, factors: seq<FactorRecord>,
                         key: string)
    requires FactorsBuilt(hash, kept, keys, factors)
    ensures FactorsBuilt(hash, kept, keys + [key], factors + FactorRecords(key, GroupStyle(hash, kept, key)))
  {
    FactorRecordsNamed(key, GroupStyle(hash, kept, key));
    hide GroupStyle, FactorRecords;
    InSnoc(keys, key);
  }

  lemma FactorRecordsNamed(key: string, style: Style)
    ensures forall f :: f in FactorRecords(key, style) ==> f.logicalTableName == key
  {
  }

  lemma BuiltFromNothing(hash: Hasher, kept: seq<TableConfigRow>)
    ensures BuiltFrom(hash, kept, [], Parts([], [], [], []))
  {
  }

  lemma FrontOfKeys(front: seq<string>, key: string)
    requires NoDuplicates(front + [key])
    ensures NoDuplicates(front) && key !in front
    ensures forall k :: k in front + [key] <==> k in front || k == key
  {
    var all := front + [key];
    assert all[|front|] == key;
    assert forall i :: 0 <= i < |front| ==> all[i] == front[i];
    InSnoc(front, key);
  }

  lemma {:induction false} BuiltGroups(hash: Hasher, kept: seq<TableConfigRow>, keys: seq<string>)
    requires forall key :: key in keys ==> GroupRows(hash, kept, key) != []
    requires NoDuplicates(keys) && BuildGroups(hash, kept, keys).Ok?
    ensures BuiltFrom(hash, kept, keys, BuildGroups(hash, kept, keys).value)
  {
    hide GroupRoutes, FactorRecords, RuleFor, GroupRows, GroupSegments, GroupStyle, TableRecord, RoutesBuilt,
         TablesBuilt, FactorsBuilt, ShardedDistinct, NoDuplicates;
    if keys == [] {
      BuiltFromNothing(hash, kept);
    } else {
      var front, key := keys[..|keys| - 1], keys[|keys| - 1];
      assert keys == front + [key];
      FrontOfKeys(front, key);
      BuiltGroups(hash, kept, front);
      var p := BuildGroups(hash, kept, front).value;
      RoutesBuiltNext(hash, kept, front, p.routes, key);
      ShardedDistinctNext(hash, kept, front, p.routes, key);
      FactorsBuiltNext(hash, kept, front, p.factors, key);
      TablesBuiltNext(hash, kept, front, p, key, BuildGroups(hash, kept, keys).value);
    }
  }

  lemma {:induction false} GroupKeysDistinct(hash: Hasher, kept: seq<TableConfigRow>)
    ensures NoDuplicates(GroupKeys(hash, kept))
  {
    hide GroupKey;
    if kept != [] {
      GroupKeysDistinct(hash, kept[..|kept| - 1]);
    }
  }

  lemma KeysReady(hash: Hasher, kept: seq<TableConfigRow>)
    ensures NoDuplicates(SortedKeys(hash, kept))
    ensures forall key :: key in SortedKeys(hash, kept) ==> GroupRows(hash, kept, key) != []
    ensures forall key :: key in SortedKeys(hash, kept) <==> key in GroupKeys(hash, kept)
  {
    hide GroupKeys, GroupRows;
    GroupKeysDistinct(hash, kept);
    SortedKeysHaveRows(hash, kept);
    SortByNoDuplicates((a: string, b: string) => TextLeq(a, b), GroupKeys(hash, kept));
  }

  // ------------------------------------------------------------ main results

  /** An import raises exactly when some group has two deduplicated rows that claim one route value differently. */
  lemma ImportRaisesExactly(hash: Hasher, rows: seq<TableConfigRow>, connection: Connection)
    ensures var r := BuildSpec(hash, rows, connection);
            && (r.Raise? <==> exists key :: key in GroupKeys(hash, Kept(rows)) && GroupConflict(hash, Kept(rows), key))
            && (r.Raise? ==> r.error == ValueError)
  {
    hide GroupKeys, BuildGroups, GroupConflict, SortedKeys, GroupRows, Kept;
    KeysReady(hash, Kept(rows));
    var sorted := SortedKeys(hash, Kept(rows));
    BuildRaisesOnGroup(hash, Kept(rows), sorted);
    var r := BuildSpec(hash, rows, connection);
    assert r.Raise? <==> BuildGroups(hash, Kept(rows), sorted).Raise?;
    if exists key :: key in GroupKeys(hash, Kept(rows)) && GroupConflict(hash, Kept(rows), key) {
      var key :| key in GroupKeys(hash, Kept(rows)) && GroupConflict(hash, Kept(rows), key);
      assert key in sorted && GroupConflict(hash, Kept(rows), key);
      assert r.Raise?;
    }
    if r.Raise? {
      var key :| key in sorted && GroupConflict(hash, Kept(rows), key);
      assert key in GroupKeys(hash, Kept(rows));
    }
  }

  lemma ImportBuilt(hash: Hasher, rows: seq<TableConfigRow>, connection: Connection)
    requires BuildSpec(hash, rows, connection).Ok?
    ensures var b := BuildSpec(hash, rows, connection).value;
            BuiltFrom(hash, Kept(rows), SortedKeys(hash, Kept(rows)),
                Parts(b.logicalTables, b.factors, b.rules, b.routes))
  {
    hide GroupKeys, BuildGroups, SortedKeys, GroupRows, Kept, BuiltFrom;
    KeysReady(hash, Kept(rows));
    BuiltGroups(hash, Kept(rows), SortedKeys(hash, Kept(rows)));
  }

  /** The routes of a successful import are exactly what the segments declare. */
  lemma ImportDeclaresExactly(hash: Hasher, rows: seq<TableConfigRow>, connection: Connection, key: string,
                              value: string, physical: string, code: string)
    requires BuildSpec(hash, rows, connection).Ok?
    ensures var b := BuildSpec(hash, rows, connection).value;
            (exists r :: r in b.routes && r.logicalTableName == key && SaysTriple(r, value, physical, code)) <==>
            key in GroupKeys(hash, Kept(rows)) && Declares(hash, Kept(rows), key, value, physical, code)
  {
    hide GroupKeys, BuildGroups, SortedKeys, GroupRows, Kept, GroupRoutes, GroupStyle, Declares;
    var b := BuildSpec(hash, rows, connection).value;
    ImportBuilt(hash, rows, connection);
    KeysReady(hash, Kept(rows));
    if key in GroupKeys(hash, Kept(rows)) {
      GroupDeclares(hash, Kept(rows), key);
    }
  }

  // ------------------------------------------------------------ the order of the bundle

  /** Tables and rules are listed in the order of their names, datasources in the order of their codes. */
  lemma BundleOrdered(hash: Hasher, rows: seq<TableConfigRow>, connection: Connection)
    requires BuildSpec(hash, rows, connection).Ok?
    ensures var b := BuildSpec(hash, rows, connection).value;
            && (forall i, j :: 0 <= i < j < |b.logicalTables| ==>
                  TextLeq(b.logicalTables[i].tableName, b.logicalTables[j].tableName))
            && (forall i, j :: 0 <= i < j < |b.rules| ==>
                  TextLeq(b.rules[i].logicalTableName, b.rules[j].logicalTableName))
            && (forall i, j :: 0 <= i < j < |b.datasources| ==> TextLeq(b.datasources[i].code, b.datasources[j].code))
  {
    hide BuildGroups, Kept, GroupRows, SortedKeys, GroupStyle, RoutesBuilt, FactorsBuilt, ShardedDistinct, Datasources,
         CountBlank;
    ImportBuilt(hash, rows, connection);
    KeysOrdered(hash, Kept(rows));
    var b, keys := BuildSpec(hash, rows, connection).value, SortedKeys(hash, Kept(rows));
    assert forall i, j :: 0 <= i < j < |keys| ==> TextLeq(keys[i], keys[j]);
    assert forall i :: 0 <= i < |keys| ==>
        b.logicalTables[i].tableName == keys[i] && b.rules[i].logicalTableName == keys[i];
    CodesOrdered(Datasources(hash, Kept(rows), connection));
  }

  lemma KeysOrdered(hash: Hasher, kept: seq<TableConfigRow>)
    ensures var sorted := SortedKeys(hash, kept);
            forall i, j :: 0 <= i < j < |sorted| ==> TextLeq(sorted[i], sorted[j])
  {
    var leq := (a: string, b: string) => TextLeq(a, b);
    forall a, b ensures leq(a, b) || leq(b, a) { TextLeqTotal(a, b); }
    forall a, b, c | leq(a, b) && leq(b, c) ensures leq(a, c) { TextLeqTransitive(a, b, c); }
    SortByOrdered(leq, GroupKeys(hash, kept));
    var sorted := SortedKeys(hash, kept);
    assert forall i, j :: 0 <= i < j < |sorted| ==> leq(sorted[i], sorted[j]);
  }

  lemma CodesOrdered(ds: seq<DatasourceRecord>)
    ensures var sorted := SortDatasources(ds);
            forall i, j :: 0 <= i < j < |sorted| ==> TextLeq(sorted[i].code, sorted[j].code)
  {
    var leq := (a: DatasourceRecord, b: DatasourceRecord) => TextLeq(a.code, b.code);
    forall a, b ensures leq(a, b) || leq(b, a) { TextLeqTotal(a.code, b.code); }
    forall a, b, c | leq(a, b) && leq(b, c) ensures leq(a, c) { TextLeqTransitive(a.code, b.code, c.code); }
    SortByOrdered(leq, ds);
    var sorted := SortDatasources(ds);
    assert forall i, j :: 0 <= i < j < |sorted| ==> leq(sorted[i], sorted[j]);
  }

  // ------------------------------------------------------------ modulus routing is total

  predicate IsRouteFor(r: RouteRecord, key: string, value: string) {
    r.logicalTableName == key && r.routeValue == value
  }

  predicate Covers(row: TableConfigRow, suffix: int) {
    row.beginIndex <= suffix <= row.endIndex
  }

  lemma {:induction false} SuffixIsCovered(rows: seq<TableConfigRow>, suffix: int)
    requires suffix in ShardSuffixes(rows)
    ensures exists row :: row in rows && Covers(row, suffix)
  {
    if rows[0].shardCount > 0 && Covers(rows[0], suffix) {
      assert rows[0] in rows;
    } else {
      SuffixIsCovered(rows[1..], suffix);
      var row :| row in rows[1..] && Covers(row, suffix);
      assert row in rows;
    }
  }

  lemma CoveringClaim(hash: Hasher, style: Style, rows: seq<TableConfigRow>, row: TableConfigRow, suffix: int)
    requires Sharded(style) && row in rows && Covers(row, suffix)
    ensures ClaimedBy(hash, style, rows, ShardClaim(hash, row, suffix))
  {
    hide ShardClaims, ShardClaim;
    ShardClaimsAre(hash, row, row.beginIndex, row.endIndex + 1);
    assert ShardClaim(hash, row, suffix) in RowClaims(hash, style, row);
  }

  /**
   The route at a suffix of a sharded group that did not raise: it is there, once, and every covering
   row names it.
   */
  lemma SuffixRouted(hash: Hasher, kept: seq<TableConfigRow>, key: string, suffix: int)
    requires GroupRoutes(hash, kept, key).Ok? && Sharded(GroupStyle(hash, kept, key))
    requires exists row :: row in GroupSegments(hash, kept, key) && Covers(row, suffix)
    ensures exists r :: r in GroupRoutes(hash, kept, key).value && r.routeValue == IntToString(suffix)
    ensures forall r, row ::
              r in GroupRoutes(hash, kept, key).value && r.routeValue == IntToString(suffix)
              && row in GroupSegments(hash, kept, key) && Covers(row, suffix) ==>
                && r.physicalTableName == row.tableName + "_" + IntToString(suffix)
                && r.datasourceCode == MakeDatasourceCode(hash, row.sourceName)
  {
    GroupRaises(hash, kept, key);
    GroupDeclares(hash, kept, key);
    hide GroupRoutes, GroupSegments, StyleOf, ClaimedBy, IntToString, MakeDatasourceCode, ValuesDistinct, GroupConflict,
         AllRouted, AllDeclared, Declares;
    var segments := GroupSegments(hash, kept, key);
    var style := StyleOf(segments);
    var routes := GroupRoutes(hash, kept, key).value;
    var covering :| covering in segments && Covers(covering, suffix);
    SuffixDeclared(hash, kept, key, covering, suffix, routes);
    forall r, row | r in routes && r.routeValue == IntToString(suffix) && row in segments && Covers(row, suffix)
      ensures r.physicalTableName == row.tableName + "_" + IntToString(suffix)
      ensures r.datasourceCode == MakeDatasourceCode(hash, row.sourceName)
    {
      SuffixAgreed(hash, kept, key, row, suffix, routes, r);
    }
  }

  lemma SuffixDeclared(hash: Hasher, kept: seq<TableConfigRow>, key: string, row: TableConfigRow, suffix: int,
                       routes: seq<RouteRecord>)
    requires Sharded(GroupStyle(hash, kept, key)) && row in GroupSegments(hash, kept, key) && Covers(row, suffix)
    requires AllRouted(hash, kept, key, routes)
    ensures exists r :: r in routes && r.routeValue == IntToString(suffix)
  {
    hide GroupSegments, StyleOf, ClaimedBy, IntToString, MakeDatasourceCode;
    var segments := GroupSegments(hash, kept, key);
    CoveringClaim(hash, StyleOf(segments), segments, row, suffix);
    var c := ShardClaim(hash, row, suffix);
    assert Declares(hash, kept, key, c.routeValue, c.physicalTableName, c.datasourceCode);
    var r :| r in routes && SaysTriple(r, c.routeValue, c.physicalTableName, c.datasourceCode);
  }

  lemma SuffixAgreed(hash: Hasher, kept: seq<TableConfigRow>, key: string, row: TableConfigRow, suffix: int,
                     routes: seq<RouteRecord>, r: RouteRecord)
    requires !GroupConflict(hash, kept, key) && AllDeclared(hash, kept, key, routes)
    requires Sharded(GroupStyle(hash, kept, key)) && row in GroupSegments(hash, kept, key) && Covers(row, suffix)
    requires r in routes && r.routeValue == IntToString(suffix)
    ensures r.physicalTableName == row.tableName + "_" + IntToString(suffix)
    ensures r.datasourceCode == MakeDatasourceCode(hash, row.sourceName)
  {
    hide GroupSegments, StyleOf, ClaimedBy, IntToString, MakeDatasourceCode;
    var segments := GroupSegments(hash, kept, key);
    CoveringClaim(hash, StyleOf(segments), segments, row, suffix);
    var mine := ShardClaim(hash, row, suffix);
    assert Declares(hash, kept, key, r.routeValue, r.physicalTableName, r.datasourceCode);
    var c :| ClaimedBy(hash, StyleOf(segments), segments, c)
             && c.routeValue == r.routeValue && c.physicalTableName == r.physicalTableName &&
                   c.datasourceCode == r.datasourceCode;
    assert !Conflict(c, mine);
  }

  /**
   For every logical table imported with modulus routing and every integer value, exactly one imported
   route has the value's decimal remainder, and its table and datasource are those of every
   deduplicated segment that covers the remainder.
   */
  lemma ModulusRoutingTotal(hash: Hasher, rows: seq<TableConfigRow>, connection: Connection, table: LogicalTableRecord,
                            m: int, n: int)
    requires BuildSpec(hash, rows, connection).Ok?
    requires table in BuildSpec(hash, rows, connection).value.logicalTables && table.shardModulus == Some(m)
    ensures m > 0
    ensures var routes := BuildSpec(hash, rows, connection).value.routes;
            exists i ::
              && 0 <= i < |routes|
              && IsRouteFor(routes[i], table.tableName, IntToString(n % m))
              && (forall j :: 0 <= j < |routes| && IsRouteFor(routes[j], table.tableName, IntToString(n % m)) ==>
                    j == i)
              && (forall row :: row in GroupSegments(hash, Kept(rows), table.tableName) && Covers(row, n % m) ==>
                    && routes[i].physicalTableName == row.tableName + "_" + IntToString(n % m)
                    && routes[i].datasourceCode == MakeDatasourceCode(hash, row.sourceName))
  {
    hide BuildSpec, Kept, SortedKeys, GroupStyle, GroupRoutes, GroupSegments, IntToString, MakeDatasourceCode,
         RoutesBuilt, ShardedDistinct;
    TableOfGroup(hash, rows, connection, table);
    var kept, key := Kept(rows), table.tableName;
    BusinessGroupTotal(hash, kept, SortedKeys(hash, kept), BuildSpec(hash, rows, connection).value.routes, key, m, n);
  }

  /** A logical table of the bundle stands for the group of its name. */
  lemma TableOfGroup(hash: Hasher, rows: seq<TableConfigRow>, connection: Connection, table: LogicalTableRecord)
    requires BuildSpec(hash, rows, connection).Ok?
    requires table in BuildSpec(hash, rows, connection).value.logicalTables
    ensures var b := BuildSpec(hash, rows, connection).value;
            var kept := Kept(rows);
            && table.tableName in SortedKeys(hash, kept)
            && table.shardModulus == ModulusOf(GroupStyle(hash, kept, table.tableName))
            && RoutesBuilt(hash, kept, SortedKeys(hash, kept), b.routes)
            && ShardedDistinct(hash, kept, b.routes)
            && RuleFor(table.tableName, GroupStyle(hash, kept, table.tableName)) in b.rules
  {
    hide BuildSpec, Kept, SortedKeys, GroupStyle, RoutesBuilt, ShardedDistinct, FactorsBuilt, GroupRows, RuleFor,
         ModulusOf;
    ImportBuilt(hash, rows, connection);
    var b := BuildSpec(hash, rows, connection).value;
    var k :| 0 <= k < |b.logicalTables| && b.logicalTables[k] == table;
    assert b.rules[k] in b.rules;
  }

  lemma BusinessGroupTotal(hash: Hasher, kept: seq<TableConfigRow>, keys: seq<string>, routes: seq<RouteRecord>,
                           key: string, m: int, n: int)
    requires RoutesBuilt(hash, kept, keys, routes) && ShardedDistinct(hash, kept, routes)
    requires key in keys && GroupStyle(hash, kept, key) == Business(m)
    ensures m > 0
    ensures exists i ::
              && 0 <= i < |routes|
              && IsRouteFor(routes[i], key, IntToString(n % m))
              && (forall j :: 0 <= j < |routes| && IsRouteFor(routes[j], key, IntToString(n % m)) ==> j == i)
              && (forall row :: row in GroupSegments(hash, kept, key) && Covers(row, n % m) ==>
                    && routes[i].physicalTableName == row.tableName + "_" + IntToString(n % m)
                    && routes[i].datasourceCode == MakeDatasourceCode(hash, row.sourceName))
  {
    hide GroupRoutes, GroupSegments, IntToString, MakeDatasourceCode, StyleOf, ShardedDistinct, Covers;
    BusinessCovers(GroupSegments(hash, kept, key), m, n);
    assert GroupRoutes(hash, kept, key).Ok?;
    SuffixRouted(hash, kept, key, n % m);
    var r :| r in GroupRoutes(hash, kept, key).value && r.routeValue == IntToString(n % m);
    GroupRoutesNamed(hash, kept, key);
    RouteAt(hash, kept, keys, routes, key, r);
  }

  lemma BusinessCovers(segments: seq<TableConfigRow>, m: int, n: int)
    requires StyleOf(segments) == Business(m)
    ensures m > 0
    ensures exists row :: row in segments && Covers(row, n % m)
  {
    assert 0 <= n % m < m;
    assert n % m in ShardSuffixes(segments);
    SuffixIsCovered(segments, n % m);
  }

  lemma RouteAt(hash: Hasher, kept: seq<TableConfigRow>, keys: seq<string>, routes: seq<RouteRecord>, key: string,
                r: RouteRecord)
    requires RoutesBuilt(hash, kept, keys, routes) && ShardedDistinct(hash, kept, routes)
    requires key in keys && Sharded(GroupStyle(hash, kept, key))
    requires r in GroupRoutes(hash, kept, key).value && r.logicalTableName == key
    ensures exists i ::
              && 0 <= i < |routes| && routes[i] == r && routes[i] in GroupRoutes(hash, kept, key).value
              && forall j :: 0 <= j < |routes| && IsRouteFor(routes[j], key, r.routeValue) ==> j == i
  {
    hide GroupRoutes, GroupStyle;
    assert r in routes;
    var i :| 0 <= i < |routes| && routes[i] == r;
    forall j | 0 <= j < |routes| && IsRouteFor(routes[j], key, r.routeValue)
      ensures j == i
    {
    }
  }

  // ------------------------------------------------------------ counting

  function TotalRows(ts: seq<LogicalTableRecord>): nat {
    if ts == [] then 0 else ts[0].rowCount + TotalRows(ts[1..])
  }

  function GroupTotal(hash: Hasher, kept: seq<TableConfigRow>, keys: seq<string>): nat {
    if keys == [] then 0 else |GroupRows(hash, kept, keys[0])| + GroupTotal(hash, kept, keys[1..])
  }

  lemma {:induction false} GroupTotalNext(hash: Hasher, kept: seq<TableConfigRow>, row: TableConfigRow,
                                          keys: seq<string>)
    requires NoDuplicates(keys)
    ensures GroupTotal(hash, kept + [row], keys)
         == GroupTotal(hash, kept, keys) + if GroupKey(hash, row) in keys then 1 else 0
  {
    hide GroupKey, GroupRows;
    if keys != [] {
      SnocGroup(hash, kept, row, keys[0]);
      GroupTotalNext(hash, kept, row, keys[1..]);
      assert keys == [keys[0]] + keys[1..];
      assert keys[0] !in keys[1..];
    }
  }

  lemma {:induction false} NoRowsNoTotal(hash: Hasher, keys: seq<string>)
    ensures GroupTotal(hash, [], keys) == 0
  {
    if keys != [] {
      NoRowsNoTotal(hash, keys[1..]);
    }
  }

  /** Whatever the order of the keys, the groups hold every kept row once. */
  lemma {:induction false} GroupsPartition(hash: Hasher, kept: seq<TableConfigRow>, keys: seq<string>)
    requires NoDuplicates(keys) && forall row :: row in kept ==> GroupKey(hash, row) in keys
    ensures GroupTotal(hash, kept, keys) == |kept|
  {
    hide GroupKey, GroupRows;
    if kept == [] {
      NoRowsNoTotal(hash, keys);
    } else {
      var front, last := kept[..|kept| - 1], kept[|kept| - 1];
      assert kept == front + [last];
      GroupsPartition(hash, front, keys);
      GroupTotalNext(hash, front, last, keys);
      assert last in kept;
    }
  }

  lemma {:induction false} EveryRowHasKey(hash: Hasher, kept: seq<TableConfigRow>)
    ensures forall row :: row in kept ==> GroupKey(hash, row) in GroupKeys(hash, kept)
  {
    hide GroupKey;
    if kept != [] {
      EveryRowHasKey(hash, kept[..|kept| - 1]);
      assert kept == kept[..|kept| - 1] + [kept[|kept| - 1]];
    }
  }

  lemma {:induction false} TotalsAgree(hash: Hasher, kept: seq<TableConfigRow>, keys: seq<string>,
                                       ts: seq<LogicalTableRecord>)
    requires |ts| == |keys| && forall i :: 0 <= i < |keys| ==> ts[i].rowCount == |GroupRows(hash, kept, keys[i])|
    ensures TotalRows(ts) == GroupTotal(hash, kept, keys)
  {
    hide GroupRows;
    if keys != [] {
      TotalsAgree(hash, kept, keys[1..], ts[1..]);
    }
  }

  lemma {:induction false} KeptAndBlank(rows: seq<TableConfigRow>)
    ensures |Kept(rows)| + CountBlank(rows) == |rows|
  {
    if rows != [] {
      KeptAndBlank(rows[..|rows| - 1]);
    }
  }

  /** No configuration row is lost: the skipped rows and the tables' row counts add up to the input. */
  lemma RowsConserved(hash: Hasher, rows: seq<TableConfigRow>, connection: Connection)
    requires BuildSpec(hash, rows, connection).Ok?
    ensures var b := BuildSpec(hash, rows, connection).value;
            b.skippedRows + TotalRows(b.logicalTables) == |rows|
  {
    hide BuildGroups, Kept, SortedKeys, GroupKey, GroupRows, GroupStyle, RuleFor, RoutesBuilt, FactorsBuilt, GroupKeys,
         CountBlank;
    ImportBuilt(hash, rows, connection);
    var b := BuildSpec(hash, rows, connection).value;
    var kept := Kept(rows);
    var keys := SortedKeys(hash, kept);
    KeysReady(hash, kept);
    EveryRowHasKey(hash, kept);
    GroupsPartition(hash, kept, keys);
    TotalsAgree(hash, kept, keys, b.logicalTables);
    KeptAndBlank(rows);
  }
}
