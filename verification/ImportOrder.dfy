/** An import depends on which configuration rows there are, not on their order. */
module ImportOrder {
  import opened Wrappers
  import opened Text
  import opened Sequences
  import opened Identifiers
  import opened Metadata
  import opened Importer
  import opened ImporterProofs

  // ------------------------------------------------------------ the same rows

  function KeptOne(row: TableConfigRow): seq<TableConfigRow> {
    if Blank(row) then [] else [Normalize(row)]
  }

  lemma KeptSnoc(rows: seq<TableConfigRow>, row: TableConfigRow)
    ensures Kept(rows + [row]) == Kept(rows) + KeptOne(row)
  {
    hide Blank, Normalize;
    assert (rows + [row])[..|rows|] == rows;
  }

  lemma {:induction false} KeptWithout(rows: seq<TableConfigRow>, i: nat)
    requires i < |rows|
    ensures multiset(Kept(rows)) == multiset(Kept(rows[..i] + rows[i + 1..])) + multiset(KeptOne(rows[i]))
  {
    hide Kept, KeptOne;
    var front, last := rows[..|rows| - 1], rows[|rows| - 1];
    assert rows == front + [last];
    KeptSnoc(front, last);
    if i == |rows| - 1 {
      assert rows[..i] + rows[i + 1..] == front;
    } else {
      KeptWithout(front, i);
      var less := front[..i] + front[i + 1..];
      KeptSnoc(less, last);
      assert rows[..i] + rows[i + 1..] == less + [last];
    }
  }

  lemma WithoutOne<T>(s: seq<T>, i: nat)
    requires i < |s|
    ensures multiset(s[..i] + s[i + 1..]) == multiset(s) - multiset{s[i]}
  {
    assert s == s[..i] + [s[i]] + s[i + 1..];
  }

  lemma {:induction false} KeptPermuted(rows: seq<TableConfigRow>, others: seq<TableConfigRow>)
    requires multiset(rows) == multiset(others)
    ensures multiset(Kept(rows)) == multiset(Kept(others))
    decreases |rows|
  {
    hide Blank, Normalize, Kept;
    assert |multiset(rows)| == |multiset(others)|;
    if rows == [] {
      assert others == [];
    } else {
      assert rows[0] in multiset(others);
      var i :| 0 <= i < |others| && others[i] == rows[0];
      KeptWithout(rows, 0);
      KeptWithout(others, i);
      WithoutOne(rows, 0);
      WithoutOne(others, i);
      KeptPermuted(rows[..0] + rows[1..], others[..i] + others[i + 1..]);
    }
  }

  // ------------------------------------------------------------ the same groups

  lemma {:induction false} KeysAre(hash: Hasher, kept: seq<TableConfigRow>, key: string)
    ensures key in GroupKeys(hash, kept) <==> exists row :: row in kept && GroupKey(hash, row) == key
  {
    hide GroupKey;
    if kept != [] {
      KeysAre(hash, kept[..|kept| - 1], key);
      assert kept == kept[..|kept| - 1] + [kept[|kept| - 1]];
      InSnoc(kept[..|kept| - 1], kept[|kept| - 1]);
    }
  }

  lemma {:induction false} GroupRowsAre(hash: Hasher, kept: seq<TableConfigRow>, key: string)
    ensures forall row :: row in GroupRows(hash, kept, key) <==> row in kept && GroupKey(hash, row) == key
  {
    hide GroupKey;
    if kept != [] {
      GroupRowsAre(hash, kept[..|kept| - 1], key);
      assert kept == kept[..|kept| - 1] + [kept[|kept| - 1]];
      InSnoc(kept[..|kept| - 1], kept[|kept| - 1]);
    }
  }

  lemma {:induction false} PutRows(entries: seq<TableConfigRow>, row: TableConfigRow)
    ensures row in Put(entries, row)
    ensures forall r :: r in Put(entries, row) ==> r == row || r in entries
    ensures forall r :: r in entries && SegmentOf(r) != SegmentOf(row) ==> r in Put(entries, row)
  {
    if entries != [] && SegmentOf(entries[0]) != SegmentOf(row) {
      PutRows(entries[1..], row);
    }
  }

  ghost predicate HasSegment(rows: seq<TableConfigRow>, g: Segment) {
    exists r :: r in rows && SegmentOf(r) == g
  }

  /** Deduplication keeps rows of the input, and one for every segment of it. */
  lemma {:induction false} DedupeRows(rows: seq<TableConfigRow>)
    ensures forall r :: r in Dedupe(rows) ==> r in rows
    ensures forall r :: r in rows ==> HasSegment(Dedupe(rows), SegmentOf(r))
  {
    if rows != [] {
      var front, last := rows[..|rows| - 1], rows[|rows| - 1];
      DedupeRows(front);
      assert rows == front + [last];
      InSnoc(front, last);
      PutRows(Dedupe(front), last);
      forall r | r in rows
        ensures HasSegment(Dedupe(rows), SegmentOf(r))
      {
        if SegmentOf(r) == SegmentOf(last) {
          assert last in Dedupe(rows);
        } else {
          var d :| d in Dedupe(front) && SegmentOf(d) == SegmentOf(r);
          assert d in Dedupe(rows);
        }
      }
    }
  }

  /** Deduplicated rows have distinct segments. */
  ghost predicate SegmentsDistinct(rows: seq<TableConfigRow>) {
    forall i, j :: 0 <= i < j < |rows| ==> SegmentOf(rows[i]) != SegmentOf(rows[j])
  }

  lemma {:induction false} PutDistinct(entries: seq<TableConfigRow>, row: TableConfigRow)
    requires SegmentsDistinct(entries)
    ensures SegmentsDistinct(Put(entries, row))
  {
    if entries != [] && SegmentOf(entries[0]) != SegmentOf(row) {
      PutDistinct(entries[1..], row);
      PutRows(entries[1..], row);
      var rest := Put(entries[1..], row);
      forall j | 0 <= j < |rest|
        ensures SegmentOf(rest[j]) != SegmentOf(entries[0])
      {
        assert rest[j] in rest;
        if rest[j] != row {
          var k :| 0 <= k < |entries[1..]| && entries[1..][k] == rest[j];
          assert entries[k + 1] == rest[j];
        }
      }
    }
  }

  lemma {:induction false} DedupeDistinct(rows: seq<TableConfigRow>)
    ensures SegmentsDistinct(Dedupe(rows))
  {
    hide SegmentsDistinct;
    if rows == [] {
      NoSegments();
    } else {
      DedupeDistinct(rows[..|rows| - 1]);
      PutDistinct(Dedupe(rows[..|rows| - 1]), rows[|rows| - 1]);
    }
  }

  lemma NoSegments()
    ensures SegmentsDistinct([])
  {
  }

  /** Every row's segment is among the others'. */
  ghost predicate SegmentsIn(rows: seq<TableConfigRow>, others: seq<TableConfigRow>) {
    forall a :: a in rows ==> HasSegment(others, SegmentOf(a))
  }

  /** The row claims at least one route value: an unsharded row does, a sharded one unless its range is empty. */
  predicate ClaimsSomething(style: Style, row: TableConfigRow) {
    Sharded(style) ==> row.beginIndex <= row.endIndex
  }

  /** The same segment of the same table. */
  predicate Twin(a: TableConfigRow, b: TableConfigRow) {
    SegmentOf(a) == SegmentOf(b) && a.tableName == b.tableName
  }

  /** Every row that claims something has a twin among the others. */
  ghost predicate TwinsIn(style: Style, rows: seq<TableConfigRow>, others: seq<TableConfigRow>) {
    forall a :: a in rows && ClaimsSomething(style, a) ==> exists b :: b in others && Twin(a, b)
  }

  /** Rows of one group and one segment that claims something agree on the exact table name. */
  ghost predicate NamesAgree(hash: Hasher, kept: seq<TableConfigRow>) {
    forall a, b ::
      (&& a in kept && b in kept
       && GroupKey(hash, a) == GroupKey(hash, b) && SegmentOf(a) == SegmentOf(b)
       && ClaimsSomething(GroupStyle(hash, kept, GroupKey(hash, a)), a)) ==> a.tableName == b.tableName
  }

  /** The segments of a group are rows of it, one for each segment. */
  lemma GroupSegmentsAre(hash: Hasher, kept: seq<TableConfigRow>, key: string)
    ensures forall r :: r in GroupSegments(hash, kept, key) ==> r in kept && GroupKey(hash, r) == key
    ensures forall r :: r in kept && GroupKey(hash, r) == key ==>
          HasSegment(GroupSegments(hash, kept, key), SegmentOf(r))
  {
    hide GroupKey;
    GroupRowsAre(hash, kept, key);
    DedupeRows(GroupRows(hash, kept, key));
  }

  lemma SameSegments(hash: Hasher, kept: seq<TableConfigRow>, others: seq<TableConfigRow>, key: string)
    requires multiset(kept) == multiset(others)
    ensures SegmentsIn(GroupSegments(hash, kept, key), GroupSegments(hash, others, key))
  {
    hide GroupKey, GroupSegments, HasSegment;
    SameMembers(kept, others);
    GroupSegmentsAre(hash, kept, key);
    GroupSegmentsAre(hash, others, key);
  }

  lemma SegmentsTwinned(hash: Hasher, kept: seq<TableConfigRow>, others: seq<TableConfigRow>, key: string)
    requires multiset(kept) == multiset(others) && NamesAgree(hash, kept)
    ensures TwinsIn(GroupStyle(hash, kept, key), GroupSegments(hash, kept, key), GroupSegments(hash, others, key))
  {
    hide GroupKey, GroupSegments, GroupStyle, ClaimsSomething;
    SameMembers(kept, others);
    GroupSegmentsAre(hash, kept, key);
    GroupSegmentsAre(hash, others, key);
    forall a | a in GroupSegments(hash, kept, key) && ClaimsSomething(GroupStyle(hash, kept, key), a)
      ensures exists b :: b in GroupSegments(hash, others, key) && Twin(a, b)
    {
      assert HasSegment(GroupSegments(hash, others, key), SegmentOf(a));
      var b :| b in GroupSegments(hash, others, key) && SegmentOf(b) == SegmentOf(a);
      assert Twin(a, b);
    }
  }

  // ------------------------------------------------------------ the same style

  lemma ShardedTwin(rows: seq<TableConfigRow>, others: seq<TableConfigRow>)
    requires SegmentsIn(rows, others) && IsSharded(rows)
    ensures IsSharded(others)
  {
    var i :| 0 <= i < |rows| && rows[i].shardCount > 0;
    assert rows[i] in rows;
    assert HasSegment(others, SegmentOf(rows[i]));
    var b :| b in others && SegmentOf(b) == SegmentOf(rows[i]);
    var j :| 0 <= j < |others| && others[j] == b;
  }

  lemma SourcesTwin(rows: seq<TableConfigRow>, others: seq<TableConfigRow>)
    requires SegmentsIn(rows, others)
    ensures DistinctSources(rows) <= DistinctSources(others)
  {
    forall s | s in DistinctSources(rows)
      ensures s in DistinctSources(others)
    {
      var a :| a in rows && SourceOrUnknown(a) == s;
      assert HasSegment(others, SegmentOf(a));
      var b :| b in others && SegmentOf(b) == SegmentOf(a);
      assert SourceOrUnknown(b) == s;
    }
  }

  /** The modulus is the greatest shard count. */
  lemma {:induction false} ModulusIsMax(rows: seq<TableConfigRow>)
    requires rows != []
    ensures exists r :: r in rows && r.shardCount == Modulus(rows)
    ensures forall r :: r in rows ==> r.shardCount <= Modulus(rows)
  {
    if |rows| == 1 {
      assert rows[0] in rows;
    } else {
      ModulusIsMax(rows[1..]);
      var r :| r in rows[1..] && r.shardCount == Modulus(rows[1..]);
      assert r in rows && rows[0] in rows;
    }
  }

  lemma ModulusTwin(rows: seq<TableConfigRow>, others: seq<TableConfigRow>)
    requires SegmentsIn(rows, others) && rows != [] && others != []
    ensures Modulus(rows) <= Modulus(others)
  {
    ModulusIsMax(rows);
    ModulusIsMax(others);
    hide Modulus;
    var a :| a in rows && a.shardCount == Modulus(rows);
    assert HasSegment(others, SegmentOf(a));
      var b :| b in others && SegmentOf(b) == SegmentOf(a);
  }

  lemma {:induction false} SuffixesAre(rows: seq<TableConfigRow>, k: int)
    ensures k in ShardSuffixes(rows) <==> exists row :: row in rows && row.shardCount > 0 && Covers(row, k)
  {
    if rows != [] {
      SuffixesAre(rows[1..], k);
      assert rows == [rows[0]] + rows[1..];
      assert rows[0] in rows;
    }
  }

  lemma SuffixesTwin(rows: seq<TableConfigRow>, others: seq<TableConfigRow>)
    requires SegmentsIn(rows, others)
    ensures ShardSuffixes(rows) <= ShardSuffixes(others)
  {
    hide ShardSuffixes;
    forall k | k in ShardSuffixes(rows)
      ensures k in ShardSuffixes(others)
    {
      SuffixesAre(rows, k);
      SuffixesAre(others, k);
      var a :| a in rows && a.shardCount > 0 && Covers(a, k);
      assert HasSegment(others, SegmentOf(a));
      var b :| b in others && SegmentOf(b) == SegmentOf(a);
      assert Covers(b, k);
    }
  }

  lemma StyleTwin(rows: seq<TableConfigRow>, others: seq<TableConfigRow>)
    requires SegmentsIn(rows, others) && SegmentsIn(others, rows)
    ensures StyleOf(rows) == StyleOf(others)
  {
    hide ShardSuffixes, Modulus, DistinctSources, SegmentsIn;
    if IsSharded(rows) { ShardedTwin(rows, others); }
    if IsSharded(others) { ShardedTwin(others, rows); }
    SourcesTwin(rows, others);
    SourcesTwin(others, rows);
    SuffixesTwin(rows, others);
    SuffixesTwin(others, rows);
    if IsSharded(rows) {
      ModulusTwin(rows, others);
      ModulusTwin(others, rows);
    }
    assert DistinctSources(rows) == DistinctSources(others);
    assert ShardSuffixes(rows) == ShardSuffixes(others);
  }

  // ------------------------------------------------------------ the same claims

  predicate SameClaim(a: Claim, b: Claim) {
    a.routeValue == b.routeValue && a.physicalTableName == b.physicalTableName && a.datasourceCode == b.datasourceCode
  }

  lemma TwinClaims(hash: Hasher, style: Style, a: TableConfigRow, b: TableConfigRow, c: Claim)
    requires Twin(a, b) && c in RowClaims(hash, style, a)
    ensures exists d :: d in RowClaims(hash, style, b) && SameClaim(c, d)
  {
    hide MakeDatasourceCode, IntToString, ShardClaims;
    if Sharded(style) {
      ShardClaimsAre(hash, a, a.beginIndex, a.endIndex + 1);
      ShardClaimsAre(hash, b, b.beginIndex, b.endIndex + 1);
      var k :| a.beginIndex <= k < a.endIndex + 1 && c == ShardClaim(hash, a, k);
      var d := ShardClaim(hash, b, k);
      assert d in RowClaims(hash, style, b) && SameClaim(c, d);
    } else {
      var d := RowClaims(hash, style, b)[0];
      assert d in RowClaims(hash, style, b) && SameClaim(c, d);
    }
  }

  lemma ClaimingRow(hash: Hasher, style: Style, row: TableConfigRow, c: Claim)
    requires c in RowClaims(hash, style, row)
    ensures ClaimsSomething(style, row)
  {
    hide MakeDatasourceCode, IntToString;
    ShardClaimsAre(hash, row, row.beginIndex, row.endIndex + 1);
  }

  lemma DeclaresTwin(hash: Hasher, kept: seq<TableConfigRow>, others: seq<TableConfigRow>, key: string, v: string,
                     p: string, d: string)
    requires TwinsIn(GroupStyle(hash, kept, key), GroupSegments(hash, kept, key), GroupSegments(hash, others, key))
    requires GroupStyle(hash, kept, key) == GroupStyle(hash, others, key)
    requires Declares(hash, kept, key, v, p, d)
    ensures Declares(hash, others, key, v, p, d)
  {
    hide GroupSegments, StyleOf, RowClaims;
    var segments, style := GroupSegments(hash, kept, key), GroupStyle(hash, kept, key);
    var c :| ClaimedBy(hash, style, segments, c) && c.routeValue == v && c.physicalTableName == p &&
        c.datasourceCode == d;
    var a :| a in segments && c in RowClaims(hash, style, a);
    ClaimingRow(hash, style, a, c);
    var b :| b in GroupSegments(hash, others, key) && Twin(a, b);
    TwinClaims(hash, style, a, b, c);
    var e :| e in RowClaims(hash, style, b) && SameClaim(c, e);
    assert ClaimedBy(hash, style, GroupSegments(hash, others, key), e);
  }

  lemma ConflictIsDeclared(hash: Hasher, kept: seq<TableConfigRow>, key: string)
    ensures GroupConflict(hash, kept, key) <==>
            exists v, p, d, p', d' :: Declares(hash, kept, key, v, p, d) && Declares(hash, kept, key, v, p', d') &&
                (p, d) != (p', d')
  {
    hide GroupSegments, StyleOf, ClaimedBy;
    var segments := GroupSegments(hash, kept, key);
    if GroupConflict(hash, kept, key) {
      var a, b :| ClaimedBy(hash, StyleOf(segments), segments, a) && ClaimedBy(hash, StyleOf(segments), segments, b) &&
          Conflict(a, b);
      assert Declares(hash, kept, key, a.routeValue, a.physicalTableName, a.datasourceCode);
      assert Declares(hash, kept, key, a.routeValue, b.physicalTableName, b.datasourceCode);
    }
    if v, p, d, p', d' :|
      (p, d) != (p', d') && Declares(hash, kept, key, v, p, d) && Declares(hash, kept, key, v, p', d')
    {
      var a :| ClaimedBy(hash, StyleOf(segments), segments, a) && a.routeValue == v && a.physicalTableName == p &&
          a.datasourceCode == d;
      var b :| ClaimedBy(hash, StyleOf(segments), segments, b) && b.routeValue == v && b.physicalTableName == p' &&
          b.datasourceCode == d';
      assert Conflict(a, b);
    }
  }

  lemma ConflictTwin(hash: Hasher, kept: seq<TableConfigRow>, others: seq<TableConfigRow>, key: string)
    requires TwinsIn(GroupStyle(hash, kept, key), GroupSegments(hash, kept, key), GroupSegments(hash, others, key))
    requires GroupStyle(hash, kept, key) == GroupStyle(hash, others, key)
    requires GroupConflict(hash, kept, key)
    ensures GroupConflict(hash, others, key)
  {
    hide GroupSegments, GroupStyle, Declares, GroupConflict, TwinsIn;
    ConflictIsDeclared(hash, kept, key);
    ConflictIsDeclared(hash, others, key);
    var v, p, d, p', d' :| Declares(hash, kept, key, v, p, d) && Declares(hash, kept, key, v, p', d') &&
        (p, d) != (p', d');
    DeclaresTwin(hash, kept, others, key, v, p, d);
    DeclaresTwin(hash, kept, others, key, v, p', d');
  }

  // ------------------------------------------------------------ main result

  /** The groups and their styles never depend on the order of the rows. */
  lemma SameStyle(hash: Hasher, kept: seq<TableConfigRow>, others: seq<TableConfigRow>, key: string)
    requires multiset(kept) == multiset(others)
    ensures key in GroupKeys(hash, kept) <==> key in GroupKeys(hash, others)
    ensures GroupStyle(hash, kept, key) == GroupStyle(hash, others, key)
  {
    hide GroupKey, GroupSegments, StyleOf, SegmentsIn;
    SameMembers(kept, others);
    KeysAre(hash, kept, key);
    KeysAre(hash, others, key);
    SameSegments(hash, kept, others, key);
    SameSegments(hash, others, kept, key);
    StyleTwin(GroupSegments(hash, kept, key), GroupSegments(hash, others, key));
  }

  lemma NamesStillAgree(hash: Hasher, kept: seq<TableConfigRow>, others: seq<TableConfigRow>)
    requires multiset(kept) == multiset(others) && NamesAgree(hash, kept)
    ensures NamesAgree(hash, others)
  {
    hide GroupKey, GroupStyle, ClaimsSomething;
    SameMembers(kept, others);
    forall a | a in others
      ensures GroupStyle(hash, others, GroupKey(hash, a)) == GroupStyle(hash, kept, GroupKey(hash, a))
    {
      SameStyle(hash, kept, others, GroupKey(hash, a));
    }
  }

  /** What two orders of the same kept rows share, group by group, when the names agree. */
  lemma SameGroup(hash: Hasher, kept: seq<TableConfigRow>, others: seq<TableConfigRow>, key: string)
    requires multiset(kept) == multiset(others) && NamesAgree(hash, kept)
    ensures GroupConflict(hash, kept, key) <==> GroupConflict(hash, others, key)
    ensures forall v, p, d :: Declares(hash, kept, key, v, p, d) <==> Declares(hash, others, key, v, p, d)
  {
    hide GroupSegments, GroupStyle, GroupConflict, Declares, TwinsIn, GroupKeys, NamesAgree;
    SameStyle(hash, kept, others, key);
    NamesStillAgree(hash, kept, others);
    SegmentsTwinned(hash, kept, others, key);
    SegmentsTwinned(hash, others, kept, key);
    if GroupConflict(hash, kept, key) { ConflictTwin(hash, kept, others, key); }
    if GroupConflict(hash, others, key) { ConflictTwin(hash, others, kept, key); }
    SameDeclared(hash, kept, others, key);
    SameDeclared(hash, others, kept, key);
  }

  lemma SameDeclared(hash: Hasher, kept: seq<TableConfigRow>, others: seq<TableConfigRow>, key: string)
    requires TwinsIn(GroupStyle(hash, kept, key), GroupSegments(hash, kept, key), GroupSegments(hash, others, key))
    requires GroupStyle(hash, kept, key) == GroupStyle(hash, others, key)
    ensures forall v, p, d :: Declares(hash, kept, key, v, p, d) ==> Declares(hash, others, key, v, p, d)
  {
    hide GroupSegments, GroupStyle, Declares, TwinsIn;
    forall v, p, d | Declares(hash, kept, key, v, p, d)
      ensures Declares(hash, others, key, v, p, d)
    {
      DeclaresTwin(hash, kept, others, key, v, p, d);
    }
  }

  lemma SameMembers<T>(s: seq<T>, t: seq<T>)
    requires multiset(s) == multiset(t)
    ensures forall x :: x in s <==> x in t
  {
    forall x
      ensures x in s <==> x in t
    {
      assert x in s <==> x in multiset(s);
      assert x in t <==> x in multiset(t);
    }
  }

  /** Permuting the rows does not change whether the import raises. */
  lemma OrderDoesNotRaise(hash: Hasher, rows: seq<TableConfigRow>, others: seq<TableConfigRow>, connection: Connection)
    requires multiset(rows) == multiset(others) && NamesAgree(hash, Kept(rows))
    ensures BuildSpec(hash, rows, connection).Raise? <==> BuildSpec(hash, others, connection).Raise?
  {
    hide BuildSpec, Kept, GroupKeys, GroupConflict, NamesAgree, Declares, GroupStyle;
    KeptPermuted(rows, others);
    ImportRaisesExactly(hash, rows, connection);
    ImportRaisesExactly(hash, others, connection);
    forall key
      ensures key in GroupKeys(hash, Kept(rows)) && GroupConflict(hash, Kept(rows), key)
         <==> key in GroupKeys(hash, Kept(others)) && GroupConflict(hash, Kept(others), key)
    {
      SameStyle(hash, Kept(rows), Kept(others), key);
      SameGroup(hash, Kept(rows), Kept(others), key);
    }
  }

  ghost predicate HasRoute(b: SyncBundle, key: string, value: string, physical: string, code: string) {
    exists r :: r in b.routes && r.logicalTableName == key && SaysTriple(r, value, physical, code)
  }

  predicate HasTableRecord(b: SyncBundle, key: string, modulus: Option<int>) {
    exists i :: 0 <= i < |b.logicalTables| && b.logicalTables[i].tableName == key &&
        b.logicalTables[i].shardModulus == modulus
  }

  lemma {:induction false} CodesAre(hash: Hasher, kept: seq<TableConfigRow>, connection: Connection, code: string)
    ensures HasCode(Datasources(hash, kept, connection), code) <==>
          exists row :: row in kept && MakeDatasourceCode(hash, row.sourceName) == code
  {
    hide MakeDatasourceCode;
    if kept != [] {
      var front, last := kept[..|kept| - 1], kept[|kept| - 1];
      CodesAre(hash, front, connection, code);
      assert kept == front + [last];
      InSnoc(front, last);
      var ds, d := Datasources(hash, front, connection), NewDatasource(hash, last, connection);
      CodeAppended(ds, d, code);
      assert MakeDatasourceCode(hash, last.sourceName) == d.code;
    }
  }

  lemma CodeAppended(ds: seq<DatasourceRecord>, d: DatasourceRecord, code: string)
    ensures HasCode(SetDefault(ds, d), code) <==> HasCode(ds, code) || d.code == code
  {
    var all := SetDefault(ds, d);
    if HasCode(ds, code) {
      var i :| 0 <= i < |ds| && ds[i].code == code;
      assert all[i].code == code;
    }
    if d.code == code && !HasCode(ds, code) {
      assert all[|ds|].code == code;
    }
  }

  lemma SortedCodes(ds: seq<DatasourceRecord>, code: string)
    ensures HasCode(SortDatasources(ds), code) <==> HasCode(ds, code)
  {
    SortBySame((a: DatasourceRecord, b: DatasourceRecord) => TextLeq(a.code, b.code), ds);
    var sorted := SortDatasources(ds);
    if HasCode(sorted, code) {
      var i :| 0 <= i < |sorted| && sorted[i].code == code;
      assert sorted[i] in ds;
    }
    if HasCode(ds, code) {
      var i :| 0 <= i < |ds| && ds[i].code == code;
      assert ds[i] in sorted;
    }
  }

  lemma BundleOf(hash: Hasher, rows: seq<TableConfigRow>, connection: Connection, key: string)
    requires BuildSpec(hash, rows, connection).Ok?
    ensures var b, kept := BuildSpec(hash, rows, connection).value, Kept(rows);
            && (forall modulus :: HasTableRecord(b, key, modulus) <==>
                  key in GroupKeys(hash, kept) && modulus == ModulusOf(GroupStyle(hash, kept, key)))
            && (forall f :: f in b.factors && f.logicalTableName == key <==>
                  key in GroupKeys(hash, kept) && f in FactorRecords(key, GroupStyle(hash, kept, key)))
            && (forall r :: r in b.rules && r.logicalTableName == key <==>
                  key in GroupKeys(hash, kept) && r == RuleFor(key, GroupStyle(hash, kept, key)))
  {
    hide BuildSpec, Kept, SortedKeys, GroupStyle, RoutesBuilt, ShardedDistinct, GroupRows, FactorRecords, ModulusOf,
         GroupKeys, RuleFor;
    ImportBuilt(hash, rows, connection);
    KeysReady(hash, Kept(rows));
    var b, kept := BuildSpec(hash, rows, connection).value, Kept(rows);
    var keys := SortedKeys(hash, kept);
    forall k
      ensures RuleFor(k, GroupStyle(hash, kept, k)).logicalTableName == k
    {
      RuleNamed(k, GroupStyle(hash, kept, k));
    }
    FactorRecordsNamed(key, GroupStyle(hash, kept, key));
    if key in keys {
      var i :| 0 <= i < |keys| && keys[i] == key;
      assert b.logicalTables[i].tableName == key;
      assert b.rules[i] in b.rules;
    }
  }

  lemma RuleNamed(key: string, style: Style)
    ensures RuleFor(key, style).logicalTableName == key
  {
  }

  /** The bundles have the same routes: for each table, the same values on the same physical tables and datasources. */
  ghost predicate SameRoutes(a: SyncBundle, b: SyncBundle) {
    forall key, v, p, d :: HasRoute(a, key, v, p, d) <==> HasRoute(b, key, v, p, d)
  }

  /** The bundles agree on everything but the routes, up to order. */
  ghost predicate SameFrame(a: SyncBundle, b: SyncBundle) {
    && a.skippedRows == b.skippedRows
    && (forall key, modulus :: HasTableRecord(a, key, modulus) <==> HasTableRecord(b, key, modulus))
    && (forall f :: f in a.factors <==> f in b.factors)
    && (forall r :: r in a.rules <==> r in b.rules)
    && (forall code :: HasCode(a.datasources, code) <==> HasCode(b.datasources, code))
  }

  /**
   Whatever the names, two orders that both build agree on the skipped count, the logical tables with
   their moduli, the factors, the rules and the datasource codes.
   */
  lemma OrderKeepsFrame(hash: Hasher, rows: seq<TableConfigRow>, others: seq<TableConfigRow>, connection: Connection)
    requires multiset(rows) == multiset(others)
    requires BuildSpec(hash, rows, connection).Ok? && BuildSpec(hash, others, connection).Ok?
    ensures SameFrame(BuildSpec(hash, rows, connection).value, BuildSpec(hash, others, connection).value)
  {
    hide Kept, BuildSpec, HasTableRecord, HasCode, CountBlank;
    KeptPermuted(rows, others);
    SameSkipped(rows, others);
    SkippedCount(hash, rows, connection);
    SkippedCount(hash, others, connection);
    SameCodes(hash, rows, others, connection);
    var a, b := BuildSpec(hash, rows, connection).value, BuildSpec(hash, others, connection).value;
    forall key, modulus
      ensures HasTableRecord(a, key, modulus) <==> HasTableRecord(b, key, modulus)
    {
      SameParts(hash, rows, others, connection, key);
    }
    forall f: FactorRecord
      ensures f in a.factors <==> f in b.factors
    {
      SameParts(hash, rows, others, connection, f.logicalTableName);
    }
    forall r: RuleRecord
      ensures r in a.rules <==> r in b.rules
    {
      SameParts(hash, rows, others, connection, r.logicalTableName);
    }
  }

  /** The other order builds too, with the same routes. */
  ghost predicate BuildsAlike(hash: Hasher, rows: seq<TableConfigRow>, others: seq<TableConfigRow>,
                              connection: Connection)
    requires BuildSpec(hash, rows, connection).Ok?
  {
    && BuildSpec(hash, others, connection).Ok?
    && SameRoutes(BuildSpec(hash, rows, connection).value, BuildSpec(hash, others, connection).value)
  }

  /**
   Row order does not matter, exactly: of rows that build, every permutation builds the same routes if
   and only if any two rows of one group and one segment that claims something have the same table name.
   */
  lemma OrderIndependent(hash: Hasher, rows: seq<TableConfigRow>, connection: Connection)
    requires BuildSpec(hash, rows, connection).Ok?
    ensures NamesAgree(hash, Kept(rows))
       <==> forall others :: multiset(others) == multiset(rows) ==> BuildsAlike(hash, rows, others, connection)
  {
    hide BuildSpec, NamesAgree, SameRoutes, Kept;
    if NamesAgree(hash, Kept(rows)) {
      forall others | multiset(others) == multiset(rows)
        ensures BuildsAlike(hash, rows, others, connection)
      {
        OrderDoesNotRaise(hash, rows, others, connection);
        RoutesAgree(hash, rows, others, connection);
      }
    }
    if forall others :: multiset(others) == multiset(rows) ==> BuildsAlike(hash, rows, others, connection) {
      AlikeNames(hash, rows, connection);
    }
  }

  /**
   If every order builds the same routes, the names agree: each row can be put last, and then its name
   is the one used.
   */
  lemma AlikeNames(hash: Hasher, rows: seq<TableConfigRow>, connection: Connection)
    requires BuildSpec(hash, rows, connection).Ok?
    requires forall others :: multiset(others) == multiset(rows) ==> BuildsAlike(hash, rows, others, connection)
    ensures NamesAgree(hash, Kept(rows))
  {
    hide BuildSpec, SameRoutes, Kept, GroupKey, GroupStyle, BuildsAlike, ClaimsSomething;
    var kept := Kept(rows);
    forall a, b | a in kept && b in kept && GroupKey(hash, a) == GroupKey(hash, b) && SegmentOf(a) == SegmentOf(b)
                  && ClaimsSomething(GroupStyle(hash, kept, GroupKey(hash, a)), a)
      ensures a.tableName == b.tableName
    {
      var style := GroupStyle(hash, kept, GroupKey(hash, a));
      LastRowRouted(hash, rows, connection, a);
      SameClaims(style, a, b);
      LastRowRouted(hash, rows, connection, b);
      OneNameRouted(hash, rows, connection, style, a, b);
    }
  }

  /** The first route value a row claims, and the table it names for it. */
  function FirstValue(style: Style, row: TableConfigRow): string {
    if Sharded(style) then IntToString(row.beginIndex) else if style.BySource? then SourceOrUnknown(row) else "0"
  }

  function FirstTable(style: Style, row: TableConfigRow): string {
    if Sharded(style) then row.tableName + "_" + IntToString(row.beginIndex) else row.tableName
  }

  lemma SameClaims(style: Style, a: TableConfigRow, b: TableConfigRow)
    requires SegmentOf(a) == SegmentOf(b)
    ensures ClaimsSomething(style, a) <==> ClaimsSomething(style, b)
    ensures FirstValue(style, a) == FirstValue(style, b)
    ensures FirstTable(style, a) == FirstTable(style, b) <==> a.tableName == b.tableName
  {
    hide IntToString;
    if Sharded(style) && FirstTable(style, a) == FirstTable(style, b) {
      var tail := "_" + IntToString(a.beginIndex);
      assert FirstTable(style, a) == a.tableName + tail && FirstTable(style, b) == b.tableName + tail;
      assert |a.tableName| == |b.tableName|;
      assert (a.tableName + tail)[..|a.tableName|] == a.tableName;
      assert (b.tableName + tail)[..|b.tableName|] == b.tableName;
    }
  }

  lemma FirstClaim(hash: Hasher, style: Style, row: TableConfigRow)
    requires ClaimsSomething(style, row)
    ensures Claim(FirstValue(style, row), FirstTable(style, row), MakeDatasourceCode(hash, row.sourceName),
          row) in RowClaims(hash, style, row)
  {
    hide IntToString, MakeDatasourceCode;
    if Sharded(style) {
      ShardClaimsAre(hash, row, row.beginIndex, row.endIndex + 1);
      assert ShardClaim(hash, row, row.beginIndex) in RowClaims(hash, style, row);
    }
  }

  lemma {:induction false} KeptSource(rows: seq<TableConfigRow>, row: TableConfigRow) returns (i: nat)
    requires row in Kept(rows)
    ensures i < |rows| && !Blank(rows[i]) && Normalize(rows[i]) == row
  {
    hide Blank, Normalize;
    var last := rows[|rows| - 1];
    if !Blank(last) && Normalize(last) == row {
      i := |rows| - 1;
    } else {
      i := KeptSource(rows[..|rows| - 1], row);
    }
  }

  /** The last row of a group survives the deduplication. */
  lemma LastSurvives(hash: Hasher, kept: seq<TableConfigRow>, row: TableConfigRow)
    ensures row in GroupSegments(hash, kept + [row], GroupKey(hash, row))
  {
    hide GroupKey;
    SnocGroup(hash, kept, row, GroupKey(hash, row));
    var group := GroupRows(hash, kept, GroupKey(hash, row));
    hide GroupRows;
    assert (group + [row])[..|group|] == group;
    PutRows(Dedupe(group), row);
  }

  lemma LastDeclares(hash: Hasher, kept: seq<TableConfigRow>, row: TableConfigRow, style: Style)
    requires GroupStyle(hash, kept + [row], GroupKey(hash, row)) == style && ClaimsSomething(style, row)
    ensures Declares(hash, kept + [row], GroupKey(hash, row), FirstValue(style, row), FirstTable(style, row),
          MakeDatasourceCode(hash, row.sourceName))
  {
    hide GroupKey, StyleOf, GroupSegments, RowClaims, FirstValue, FirstTable, ClaimsSomething, MakeDatasourceCode;
    LastSurvives(hash, kept, row);
    FirstClaim(hash, style, row);
    var c := Claim(FirstValue(style, row), FirstTable(style, row), MakeDatasourceCode(hash, row.sourceName), row);
    assert ClaimedBy(hash, style, GroupSegments(hash, kept + [row], GroupKey(hash, row)), c);
  }

  lemma MoveLast<T>(s: seq<T>, i: nat)
    requires i < |s|
    ensures multiset(s[..i] + s[i + 1..] + [s[i]]) == multiset(s)
  {
    assert s == s[..i] + [s[i]] + s[i + 1..];
  }

  /** In the order that puts a claiming row last, its own name is routed; so it is routed in the given order. */
  lemma LastRowRouted(hash: Hasher, rows: seq<TableConfigRow>, connection: Connection, row: TableConfigRow)
    requires BuildSpec(hash, rows, connection).Ok?
    requires forall others :: multiset(others) == multiset(rows) ==> BuildsAlike(hash, rows, others, connection)
    requires row in Kept(rows) && ClaimsSomething(GroupStyle(hash, Kept(rows), GroupKey(hash, row)), row)
    ensures var style := GroupStyle(hash, Kept(rows), GroupKey(hash, row));
            Declares(hash, Kept(rows), GroupKey(hash, row), FirstValue(style, row), FirstTable(style, row),
                MakeDatasourceCode(hash, row.sourceName))
  {
    hide BuildSpec, Kept, GroupKey, GroupStyle, ClaimsSomething, FirstValue, FirstTable, MakeDatasourceCode, Declares,
         Blank, Normalize, GroupKeys;
    var i := KeptSource(rows, row);
    var front := rows[..i] + rows[i + 1..];
    var others := front + [rows[i]];
    MoveLast(rows, i);
    KeptPermuted(rows, others);
    KeptSnoc(front, rows[i]);
    assert Kept(others) == Kept(front) + [row];
    var key := GroupKey(hash, row);
    SameStyle(hash, Kept(rows), Kept(others), key);
    var style := GroupStyle(hash, Kept(rows), key);
    LastDeclares(hash, Kept(front), row, style);
    assert BuildsAlike(hash, rows, others, connection);
    RowHasKey(hash, Kept(others), row);
    var v, p, d := FirstValue(style, row), FirstTable(style, row), MakeDatasourceCode(hash, row.sourceName);
    ImportDeclaresExactly(hash, others, connection, key, v, p, d);
    ImportDeclaresExactly(hash, rows, connection, key, v, p, d);
    assert HasRoute(BuildSpec(hash, others, connection).value, key, v, p, d);
  }

  lemma RowHasKey(hash: Hasher, kept: seq<TableConfigRow>, row: TableConfigRow)
    requires row in kept
    ensures GroupKey(hash, row) in GroupKeys(hash, kept)
  {
    hide GroupKey;
    KeysAre(hash, kept, GroupKey(hash, row));
  }

  /** Rows that build route one table for one value, so two names for one segment cannot both be routed. */
  lemma OneNameRouted(hash: Hasher, rows: seq<TableConfigRow>, connection: Connection, style: Style, a: TableConfigRow,
                      b: TableConfigRow)
    requires BuildSpec(hash, rows, connection).Ok?
    requires a in Kept(rows) && GroupKey(hash, a) == GroupKey(hash, b) && SegmentOf(a) == SegmentOf(b)
    requires Declares(hash, Kept(rows), GroupKey(hash, a), FirstValue(style, a), FirstTable(style, a),
          MakeDatasourceCode(hash, a.sourceName))
    requires Declares(hash, Kept(rows), GroupKey(hash, b), FirstValue(style, b), FirstTable(style, b),
          MakeDatasourceCode(hash, b.sourceName))
    ensures a.tableName == b.tableName
  {
    hide BuildSpec, Kept, GroupKey, FirstValue, FirstTable, MakeDatasourceCode, Declares, GroupConflict, GroupKeys;
    SameClaims(style, a, b);
    ConflictIsDeclared(hash, Kept(rows), GroupKey(hash, a));
    ImportRaisesExactly(hash, rows, connection);
    RowHasKey(hash, Kept(rows), a);
  }

  lemma SkippedCount(hash: Hasher, rows: seq<TableConfigRow>, connection: Connection)
    requires BuildSpec(hash, rows, connection).Ok?
    ensures BuildSpec(hash, rows, connection).value.skippedRows == CountBlank(rows)
  {
    hide BuildGroups, Kept, SortedKeys, CountBlank, SortDatasources;
  }

  lemma SameParts(hash: Hasher, rows: seq<TableConfigRow>, others: seq<TableConfigRow>, connection: Connection,
                  key: string)
    requires multiset(Kept(rows)) == multiset(Kept(others))
    requires BuildSpec(hash, rows, connection).Ok? && BuildSpec(hash, others, connection).Ok?
    ensures var a, b := BuildSpec(hash, rows, connection).value, BuildSpec(hash, others, connection).value;
            && (forall modulus :: HasTableRecord(a, key, modulus) <==> HasTableRecord(b, key, modulus))
            && (forall f :: f in a.factors && f.logicalTableName == key <==>
                  f in b.factors && f.logicalTableName == key)
            && (forall r :: r in a.rules && r.logicalTableName == key <==> r in b.rules && r.logicalTableName == key)
  {
    hide Kept, GroupKeys, GroupStyle, FactorRecords, ModulusOf, RuleFor, BuildSpec,
         HasTableRecord;
    SameStyle(hash, Kept(rows), Kept(others), key);
    BundleOf(hash, rows, connection, key);
    BundleOf(hash, others, connection, key);
  }

  lemma SameSkipped(rows: seq<TableConfigRow>, others: seq<TableConfigRow>)
    requires multiset(rows) == multiset(others) && multiset(Kept(rows)) == multiset(Kept(others))
    ensures CountBlank(rows) == CountBlank(others)
  {
    hide Kept, CountBlank;
    assert |multiset(rows)| == |multiset(others)|;
    assert |multiset(Kept(rows))| == |multiset(Kept(others))|;
    KeptAndBlank(rows);
    KeptAndBlank(others);
  }

  lemma RoutesAgree(hash: Hasher, rows: seq<TableConfigRow>, others: seq<TableConfigRow>, connection: Connection)
    requires multiset(rows) == multiset(others) && NamesAgree(hash, Kept(rows))
    requires BuildSpec(hash, rows, connection).Ok? && BuildSpec(hash, others, connection).Ok?
    ensures SameRoutes(BuildSpec(hash, rows, connection).value, BuildSpec(hash, others, connection).value)
  {
    hide BuildSpec, Kept, GroupKeys, GroupConflict, NamesAgree, Declares, GroupStyle;
    KeptPermuted(rows, others);
    forall key, v, p, d
      ensures HasRoute(BuildSpec(hash, rows, connection).value, key, v, p, d) <==>
            HasRoute(BuildSpec(hash, others, connection).value, key, v, p, d)
    {
      SameStyle(hash, Kept(rows), Kept(others), key);
      SameGroup(hash, Kept(rows), Kept(others), key);
      ImportDeclaresExactly(hash, rows, connection, key, v, p, d);
      ImportDeclaresExactly(hash, others, connection, key, v, p, d);
    }
  }

  lemma SameCodes(hash: Hasher, rows: seq<TableConfigRow>, others: seq<TableConfigRow>, connection: Connection)
    requires multiset(Kept(rows)) == multiset(Kept(others))
    requires BuildSpec(hash, rows, connection).Ok? && BuildSpec(hash, others, connection).Ok?
    ensures forall code :: HasCode(BuildSpec(hash, rows, connection).value.datasources, code)
                      <==> HasCode(BuildSpec(hash, others, connection).value.datasources, code)
  {
    hide Kept, SortDatasources, Datasources, HasCode, MakeDatasourceCode, BuildGroups, SortedKeys;
    SameMembers(Kept(rows), Kept(others));
    forall code
      ensures HasCode(BuildSpec(hash, rows, connection).value.datasources, code)
         <==> HasCode(BuildSpec(hash, others, connection).value.datasources, code)
    {
      CodesAre(hash, Kept(rows), connection, code);
      CodesAre(hash, Kept(others), connection, code);
      SortedCodes(Datasources(hash, Kept(rows), connection), code);
      SortedCodes(Datasources(hash, Kept(others), connection), code);
    }
  }

  // ------------------------------------------------------------ the condition on names is needed

  const UPPER_ROW := TableConfigRow("s", "c", "T", 0, 0, 0)
  const LOWER_ROW := TableConfigRow("s", "c", "t", 0, 0, 0)

  /** Names that differ only in case make one group. */
  lemma CaseSharesGroup(hash: Hasher)
    ensures GroupKey(hash, UPPER_ROW) == GroupKey(hash, LOWER_ROW)
  {
    var a, b := "c" + "__" + "T", "c" + "__" + "t";
    var fa := seq(|a|, i requires 0 <= i < |a| => Fold(a[i]));
    var fb := seq(|b|, i requires 0 <= i < |b| => Fold(b[i]));
    assert forall i :: 0 <= i < 4 ==> fa[i] == fb[i];
    assert fa == fb;
    hide Run, TrimRight;
    assert Base(a) == Base(b);
    assert |Base(a)| <= 4;
  }

  lemma LastRowStays(hash: Hasher, first: TableConfigRow, last: TableConfigRow)
    requires first in {UPPER_ROW, LOWER_ROW} && last in {UPPER_ROW, LOWER_ROW}
    ensures GroupSegments(hash, [first, last], GroupKey(hash, LOWER_ROW)) == [last]
  {
    CaseSharesGroup(hash);
    hide GroupKey;
    var rows := [first, last];
    assert rows[..1] == [first] && [first][..0] == [];
    assert GroupRows(hash, [first], GroupKey(hash, LOWER_ROW)) == [] + [first] == [first];
    assert GroupRows(hash, rows, GroupKey(hash, LOWER_ROW)) == [first] + [last] == rows;
    assert Dedupe([first]) == Put([], first) == [first];
    assert [first][1..] == [];
    assert Put([first], last) == [last] + [] == [last];
  }

  lemma OneSingle(row: TableConfigRow)
    requires row.shardCount == 0 && row.sourceName == "s"
    ensures StyleOf([row]) == Single
  {
    assert row in [row] && SourceOrUnknown(row) == "s";
    assert DistinctSources([row]) == {"s"};
  }

  lemma UpperLowerKept(first: TableConfigRow, last: TableConfigRow)
    requires first in {UPPER_ROW, LOWER_ROW} && last in {UPPER_ROW, LOWER_ROW}
    ensures Kept([first, last]) == [first, last]
  {
    StripId("s");
    StripId("c");
    StripId("t");
    StripId("T");
    hide Strip;
    assert [first, last][..1] == [first] && [first][..0] == [];
    assert Kept([first]) == [] + [first] == [first];
    assert [first, last] == [first] + [last];
  }

  /** What the surviving row declares. */
  lemma LastNamed(hash: Hasher, first: TableConfigRow, last: TableConfigRow, name: string)
    requires first in {UPPER_ROW, LOWER_ROW} && last in {UPPER_ROW, LOWER_ROW}
    ensures !GroupConflict(hash, [first, last], GroupKey(hash, LOWER_ROW))
    ensures Declares(hash, [first, last], GroupKey(hash, LOWER_ROW), "0", name, MakeDatasourceCode(hash, "s")) <==>
          name == last.tableName
  {
    LastRowStays(hash, first, last);
    OneSingle(last);
    hide GroupSegments, StyleOf, GroupKey, MakeDatasourceCode;
    var c := Claim("0", last.tableName, MakeDatasourceCode(hash, "s"), last);
    assert last in [last] && c in RowClaims(hash, Single, last);
    assert ClaimedBy(hash, Single, [last], c);
  }

  lemma OnlyGroup(hash: Hasher, first: TableConfigRow, last: TableConfigRow, key: string)
    requires first in {UPPER_ROW, LOWER_ROW} && last in {UPPER_ROW, LOWER_ROW}
    ensures key in GroupKeys(hash, [first, last]) <==> key == GroupKey(hash, LOWER_ROW)
  {
    CaseSharesGroup(hash);
    hide GroupKey, GroupKeys;
    KeysAre(hash, [first, last], key);
    assert first in [first, last];
  }

  /** In either order the two rows build, and the table routed is the last row's. */
  lemma LastNameRouted(hash: Hasher, connection: Connection, first: TableConfigRow, last: TableConfigRow, name: string)
    requires first in {UPPER_ROW, LOWER_ROW} && last in {UPPER_ROW, LOWER_ROW}
    ensures BuildSpec(hash, [first, last], connection).Ok?
    ensures HasRoute(BuildSpec(hash, [first, last], connection).value, GroupKey(hash, LOWER_ROW), "0", name,
          MakeDatasourceCode(hash, "s"))
       <==> name == last.tableName
  {
    hide BuildSpec, Kept, GroupKey, GroupKeys, MakeDatasourceCode, Declares, GroupConflict, UPPER_ROW, LOWER_ROW;
    var rows, key := [first, last], GroupKey(hash, LOWER_ROW);
    UpperLowerKept(first, last);
    LastNamed(hash, first, last, name);
    forall k
      ensures k in GroupKeys(hash, rows) <==> k == key
    {
      OnlyGroup(hash, first, last, k);
    }
    ImportRaisesExactly(hash, rows, connection);
    ImportDeclaresExactly(hash, rows, connection, key, "0", name, MakeDatasourceCode(hash, "s"));
  }

  /**
   With names that differ in case on one segment, the row that comes last decides the physical table:
   the routes depend on the order.
   */
  lemma OrderMattersAcrossNames(hash: Hasher, connection: Connection)
    ensures multiset([UPPER_ROW, LOWER_ROW]) == multiset([LOWER_ROW, UPPER_ROW])
    ensures var a, b := BuildSpec(hash, [UPPER_ROW, LOWER_ROW], connection),
          BuildSpec(hash, [LOWER_ROW, UPPER_ROW], connection);
            var key, code := GroupKey(hash, LOWER_ROW), MakeDatasourceCode(hash, "s");
            && a.Ok? && b.Ok?
            && HasRoute(a.value, key, "0", "t", code) && !HasRoute(a.value, key, "0", "T", code)
            && HasRoute(b.value, key, "0", "T", code) && !HasRoute(b.value, key, "0", "t", code)
  {
    hide BuildSpec, HasRoute, GroupKey, MakeDatasourceCode;
    LastNameRouted(hash, connection, UPPER_ROW, LOWER_ROW, "t");
    LastNameRouted(hash, connection, UPPER_ROW, LOWER_ROW, "T");
    LastNameRouted(hash, connection, LOWER_ROW, UPPER_ROW, "t");
    LastNameRouted(hash, connection, LOWER_ROW, UPPER_ROW, "T");
    assert "T"[0] != "t"[0];
  }
}
