/** Stable identifiers for imported datasources and logical tables. */
module Identifiers {
  import opened Text
  import opened TextMeaning

  predicate IsHex(c: char) { IsDigit(c) || 'a' <= c <= 'f' }

  /** The first eight hexadecimal digits of a digest. */
  type Hex8 = s: string | |s| == 8 && forall i :: 0 <= i < |s| ==> IsHex(s[i]) witness "00000000"

  type Hasher = string -> Hex8

  predicate IsAlnum(c: char) { IsLetter(c) || IsDigit(c) }

  function Fold(c: char): char {
    if IsAlnum(c) then LowerChar(c) else '_'
  }

  function Base(raw: string): string {
    TrimRight(Underscore, TrimLeft(Underscore, seq(|raw|, i requires 0 <= i < |raw| => Fold(raw[i]))))
  }

  /** `base[:max(1, available)].rstrip("_")`. */
  function Truncated(base: string, available: int): string {
    var n := if available < 1 then 1 else available;
    TrimRight(Underscore, if n < |base| then base[..n] else base)
  }

  /** `make_stable_identifier`. */
  function MakeStableIdentifier(hash: Hasher, raw: string, prefix: string, maxLength: nat): string {
    var base := if Base(raw) == "" then "unknown" else Base(raw);
    if |prefix + base| <= maxLength then prefix + base
    else prefix + Truncated(base, maxLength - |prefix| - 8 - 1) + "_" + hash(raw)
  }

  /** `make_datasource_code`. */
  function MakeDatasourceCode(hash: Hasher, sourceName: string): string {
    MakeStableIdentifier(hash, if sourceName == "" then "unknown_source" else sourceName, "spy_src_", 64)
  }

  /** `make_logical_table_name`. */
  function MakeLogicalTableName(hash: Hasher, catlogName: string, tableName: string): string {
    MakeStableIdentifier(hash, (if catlogName == "" then "unknown_catalog" else catlogName) + "__" + tableName, "", 128)
  }

  // ------------------------------------------------------------ properties

  predicate IsCleanChar(c: char) { 'a' <= c <= 'z' || IsDigit(c) || c == '_' }

  /** Lower-case letters, digits and underscores, with no underscore at either end. */
  predicate Clean(s: string) {
    s != "" && s[0] != '_' && s[|s| - 1] != '_' && forall i :: 0 <= i < |s| ==> IsCleanChar(s[i])
  }

  lemma BaseClean(raw: string)
    ensures Base(raw) == "" || Clean(Base(raw))
  {
    hide Run, TrimRight;
    var folded := seq(|raw|, i requires 0 <= i < |raw| => Fold(raw[i]));
    assert forall i :: 0 <= i < |folded| ==> IsCleanChar(folded[i]);
    var left := TrimLeft(Underscore, folded);
    assert forall i :: 0 <= i < |left| ==> IsCleanChar(left[i]);
    assert left != "" ==> !In(left[0], Underscore);
    var base := Base(raw);
    assert base <= left;
    assert base != "" ==> base[0] == left[0] && !In(base[|base| - 1], Underscore);
  }

  lemma TruncatedClean(base: string, available: int)
    requires Clean(base)
    ensures Clean(Truncated(base, available))
    ensures |Truncated(base, available)| <= if available < 1 then 1 else available
    ensures Truncated(base, available) <= base
  {
    hide TrimRight;
    var n := if available < 1 then 1 else available;
    var cut := if n < |base| then base[..n] else base;
    var t := TrimRight(Underscore, cut);
    assert cut[0] == base[0] && !In(cut[0], Underscore);
    assert t[0] == base[0];
    assert !In(t[|t| - 1], Underscore);
  }

  /** The base an identifier is built from. */
  function BaseOrUnknown(raw: string): (b: string)
    ensures Clean(b)
  {
    BaseClean(raw);
    if Base(raw) == "" then "unknown" else Base(raw)
  }

  /** The part after the prefix is clean: lower-case letters, digits, underscores, none at the edges. */
  lemma IdentifierShape(hash: Hasher, raw: string, prefix: string, maxLength: nat)
    ensures var id := MakeStableIdentifier(hash, raw, prefix, maxLength);
            prefix <= id && Clean(id[|prefix|..])
  {
    hide Base, Truncated, Clean;
    var base := BaseOrUnknown(raw);
    if |prefix + base| <= maxLength {
      assert (prefix + base)[|prefix|..] == base;
    } else {
      TruncatedClean(base, maxLength - |prefix| - 8 - 1);
      CutShape(hash, raw, prefix, Truncated(base, maxLength - |prefix| - 8 - 1));
    }
  }

  lemma CutShape(hash: Hasher, raw: string, prefix: string, cut: string)
    requires Clean(cut)
    ensures var id := prefix + cut + "_" + hash(raw);
            prefix <= id && Clean(id[|prefix|..])
  {
    hide Clean;
    CutClean(hash, raw, cut);
    var id := prefix + cut + "_" + hash(raw);
    assert id == prefix + (cut + "_" + hash(raw));
    assert id[|prefix|..] == cut + "_" + hash(raw);
  }

  lemma CutClean(hash: Hasher, raw: string, cut: string)
    requires Clean(cut)
    ensures Clean(cut + "_" + hash(raw))
  {
    var digest := hash(raw);
    assert forall i :: 0 <= i < 8 ==> IsHex(digest[i]);
    var s := cut + "_" + digest;
    assert s[0] == cut[0] && s[|s| - 1] == digest[7];
    forall i | 0 <= i < |s|
      ensures IsCleanChar(s[i])
    {
      if i > |cut| {
        assert s[i] == digest[i - |cut| - 1];
      }
    }
  }

  /**
   An identifier fits its maximum length exactly when nothing is cut or the maximum leaves ten
   characters after the prefix.
   */
  lemma IdentifierFits(hash: Hasher, raw: string, prefix: string, maxLength: nat)
    ensures |MakeStableIdentifier(hash, raw, prefix, maxLength)| <= maxLength
       <==> |prefix| + |BaseOrUnknown(raw)| <= maxLength || |prefix| + 10 <= maxLength
  {
    hide Base;
    var base := BaseOrUnknown(raw);
    TruncatedClean(base, maxLength - |prefix| - 8 - 1);
  }

  lemma CleanIsItsBase(s: string)
    requires Clean(s)
    ensures Base(s) == s
  {
    hide Run;
    var folded := seq(|s|, i requires 0 <= i < |s| => Fold(s[i]));
    assert folded == s;
    assert !In(s[0], Underscore) && !In(s[|s| - 1], Underscore);
    RunIs(Underscore, s, 0);
    TrimRightId(Underscore, s);
  }

  /**
   Without a prefix, an identifier is its own identifier exactly when it fits its maximum length
   (nothing was cut, or at least ten characters are allowed) or the digest function happens to give
   it the digest of the text it was made from.
   */
  lemma IdentifierIdempotent(hash: Hasher, raw: string, maxLength: nat)
    ensures var id := MakeStableIdentifier(hash, raw, "", maxLength);
            MakeStableIdentifier(hash, id, "", maxLength) == id <==>
            |BaseOrUnknown(raw)| <= maxLength || maxLength >= 10 || hash(id) == hash(raw)
  {
    hide MakeStableIdentifier, Clean;
    var id := MakeStableIdentifier(hash, raw, "", maxLength);
    IdentifierShape(hash, raw, "", maxLength);
    IdentifierFits(hash, raw, "", maxLength);
    assert id[0..] == id;
    if |id| <= maxLength {
      FittingAgain(hash, id, maxLength);
    } else {
      ShortAgain(hash, raw, maxLength);
    }
  }

  lemma FittingAgain(hash: Hasher, id: string, maxLength: nat)
    requires Clean(id) && |id| <= maxLength
    ensures MakeStableIdentifier(hash, id, "", maxLength) == id
  {
    CleanIsItsBase(id);
    hide Base, Clean;
    assert "" + id == id;
  }

  lemma ShortAgain(hash: Hasher, raw: string, maxLength: nat)
    requires |BaseOrUnknown(raw)| > maxLength && maxLength < 10
    ensures var id := MakeStableIdentifier(hash, raw, "", maxLength);
            MakeStableIdentifier(hash, id, "", maxLength) == id <==> hash(id) == hash(raw)
  {
    hide MakeStableIdentifier, Truncated, Clean, Base;
    var id := MakeStableIdentifier(hash, raw, "", maxLength);
    ShortCut(hash, raw, maxLength);
    IdentifierShape(hash, raw, "", maxLength);
    assert id[0..] == id;
    CleanIsItsBase(id);
    NotUnknown(id);
    ShortCut(hash, id, maxLength);
    SameDigest(id, [id[0]], hash(id), hash(raw));
  }

  lemma NotUnknown(id: string)
    requires Clean(id) && Base(id) == id
    ensures BaseOrUnknown(id) == id
  {
    hide Base;
  }

  lemma SameDigest(id: string, cut: string, again: string, digest: string)
    requires id == cut + "_" + digest && |again| == |digest|
    ensures cut + "_" + again == id <==> again == digest
  {
    if cut + "_" + again == id {
      assert (cut + "_" + again)[|cut| + 1..] == again && id[|cut| + 1..] == digest;
    }
  }

  /** Below ten characters the cut leaves one character and the digest, whatever is cut. */
  lemma ShortCut(hash: Hasher, raw: string, maxLength: nat)
    requires |BaseOrUnknown(raw)| > maxLength && maxLength < 10
    ensures var id := MakeStableIdentifier(hash, raw, "", maxLength);
            && |id| == 10 && id == [BaseOrUnknown(raw)[0]] + "_" + hash(raw)
            && Truncated(id, maxLength - 9) == [id[0]]
  {
    hide Base;
    var base := BaseOrUnknown(raw);
    OneCharacter(base, maxLength - 9);
    var id := MakeStableIdentifier(hash, raw, "", maxLength);
    IdentifierShape(hash, raw, "", maxLength);
    assert id[0..] == id;
    OneCharacter(id, maxLength - 9);
  }

  lemma OneCharacter(base: string, available: int)
    requires Clean(base) && available <= 1
    ensures Truncated(base, available) == [base[0]]
  {
    hide TrimRight;
    var cut := if 1 < |base| then base[..1] else base;
    assert cut == [base[0]];
    TrimRightId(Underscore, cut);
  }

  // ------------------------------------------------------------ what an identifier is made of

  /** Letters in lower case, digits as they are, anything else an underscore. */
  predicate Folds(c: char, d: char) {
    if 'A' <= c <= 'Z' then 'a' <= d <= 'z' && d as int - 'a' as int == c as int - 'A' as int
    else if 'a' <= c <= 'z' || '0' <= c <= '9' then d == c
    else d == '_'
  }

  predicate FoldsTo(raw: string, t: string) {
    |t| == |raw| && forall i :: 0 <= i < |raw| ==> Folds(raw[i], t[i])
  }

  /** Folded character by character, the name is `core` between underscores. */
  ghost predicate Core(raw: string, core: string) {
    exists a, b :: CoreAt(raw, core, a, b)
  }

  predicate CoreAt(raw: string, core: string, a: string, b: string) {
    FoldsTo(raw, a + core + b) && All(Underscore, a) && All(Underscore, b) && Bare(Underscore, core)
  }

  lemma FoldedIs(raw: string, t: string)
    requires FoldsTo(raw, t)
    ensures t == seq(|raw|, i requires 0 <= i < |raw| => Fold(raw[i]))
  {
  }

  lemma CoreExactly(raw: string, core: string)
    ensures Core(raw, core) <==> Base(raw) == core
  {
    hide Folds;
    var folded := seq(|raw|, i requires 0 <= i < |raw| => Fold(raw[i]));
    if a, b :| CoreAt(raw, core, a, b) {
      FoldedIs(raw, a + core + b);
      TrimExactly(Underscore, a, core, b);
    }
    var a, t, b := TrimParts(Underscore, folded);
    FoldsToFolded(raw, folded);
    assert CoreAt(raw, t, a, b);
  }

  lemma FoldsToFolded(raw: string, folded: string)
    requires folded == seq(|raw|, i requires 0 <= i < |raw| => Fold(raw[i]))
    ensures FoldsTo(raw, folded)
  {
  }

  /** What an identifier is: prefix and core if they fit, else the core cut short, and the digest of the whole name. */
  lemma IdentifierExactly(hash: Hasher, raw: string, prefix: string, maxLength: nat, core: string)
    requires Core(raw, core)
    ensures var id := MakeStableIdentifier(hash, raw, prefix, maxLength);
            var base := if core == "" then "unknown" else core;
            if |prefix| + |base| <= maxLength then id == prefix + base
            else exists cut, rest :: id == prefix + cut + "_" + hash(raw)
                                     && CutTo(base[..Room(base, prefix, maxLength)], cut, rest)
  {
    CoreExactly(raw, core);
    BaseClean(raw);
    hide Core, Base, Truncated, CutTo, Clean;
    var base := if core == "" then "unknown" else core;
    var n := maxLength - |prefix| - 8 - 1;
    if |prefix| + |base| > maxLength {
      assert Clean(BaseOrUnknown(raw)) && BaseOrUnknown(raw) == base;
      var rest := CutExactly(base, prefix, maxLength);
      assert MakeStableIdentifier(hash, raw, prefix, maxLength) == prefix + Truncated(base, n) + "_" + hash(raw);
    }
  }

  lemma CutExactly(base: string, prefix: string, maxLength: nat) returns (rest: string)
    requires Clean(base)
    ensures CutTo(base[..Room(base, prefix, maxLength)], Truncated(base, maxLength - |prefix| - 8 - 1), rest)
  {
    TruncatedIsTrimmed(base, prefix, maxLength);
    CleanEnds(base, maxLength - |prefix| - 8 - 1);
    hide Clean, TrimRight, Truncated;
    rest := TrimRest(base[..Room(base, prefix, maxLength)]);
  }

  lemma TruncatedIsTrimmed(base: string, prefix: string, maxLength: nat)
    requires base != ""
    ensures Truncated(base, maxLength - |prefix| - 8 - 1)
         == TrimRight(Underscore, base[..Room(base, prefix, maxLength)])
  {
    hide TrimRight;
    assert base[..|base|] == base;
  }

  lemma TrimRest(front: string) returns (rest: string)
    requires Bare(Underscore, TrimRight(Underscore, front))
    ensures CutTo(front, TrimRight(Underscore, front), rest)
  {
    var cut := TrimRight(Underscore, front);
    hide TrimRight;
    rest := front[|cut|..];
    assert forall i :: 0 <= i < |rest| ==> rest[i] == front[|cut| + i];
  }

  lemma CleanEnds(base: string, n: int)
    requires Clean(base)
    ensures Bare(Underscore, Truncated(base, n))
  {
    TruncatedClean(base, n);
    hide Truncated;
  }

  /** What is kept of a text without the underscores at its end. */
  predicate CutTo(front: string, cut: string, rest: string) {
    front == cut + rest && All(Underscore, rest) && Bare(Underscore, cut)
  }

  /** How much of a base that does not fit is kept: what prefix, separator and digest leave, but at least one. */
  function Room(base: string, prefix: string, maxLength: nat): (n: nat)
    ensures n <= |base|
  {
    var n := maxLength - |prefix| - 9;
    if n < 1 then (if base == "" then 0 else 1) else if n < |base| then n else |base|
  }

  /** The code of a source whose core fits is that core behind the prefix; the empty name has a code of its own. */
  lemma SourceCode(hash: Hasher, source: string, core: string)
    requires Core(source, core) && |core| <= 56
    ensures source == "" ==> MakeDatasourceCode(hash, source) == "spy_src_unknown_source"
    ensures source != "" ==> MakeDatasourceCode(hash, source) == "spy_src_" + if core == "" then "unknown" else core
  {
    hide Core, MakeStableIdentifier;
    IdentifierExactly(hash, source, "spy_src_", 64, core);
    UnknownSource();
    IdentifierExactly(hash, "unknown_source", "spy_src_", 64, "unknown_source");
  }

  lemma UnknownSource()
    ensures Core("unknown_source", "unknown_source")
  {
    var s := "unknown_source";
    assert "" + s + "" == s;
    assert CoreAt(s, s, "", "");
  }

  /** Sources with different cores that fit have different codes. */
  lemma SourcesApart(hash: Hasher, a: string, b: string, x: string, y: string)
    requires Core(a, x) && Core(b, y) && x != y && x != "" && y != "" && |x| <= 56 && |y| <= 56
    ensures MakeDatasourceCode(hash, a) == "spy_src_" + x && MakeDatasourceCode(hash, b) == "spy_src_" + y
    ensures MakeDatasourceCode(hash, a) != MakeDatasourceCode(hash, b)
  {
    EmptyCore();
    SourceCode(hash, a, x);
    SourceCode(hash, b, y);
    CoreExactly(a, x);
    CoreExactly(b, y);
    hide Core, Base, MakeDatasourceCode;
    assert ("spy_src_" + x)[8..] == x && ("spy_src_" + y)[8..] == y;
  }

  lemma EmptyCore()
    ensures Base("") == ""
  {
  }

  /** No underscore at either end, and no two in a row. */
  predicate Plain(t: string) {
    && t != "" && t[0] != '_' && t[|t| - 1] != '_'
    && forall i :: 0 < i < |t| ==> t[i - 1] != '_' || t[i] != '_'
  }

  /** The name of a table: its catalog and its own name, folded, with two underscores between them. */
  lemma TableNameOf(hash: Hasher, catalog: string, table: string, x: string, y: string)
    requires FoldsTo(if catalog == "" then "unknown_catalog" else catalog, x) && FoldsTo(table, y)
    requires x != "" && x[0] != '_' && y != "" && y[|y| - 1] != '_' && |x| + |y| <= 126
    ensures MakeLogicalTableName(hash, catalog, table) == x + "__" + y
  {
    var given := if catalog == "" then "unknown_catalog" else catalog;
    var raw, name := given + "__" + table, x + "__" + y;
    forall i | 0 <= i < |raw|
      ensures Folds(raw[i], name[i])
    {
      if i >= |given| + 2 {
        assert raw[i] == table[i - |given| - 2] && name[i] == y[i - |given| - 2];
      }
    }
    assert "" + name + "" == name;
    assert CoreAt(raw, name, "", "");
    hide Core, FoldsTo, MakeStableIdentifier;
    IdentifierExactly(hash, raw, "", 128, name);
    assert "" + name == name;
  }

  /** Where the first of the two names ends can be read off the whole, so different pairs have different names. */
  lemma TableNamesApart(x: string, y: string, u: string, v: string)
    requires Plain(x) && Plain(y) && Plain(u) && Plain(v)
    ensures x + "__" + y == u + "__" + v <==> x == u && y == v
  {
    if x + "__" + y == u + "__" + v {
      NotLonger(x, y, u, v);
      NotLonger(u, v, x, y);
      var name := x + "__" + y;
      assert name[..|x|] == x && name[..|u|] == u;
      assert name[|x| + 2..] == y && name[|u| + 2..] == v;
    }
  }

  lemma NotLonger(x: string, y: string, u: string, v: string)
    requires Plain(x) && Plain(y) && Plain(u) && Plain(v) && x + "__" + y == u + "__" + v
    ensures |u| <= |x|
  {
    var name := x + "__" + y;
    assert name[|x|] == '_' && name[|x| + 1] == '_';
    assert forall i :: 0 <= i < |u| ==> (u + "__" + v)[i] == u[i];
  }
}
