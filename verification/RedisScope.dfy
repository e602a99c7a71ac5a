/** Which keys a datasource serves, read off its prefix entry and the settings. */
module RedisScope {
  import opened Text
  import opened TextMeaning
  import opened Metadata
  import opened Redis

  // ------------------------------------------------------------ the pieces of a text

  /** `s[i..j]` lies between two separators, or between one and an end of the text. */
  predicate PieceAt(s: string, separator: char, i: nat, j: nat) {
    && i <= j <= |s| && separator !in s[i..j]
    && (i > 0 ==> s[i - 1] == separator) && (j < |s| ==> s[j] == separator)
  }

  ghost predicate Piece(s: string, separator: char, p: string) {
    exists i: nat, j: nat :: PieceAt(s, separator, i, j) && p == s[i..j]
  }

  /** The separators before position `i`. */
  function Before(s: string, separator: char, i: nat): nat
    requires i <= |s|
  {
    if i == 0 then 0 else (if s[0] == separator then 1 else 0) + Before(s[1..], separator, i - 1)
  }

  lemma PieceLater(s: string, separator: char, i: nat, j: nat)
    requires s != "" && i <= j < |s|
    requires PieceAt(s[1..], separator, i, j) && (i == 0 ==> s[0] == separator)
    ensures PieceAt(s, separator, i + 1, j + 1) && s[i + 1..j + 1] == s[1..][i..j]
  {
    var piece, same := s[i + 1..j + 1], s[1..][i..j];
    assert |piece| == |same| && forall k :: 0 <= k < |piece| ==> piece[k] == s[i + 1 + k] == same[k];
    assert piece == same;
  }

  lemma {:induction false} PieceIsSplit(s: string, separator: char, i: nat, j: nat)
    requires PieceAt(s, separator, i, j)
    ensures Before(s, separator, i) < |Split(s, separator)|
    ensures Split(s, separator)[Before(s, separator, i)] == s[i..j]
    ensures i > 0 ==> Before(s, separator, i) > 0
  {
    if s == "" {
    } else if i > 0 {
      assert s[1..][i - 1..j - 1] == s[i..j];
      PieceIsSplit(s[1..], separator, i - 1, j - 1);
    } else if s[0] != separator {
      assert s[1..][..j - 1] == s[1..j];
      assert forall k :: 0 <= k < j - 1 ==> s[1..j][k] == s[0..j][k + 1];
      PieceIsSplit(s[1..], separator, 0, j - 1);
      assert s[..j] == [s[0]] + s[1..j];
    }
  }

  lemma {:induction false} SplitIsPiece(s: string, separator: char, k: nat) returns (i: nat, j: nat)
    requires k < |Split(s, separator)|
    ensures PieceAt(s, separator, i, j) && Split(s, separator)[k] == s[i..j]
    ensures k == 0 <==> i == 0
  {
    if s == "" || (s[0] == separator && k == 0) {
      i, j := 0, 0;
    } else if s[0] == separator {
      i, j := SplitIsPiece(s[1..], separator, k - 1);
      PieceLater(s, separator, i, j);
      i, j := i + 1, j + 1;
    } else {
      i, j := SplitIsPiece(s[1..], separator, k);
      if k == 0 {
        assert s[..j + 1] == [s[0]] + s[1..][..j];
        j := j + 1;
      } else {
        PieceLater(s, separator, i, j);
        i, j := i + 1, j + 1;
      }
    }
  }

  /** `str.split` yields exactly the pieces between separators. */
  lemma SplitExactly(s: string, separator: char, p: string)
    ensures p in Split(s, separator) <==> Piece(s, separator, p)
  {
    if i: nat, j: nat :| PieceAt(s, separator, i, j) && p == s[i..j] {
      PieceIsSplit(s, separator, i, j);
    }
    if p in Split(s, separator) {
      var k :| 0 <= k < |Split(s, separator)| && Split(s, separator)[k] == p;
      var i, j := SplitIsPiece(s, separator, k);
    }
  }

  // ------------------------------------------------------------ the scope of a datasource

  /** An item of the datasource's own entry: of its list, or of its text; without an entry, of the settings' text. */
  ghost predicate Item(settings: Settings, d: Datasource, item: string) {
    match d.keyPrefixes
    case PrefixList(items) => item in items
    case PrefixText(text) => Piece(text, ',', item)
    case Unset => Piece(settings.allowedPrefixes, ',', item)
  }

  /** The key starts with some item that is not blank; `*`, or no such item at all, lets every key in. */
  ghost predicate InScope(settings: Settings, key: string, d: Datasource) {
    || (forall item :: Item(settings, d, item) ==> StripsTo(item, ""))
    || (exists item :: Item(settings, d, item) && StripsTo(item, "*"))
    || (exists item, t :: Item(settings, d, item) && StripsTo(item, t) && t != "" && t <= key)
  }

  lemma {:induction false} StrippedExactly(items: seq<string>, t: string)
    ensures t in Stripped(items) <==> t != "" && exists item :: item in items && Strip(item) == t
  {
    hide Strip;
    if items != [] {
      StrippedExactly(items[1..], t);
      assert items == [items[0]] + items[1..];
    }
  }

  /** The prefixes in force are the stripped forms of the items that are not blank. */
  lemma PrefixesExactly(settings: Settings, d: Datasource, t: string)
    ensures t in AllowedPrefixes(settings, d)
       <==> t != "" && exists item :: Item(settings, d, item) && StripsTo(item, t)
  {
    hide Strip, Split, Stripped, Piece, StripsTo;
    forall item
      ensures StripsTo(item, t) <==> Strip(item) == t
    {
      StripIs(item, t);
    }
    match d.keyPrefixes
    case PrefixList(items) => StrippedExactly(items, t);
    case PrefixText(text) => PiecesStripped(text, t);
    case Unset => PiecesStripped(settings.allowedPrefixes, t);
  }

  lemma PiecesStripped(text: string, t: string)
    ensures t in Stripped(Split(text, ',')) <==> t != "" && exists item :: Piece(text, ',', item) && Strip(item) == t
  {
    hide Strip, Split, Stripped, Piece;
    StrippedExactly(Split(text, ','), t);
    forall item
      ensures item in Split(text, ',') <==> Piece(text, ',', item)
    {
      SplitExactly(text, ',', item);
    }
  }

  /** A key is allowed on a datasource exactly when it is in that datasource's scope. */
  lemma ScopeExactly(settings: Settings, key: string, d: Datasource)
    ensures KeyAllowed(settings, key, d) <==> InScope(settings, key, d)
  {
    hide AllowedPrefixes, Item, StripsTo;
    var prefixes := AllowedPrefixes(settings, d);
    forall t
      ensures t in prefixes <==> t != "" && exists item :: Item(settings, d, item) && StripsTo(item, t)
    {
      PrefixesExactly(settings, d, t);
    }
    NoPrefix(settings, d);
    StartsExactly(key, prefixes);
    hide StartsWithOne;
    if InScope(settings, key, d) && prefixes != [] && "*" !in prefixes {
      assert !exists item :: Item(settings, d, item) && StripsTo(item, "*");
      var item, t :| Item(settings, d, item) && StripsTo(item, t) && t != "" && t <= key;
      assert t in prefixes;
    }
  }

  lemma StartsExactly(key: string, prefixes: seq<string>)
    ensures StartsWithOne(key, prefixes) <==> exists t :: t in prefixes && t <= key
  {
    if t :| t in prefixes && t <= key {
      var i :| 0 <= i < |prefixes| && prefixes[i] == t;
    }
    if i :| 0 <= i < |prefixes| && prefixes[i] <= key {
      assert prefixes[i] in prefixes;
    }
  }

  lemma NoPrefix(settings: Settings, d: Datasource)
    ensures AllowedPrefixes(settings, d) == [] <==> forall item :: Item(settings, d, item) ==> StripsTo(item, "")
  {
    hide AllowedPrefixes, Item, StripsTo;
    var prefixes := AllowedPrefixes(settings, d);
    if prefixes == [] {
      forall item | Item(settings, d, item)
        ensures StripsTo(item, "")
      {
        StripIs(item, Strip(item));
        PrefixesExactly(settings, d, Strip(item));
      }
    } else {
      PrefixesExactly(settings, d, prefixes[0]);
      var item :| Item(settings, d, item) && StripsTo(item, prefixes[0]);
      StripIs(item, prefixes[0]);
      StripIs(item, "");
    }
  }
}
