/**
 Reading a statement again after its table names were replaced.

 `Retoken` is the rewritten statement described along the scan that found the tables: the same
 text with the i-th table token replaced by the i-th name. Every scanner of the parser is shown
 to see in it what it saw in the original.
 */
module RewriteTransfer {
  import opened Wrappers
  import opened Text
  import opened SqlParser
  import opened SqlRewrite

  ghost function Retoken(prevWord: bool, t: string, skip: nat, names: seq<string>): string
    decreases |t|
  {
    if t == "" then ""
    else if skip > 0 then [t[0]] + Retoken(IsWord(t[0]), t[1..], skip - 1, names)
    else
      match MatchTable(prevWord, t)
      case None => [t[0]] + Retoken(IsWord(t[0]), t[1..], 0, names)
      case Some(m) =>
        if names == [] then t
        else t[..m.nameStart] + names[0] + Retoken(true, t[m.nameEnd..], m.end - m.nameEnd, names[1..])
  }

  ghost predicate AllIdents(names: seq<string>) {
    forall i :: 0 <= i < |names| ==> IsIdent(names[i])
  }

  // ------------------------------------------------------------ the text that stays

  function Minus(skip: nat, j: nat): nat {
    if j <= skip then skip - j else 0
  }

  lemma StepTail(prevWord: bool, t: string, skip: nat, names: seq<string>)
    requires t != "" && (skip == 0 ==> MatchTable(prevWord, t).None?)
    ensures var r := Retoken(prevWord, t, skip, names);
            && r != "" && r[0] == t[0]
            && r[1..] == Retoken(IsWord(t[0]), t[1..], Minus(skip, 1), names)
  {
    hide MatchTable, IsIdent, IsWord;
  }

  /** A rewritten text starts with the same five characters: no name token starts earlier. */
  lemma {:induction false} HeadKept(prevWord: bool, t: string, skip: nat, names: seq<string>)
    ensures var r := Retoken(prevWord, t, skip, names);
            if |t| < 5 then r == t else |r| >= 5 && r[..5] == t[..5]
    decreases |t|
  {
    hide MatchTable, IsIdent, IsWord;
    if t != "" {
      if skip > 0 {
        HeadKept(IsWord(t[0]), t[1..], skip - 1, names);
        HeadStep(t, Retoken(IsWord(t[0]), t[1..], skip - 1, names));
      } else {
        match MatchTable(prevWord, t) {
          case None =>
            HeadKept(IsWord(t[0]), t[1..], 0, names);
            HeadStep(t, Retoken(IsWord(t[0]), t[1..], 0, names));
          case Some(m) =>
        }
      }
    }
  }

  lemma HeadStep(t: string, r: string)
    requires t != ""
    requires if |t[1..]| < 5 then r == t[1..] else |r| >= 5 && r[..5] == t[1..][..5]
    ensures if |t| < 5 then [t[0]] + r == t else |r| >= 4 && ([t[0]] + r)[..5] == t[..5]
  {
    if |t| > 5 {
      assert forall i :: 0 <= i < 5 ==> r[i] == r[..5][i] && t[1..][..5][i] == t[i + 1];
    }
  }

  /** Whether the character before position `j` is a word character. */
  function After(prevWord: bool, t: string, j: nat): bool
    requires j <= |t|
  {
    if j == 0 then prevWord else IsWord(t[j - 1])
  }

  /** No table match starts in `[skip, j)`. */
  ghost predicate Unmatched(prevWord: bool, t: string, skip: nat, j: nat)
    requires j <= |t|
  {
    forall i :: skip <= i < j ==> MatchTable(After(prevWord, t, i), t[i..]).None?
  }

  lemma UnmatchedTail(prevWord: bool, t: string, skip: nat, j: nat)
    requires 0 < j <= |t| && Unmatched(prevWord, t, skip, j)
    ensures Unmatched(IsWord(t[0]), t[1..], Minus(skip, 1), j - 1)
    ensures skip == 0 ==> MatchTable(prevWord, t).None?
  {
    hide MatchTable, IsWord;
    assert t[0..] == t;
    forall i | Minus(skip, 1) <= i < j - 1
      ensures MatchTable(After(IsWord(t[0]), t[1..], i), t[1..][i..]).None?
    {
      assert t[1..][i..] == t[i + 1..];
    }
  }

  lemma CopyStep(prevWord: bool, t: string, skip: nat, names: seq<string>)
    requires t != "" && (skip == 0 ==> MatchTable(prevWord, t).None?)
    ensures Retoken(prevWord, t, skip, names) == [t[0]] + Retoken(IsWord(t[0]), t[1..], Minus(skip, 1), names)
  {
    hide MatchTable, IsIdent, IsWord;
  }

  /** `Retoken` copies the first `j` characters of `t` and goes on from there. */
  ghost predicate Copies(prevWord: bool, t: string, skip: nat, names: seq<string>, j: nat)
    requires j <= |t|
  {
    Retoken(prevWord, t, skip, names)
    == t[..j] + Retoken(After(prevWord, t, j), t[j..], Minus(skip, j), names)
  }

  lemma CopyNone(prevWord: bool, t: string, skip: nat, names: seq<string>)
    ensures Copies(prevWord, t, skip, names, 0)
  {
    hide Retoken, IsWord;
    assert t[0..] == t;
  }

  lemma CopyMore(prevWord: bool, t: string, skip: nat, names: seq<string>, j: nat)
    requires 0 < j <= |t|
    requires Copies(IsWord(t[0]), t[1..], Minus(skip, 1), names, j - 1)
    requires Retoken(prevWord, t, skip, names) == [t[0]] + Retoken(IsWord(t[0]), t[1..], Minus(skip, 1), names)
    ensures Copies(prevWord, t, skip, names, j)
  {
    hide Retoken, IsWord;
    assert t[1..][j - 1..] == t[j..];
    ConsTake(t, j, Retoken(After(prevWord, t, j), t[j..], Minus(skip, j), names));
  }

  lemma ConsTake(t: string, j: nat, rest: string)
    requires 0 < j <= |t|
    ensures [t[0]] + (t[1..][..j - 1] + rest) == t[..j] + rest
  {
  }

  /** The characters up to `j` are copied when no table match starts among them. */
  lemma {:induction false} Drop(prevWord: bool, t: string, skip: nat, names: seq<string>, j: nat)
    requires j <= |t| && Unmatched(prevWord, t, skip, j)
    ensures Copies(prevWord, t, skip, names, j)
    decreases |t|
  {
    hide MatchTable, IsIdent, IsWord, Unmatched, Copies;
    if j == 0 {
      CopyNone(prevWord, t, skip, names);
    } else {
      UnmatchedTail(prevWord, t, skip, j);
      Drop(IsWord(t[0]), t[1..], Minus(skip, 1), names, j - 1);
      CopyMore(prevWord, t, skip, names, j);
    }
  }

  /** No table match starts at a character that is neither `f` nor `j`. */
  lemma QuietHead(prevWord: bool, t: string)
    requires t != "" && LowerChar(t[0]) != 'f' && LowerChar(t[0]) != 'j'
    ensures MatchTable(prevWord, t).None?
  {
    var w := "from";
    assert w[0] == 'f';
    assert "join"[0] == 'j';
  }

  /** Blanks and digits are copied. */
  lemma DropRun(k: CharClass, prevWord: bool, t: string, skip: nat, names: seq<string>, j: nat)
    requires k == Space || k == Digit
    requires j == Run(k, t)
    ensures Copies(prevWord, t, skip, names, j)
  {
    hide MatchTable, IsIdent, IsWord, Copies;
    forall i | skip <= i < j
      ensures MatchTable(After(prevWord, t, i), t[i..]).None?
    {
      assert In(t[i], k);
      QuietHead(After(prevWord, t, i), t[i..]);
    }
    Drop(prevWord, t, skip, names, j);
  }

  lemma RunOfHead(k: CharClass, a: string, b: string, i: nat)
    requires |a| >= 5 && |b| >= 5 && a[..5] == b[..5]
    requires i < 5 && !In(a[i], k)
    ensures Run(k, a) == Run(k, b)
  {
    hide In;
    var n := Run(k, a);
    assert n <= i;
    forall m | 0 <= m < 5
      ensures a[m] == b[m]
    {
      assert a[m] == a[..5][m] && b[m] == b[..5][m];
    }
    RunIs(k, b, n);
  }

  lemma MatchHead(prevWord: bool, t: string)
    ensures MatchTable(prevWord, t).Some? ==> IsLetter(t[0]) && IsSpace(t[4])
  {
    if MatchTable(prevWord, t).Some? {
      var w := if HasKeyword(t, "from") then "from" else "join";
      assert LowerChar(t[0]) == w[0];
      assert Run(Space, t[4..]) > 0;
    }
  }

  /** Runs of a character class at the front have the same length. */
  lemma {:induction false} RunKept(k: CharClass, prevWord: bool, t: string, skip: nat, names: seq<string>)
    ensures Run(k, Retoken(prevWord, t, skip, names)) == Run(k, t)
    decreases |t|
  {
    hide MatchTable, IsIdent, IsWord, In;
    if t != "" {
      if skip > 0 {
        RunKept(k, IsWord(t[0]), t[1..], skip - 1, names);
      } else if MatchTable(prevWord, t).None? {
        RunKept(k, IsWord(t[0]), t[1..], 0, names);
      } else {
        HeadKept(prevWord, t, 0, names);
        RunKeptAtMatch(k, prevWord, t, names);
      }
    }
  }

  lemma RunKeptAtMatch(k: CharClass, prevWord: bool, t: string, names: seq<string>)
    requires MatchTable(prevWord, t).Some?
    ensures Run(k, Retoken(prevWord, t, 0, names)) == Run(k, t)
  {
    hide MatchTable, IsIdent, Retoken;
    HeadKept(prevWord, t, 0, names);
    MatchHead(prevWord, t);
    RunOfHead(k, t, Retoken(prevWord, t, 0, names), if k == Space || k == NumberBlank then 0 else 4);
  }

  /** What a text offers to a keyword or identifier test at its front is kept. */
  lemma FrontKept(prevWord: bool, t: string, skip: nat, names: seq<string>, w: string)
    requires |w| <= 5
    ensures HasKeyword(Retoken(prevWord, t, skip, names), w) == HasKeyword(t, w)
    ensures IdentAt(Retoken(prevWord, t, skip, names)) == IdentAt(t)
    ensures (Retoken(prevWord, t, skip, names) == "") == (t == "")
    ensures t != "" ==> Retoken(prevWord, t, skip, names)[0] == t[0]
  {
    hide MatchTable, IsIdent, Retoken, IsWord;
    HeadKept(prevWord, t, skip, names);
    var r := Retoken(prevWord, t, skip, names);
    if |t| >= 5 {
      forall m | 0 <= m < 5
        ensures r[m] == t[m]
      {
        assert r[m] == r[..5][m] && t[m] == t[..5][m];
      }
    }
  }

  // ------------------------------------------------------------ the table scan

  lemma SpacedIdentKept(prevWord: bool, t: string, skip: nat, names: seq<string>)
    ensures SpacedIdent(Retoken(prevWord, t, skip, names)) == SpacedIdent(t)
  {
    hide MatchTable, IsIdent, Retoken, IsWord, IdentAt;
    var w := Run(Space, t);
    RunKept(Space, prevWord, t, skip, names);
    DropRun(Space, prevWord, t, skip, names, w);
    var r := Retoken(prevWord, t, skip, names);
    var rest := Retoken(After(prevWord, t, w), t[w..], Minus(skip, w), names);
    assert r[w..] == rest;
    FrontKept(After(prevWord, t, w), t[w..], Minus(skip, w), names, "");
  }

  /** After copying `j` characters, what follows is again a rewritten text. */
  lemma Rest(prevWord: bool, t: string, skip: nat, names: seq<string>, j: nat)
    requires j <= |t| && Copies(prevWord, t, skip, names, j)
    ensures var r := Retoken(prevWord, t, skip, names);
            && j <= |r|
            && r[..j] == t[..j]
            && r[j..] == Retoken(After(prevWord, t, j), t[j..], Minus(skip, j), names)
  {
    hide Retoken;
  }

  lemma QuietDrop(prevWord: bool, t: string, skip: nat, names: seq<string>, j: nat)
    requires j <= |t|
    requires forall i :: 0 <= i < j ==> LowerChar(t[i]) != 'f' && LowerChar(t[i]) != 'j'
    ensures Copies(prevWord, t, skip, names, j)
  {
    hide MatchTable, Copies, IsWord;
    forall i | skip <= i < j
      ensures MatchTable(After(prevWord, t, i), t[i..]).None?
    {
      assert t[i..][0] == t[i];
      QuietHead(After(prevWord, t, i), t[i..]);
    }
    Drop(prevWord, t, skip, names, j);
  }

  lemma QuietAs(t: string)
    requires HasKeyword(t, "as")
    ensures forall i :: 0 <= i < 2 ==> LowerChar(t[i]) != 'f' && LowerChar(t[i]) != 'j'
  {
    assert "as"[0] == 'a' && "as"[1] == 's';
  }

  lemma AliasNameKept(prevWord: bool, t: string, skip: nat, names: seq<string>)
    ensures AliasName(Retoken(prevWord, t, skip, names)) == AliasName(t)
  {
    hide MatchTable, IsIdent, Retoken, IsWord, IdentAt, SpacedIdent, HasKeyword, Copies, Run, After;
    var r := Retoken(prevWord, t, skip, names);
    FrontKept(prevWord, t, skip, names, "as");
    RunKept(Word, prevWord, t, skip, names);
    if HasKeyword(t, "as") {
      AsNameKept(prevWord, t, skip, names);
    }
  }

  lemma AsNameKept(prevWord: bool, t: string, skip: nat, names: seq<string>)
    requires HasKeyword(t, "as")
    ensures var r := Retoken(prevWord, t, skip, names);
            && |r| >= 2 && |t| >= 2
            && SpacedIdent(r[2..]) == SpacedIdent(t[2..])
            && (SpacedIdent(t[2..]) > 0 ==>
                  var i := 2 + SpacedIdent(t[2..]);
                  Run(Word, r[i..]) == Run(Word, t[i..]))
  {
    QuietAs(t);
    hide MatchTable, IsIdent, Retoken, IsWord, IdentAt, SpacedIdent, HasKeyword, Copies, Run, After;
    QuietDrop(prevWord, t, skip, names, 2);
    Rest(prevWord, t, skip, names, 2);
    SpacedIdentKept(After(prevWord, t, 2), t[2..], Minus(skip, 2), names);
    var r := Retoken(prevWord, t, skip, names);
    if SpacedIdent(t[2..]) > 0 {
      NameRunKept(After(prevWord, t, 2), t[2..], Minus(skip, 2), names);
      var i := 2 + SpacedIdent(t[2..]);
      assert t[2..][i - 2..] == t[i..];
      assert r[2..][i - 2..] == r[i..];
    }
  }

  lemma NameRunKept(prevWord: bool, t: string, skip: nat, names: seq<string>)
    requires SpacedIdent(t) > 0
    ensures var r := Retoken(prevWord, t, skip, names);
            && SpacedIdent(t) <= |r|
            && Run(Word, r[SpacedIdent(t)..]) == Run(Word, t[SpacedIdent(t)..])
  {
    var w := SpacedIdent(t);
    assert w == Run(Space, t);
    hide MatchTable, IsIdent, Retoken, IsWord, IdentAt, SpacedIdent, Copies, Run, After;
    DropRun(Space, prevWord, t, skip, names, w);
    Rest(prevWord, t, skip, names, w);
    RunKept(Word, After(prevWord, t, w), t[w..], Minus(skip, w), names);
  }

  lemma AliasKept(prevWord: bool, t: string, skip: nat, names: seq<string>)
    ensures MatchAlias(Retoken(prevWord, t, skip, names)) == MatchAlias(t)
  {
    hide MatchTable, IsIdent, Retoken, IsWord, AliasName, Copies, Run, After;
    var w := Run(Space, t);
    RunKept(Space, prevWord, t, skip, names);
    DropRun(Space, prevWord, t, skip, names, w);
    Rest(prevWord, t, skip, names, w);
    AliasNameKept(After(prevWord, t, w), t[w..], Minus(skip, w), names);
  }

  lemma KeywordChars(t: string)
    requires TableKeyword(t)
    ensures |t| >= 4 && forall i :: 0 <= i < 4 ==> IsLetter(t[i])
  {
    var w := if HasKeyword(t, "from") then "from" else "join";
    forall i | 0 <= i < 4
      ensures IsLetter(t[i])
    {
      assert LowerChar(t[i]) == w[i];
    }
  }

  /** A position without a table match has none in the rewritten text either. */
  lemma MissKept(prevWord: bool, t: string, names: seq<string>)
    requires MatchTable(prevWord, t).None?
    ensures MatchTable(prevWord, Retoken(prevWord, t, 0, names)).None?
  {
    hide IsIdent, Retoken, SpacedIdent, HasKeyword, Run, MatchAlias;
    var r := Retoken(prevWord, t, 0, names);
    FrontKept(prevWord, t, 0, names, "from");
    FrontKept(prevWord, t, 0, names, "join");
    if !prevWord && TableKeyword(t) {
      MissKeptAfterKeyword(prevWord, t, names);
    }
  }

  lemma MissKeptAfterKeyword(prevWord: bool, t: string, names: seq<string>)
    requires MatchTable(prevWord, t).None? && TableKeyword(t)
    ensures |t| >= 4 && |Retoken(prevWord, t, 0, names)| >= 4
    ensures SpacedIdent(Retoken(prevWord, t, 0, names)[4..]) == SpacedIdent(t[4..])
  {
    KeywordChars(t);
    assert t[0..] == t;
    forall i | 0 <= i < 4
      ensures MatchTable(After(prevWord, t, i), t[i..]).None?
    {
      assert i > 0 ==> IsWord(t[i - 1]);
    }
    hide MatchTable, IsIdent, Retoken, SpacedIdent, HasKeyword, TableKeyword, Copies;
    Drop(prevWord, t, 0, names, 4);
    Rest(prevWord, t, 0, names, 4);
    SpacedIdentKept(After(prevWord, t, 4), t[4..], 0, names);
  }

  lemma SpacedIdentOf(blanks: string, name: string, tail: string)
    requires blanks != "" && (forall i :: 0 <= i < |blanks| ==> IsSpace(blanks[i])) && IsIdent(name)
    ensures SpacedIdent(blanks + name + tail) == |blanks|
  {
    var u := blanks + name + tail;
    assert u[|blanks|] == name[0];
    RunIs(Space, u, |blanks|);
  }

  lemma NameRunOf(name: string, tail: string)
    requires IsIdent(name) && AtBoundary(tail)
    ensures Run(Word, name + tail) == |name|
  {
    RunIs(Word, name + tail, |name|);
  }

  lemma MatchShape(prevWord: bool, t: string, m: TableMatch)
    requires MatchTable(prevWord, t) == Some(m)
    ensures !prevWord && TableKeyword(t)
    ensures m.nameStart == 4 + SpacedIdent(t[4..])
    ensures forall i :: 4 <= i < m.nameStart ==> IsSpace(t[i])
    ensures AtBoundary(t[m.nameEnd..])
    ensures MatchAlias(t[m.nameEnd..]) == None ==> m.alias == None && m.end == m.nameEnd
    ensures MatchAlias(t[m.nameEnd..]).Some? ==>
              && m.end == m.nameEnd + MatchAlias(t[m.nameEnd..]).value.end
              && m.alias ==
                    Some(t[m.nameEnd..][MatchAlias(t[m.nameEnd..]).value.start..MatchAlias(t[m.nameEnd..]).value.end])
  {
    hide MatchAlias, TableKeyword, IsIdent, SpacedIdent, Run, IsWord, IsSpace;
    assert forall i :: 4 <= i < m.nameStart ==> t[i] == t[4..][i - 4];
    var u := t[m.nameStart..];
    assert m.nameEnd < |t| ==> t[m.nameEnd] == u[Run(Word, u)] && In(u[Run(Word, u)], Word) == IsWord(t[m.nameEnd]);
  }

  /** A table match is found again, with the new name and the same alias. */
  lemma HitKept(prevWord: bool, t: string, m: TableMatch, name: string, names: seq<string>, r: string)
    requires MatchTable(prevWord, t) == Some(m)
    requires IsIdent(name)
    requires r == t[..m.nameStart] + name + Retoken(true, t[m.nameEnd..], m.end - m.nameEnd, names)
    ensures MatchTable(prevWord, r)
         == Some(TableMatch(m.nameStart, m.nameStart + |name|, m.alias, m.nameStart + |name| + (m.end - m.nameEnd)))
  {
    hide IsIdent, Retoken, Run, MatchAlias, SpacedIdent, MatchTable, AtBoundary, IsSpace, TableKeyword;
    MatchShape(prevWord, t, m);
    var tail := Retoken(true, t[m.nameEnd..], m.end - m.nameEnd, names);
    AliasKept(true, t[m.nameEnd..], m.end - m.nameEnd, names);
    SkipCopied(true, t[m.nameEnd..], m.end - m.nameEnd, names);
    HitFront(t, m.nameStart, name, tail, r);
    HitAgain(prevWord, t, m, |name|, tail, r);
  }

  lemma SkipCopied(prevWord: bool, t: string, skip: nat, names: seq<string>)
    requires skip <= |t|
    ensures var r := Retoken(prevWord, t, skip, names);
            && skip <= |r| && r[..skip] == t[..skip] && (AtBoundary(t) ==> AtBoundary(r))
  {
    hide MatchTable, Retoken, IsWord, Copies, After;
    Drop(prevWord, t, skip, names, skip);
    Rest(prevWord, t, skip, names, skip);
    FrontKept(prevWord, t, skip, names, "");
  }

  lemma HitAgain(prevWord: bool, t: string, m: TableMatch, n: nat, tail: string, r: string)
    requires MatchTable(prevWord, t) == Some(m)
    requires m.nameStart + n <= |r| && r[m.nameStart + n..] == tail
    requires TableKeyword(r) && SpacedIdent(r[4..]) == m.nameStart - 4 && Run(Word, r[m.nameStart..]) == n
    requires MatchAlias(tail) == MatchAlias(t[m.nameEnd..])
    requires m.end - m.nameEnd <= |tail| && tail[..m.end - m.nameEnd] == t[m.nameEnd..][..m.end - m.nameEnd]
    ensures MatchTable(prevWord, r)
         == Some(TableMatch(m.nameStart, m.nameStart + n, m.alias, m.nameStart + n + (m.end - m.nameEnd)))
  {
    hide MatchTable, TableKeyword, SpacedIdent, MatchAlias, IsIdent, Run, AtBoundary, IsSpace;
    MatchShape(prevWord, t, m);
    MatchIs(prevWord, r, m.nameStart, n);
    var a := MatchAlias(tail);
    if a.Some? {
      AliasSlice(tail, t[m.nameEnd..], m.end - m.nameEnd, a.value);
    }
  }

  lemma HitFront(t: string, nameStart: nat, name: string, tail: string, r: string)
    requires 5 <= nameStart <= |t| && TableKeyword(t)
    requires forall i :: 4 <= i < nameStart ==> IsSpace(t[i])
    requires IsIdent(name) && AtBoundary(tail)
    requires r == t[..nameStart] + name + tail
    ensures TableKeyword(r)
    ensures SpacedIdent(r[4..]) == nameStart - 4
    ensures Run(Word, r[nameStart..]) == |name|
    ensures r[nameStart + |name|..] == tail
  {
    KeywordOfPrefix(t, nameStart, name + tail);
    assert r == t[..nameStart] + (name + tail);
    var blanks := t[4..nameStart];
    SpacedIdentOf(blanks, name, tail);
    NameRunOf(name, tail);
    hide TableKeyword, SpacedIdent, Run, IsIdent, AtBoundary;
    assert r[4..] == blanks + name + tail;
    assert r[nameStart..] == name + tail;
  }

  lemma MatchIs(prevWord: bool, r: string, nameStart: nat, n: nat)
    requires !prevWord && |r| >= 4 && TableKeyword(r)
    requires nameStart == 4 + SpacedIdent(r[4..]) && nameStart > 4
    requires nameStart <= |r| && Run(Word, r[nameStart..]) == n
    ensures var a := MatchAlias(r[nameStart + n..]);
            MatchTable(prevWord, r) == Some(
              match a
              case None => TableMatch(nameStart, nameStart + n, None, nameStart + n)
              case Some(b) =>
                TableMatch(nameStart, nameStart + n, Some(r[nameStart + n..][b.start..b.end]), nameStart + n + b.end))
  {
    hide TableKeyword, SpacedIdent, MatchAlias, IsIdent;
  }

  lemma AliasSlice(a: string, b: string, n: nat, m: AliasMatch)
    requires n <= |a| && n <= |b| && a[..n] == b[..n]
    requires m.start <= m.end <= n
    ensures a[m.start..m.end] == b[m.start..m.end]
  {
    assert a[..n][m.start..m.end] == a[m.start..m.end];
    assert b[..n][m.start..m.end] == b[m.start..m.end];
  }

  lemma KeywordOfPrefix(t: string, n: nat, rest: string)
    requires 4 <= n <= |t| && TableKeyword(t)
    ensures TableKeyword(t[..n] + rest)
  {
    var r := t[..n] + rest;
    assert forall i :: 0 <= i < 4 ==> r[i] == t[i];
  }

  /** `us` are the tables `ts` with the names replaced, each moved by `delta` and by the growth before it. */
  ghost predicate Relocated(ts: seq<ParsedTable>, us: seq<ParsedTable>, names: seq<string>, delta: int)
    decreases |ts|
  {
    && |us| == |names| == |ts|
    && (ts != [] ==>
          && us[0].tableName == names[0]
          && us[0].alias == ts[0].alias
          && us[0].tokenStart == ts[0].tokenStart + delta
          && us[0].tokenEnd == us[0].tokenStart + |names[0]|
          && Relocated(ts[1..], us[1..], names[1..], delta + |names[0]| - (ts[0].tokenEnd - ts[0].tokenStart)))
  }

  lemma ScanCopied(prevWord: bool, t: string, skip: nat, names: seq<string>, off: nat)
    requires t != "" && (skip == 0 ==> MatchTable(prevWord, t).None?)
    ensures ScanTables(prevWord, Retoken(prevWord, t, skip, names), skip, off)
         == ScanTables(IsWord(t[0]), Retoken(IsWord(t[0]), t[1..], Minus(skip, 1), names), Minus(skip, 1), off + 1)
    ensures ScanTables(prevWord, t, skip, off) == ScanTables(IsWord(t[0]), t[1..], Minus(skip, 1), off + 1)
  {
    if skip == 0 {
      MissKept(prevWord, t, names);
    }
    hide MatchTable, IsWord;
    var rest := Retoken(IsWord(t[0]), t[1..], Minus(skip, 1), names);
    assert Retoken(prevWord, t, skip, names) == [t[0]] + rest;
    assert ([t[0]] + rest)[1..] == rest;
  }

  lemma ScanUnfold(prevWord: bool, t: string, m: TableMatch, off: nat)
    requires MatchTable(prevWord, t) == Some(m)
    ensures ScanTables(prevWord, t, 0, off)
         == [ParsedTable(t[m.nameStart..m.nameEnd], m.alias, off + m.nameStart, off + m.nameEnd)]
            + ScanTables(true, t[m.nameEnd..], m.end - m.nameEnd, off + m.nameEnd)
  {
    hide MatchTable, IsIdent;
  }

  lemma RetokenUnfold(prevWord: bool, t: string, m: TableMatch, names: seq<string>)
    requires MatchTable(prevWord, t) == Some(m) && names != []
    ensures var r := Retoken(prevWord, t, 0, names);
            var tail := Retoken(true, t[m.nameEnd..], m.end - m.nameEnd, names[1..]);
            var n := m.nameStart + |names[0]|;
            && r == t[..m.nameStart] + names[0] + tail
            && n <= |r|
            && r[m.nameStart..n] == names[0]
            && r[n..] == tail
  {
    hide MatchTable, IsIdent;
    RetokenHit(prevWord, t, m, names);
    hide Retoken;
    var tail := Retoken(true, t[m.nameEnd..], m.end - m.nameEnd, names[1..]);
    assert (t[..m.nameStart] + names[0] + tail)[m.nameStart..m.nameStart + |names[0]|] == names[0];
  }

  lemma RetokenHit(prevWord: bool, t: string, m: TableMatch, names: seq<string>)
    requires MatchTable(prevWord, t) == Some(m) && names != []
    ensures Retoken(prevWord, t, 0, names)
         == t[..m.nameStart] + names[0] + Retoken(true, t[m.nameEnd..], m.end - m.nameEnd, names[1..])
  {
    hide MatchTable, IsIdent;
  }

  lemma ScanHit(prevWord: bool, t: string, m: TableMatch, names: seq<string>, off: nat)
    requires MatchTable(prevWord, t) == Some(m) && names != [] && IsIdent(names[0])
    ensures ScanTables(prevWord, Retoken(prevWord, t, 0, names), 0, off)
         == [ParsedTable(names[0], m.alias, off + m.nameStart, off + m.nameStart + |names[0]|)]
            + ScanTables(true, Retoken(true, t[m.nameEnd..], m.end - m.nameEnd, names[1..]),
                         m.end - m.nameEnd, off + m.nameStart + |names[0]|)
  {
    hide MatchTable, IsWord, IsIdent, Retoken, ScanTables;
    RetokenUnfold(prevWord, t, m, names);
    var r := Retoken(prevWord, t, 0, names);
    HitKept(prevWord, t, m, names[0], names[1..], r);
    var n := m.nameStart + |names[0]|;
    ScanUnfold(prevWord, r, TableMatch(m.nameStart, n, m.alias, n + (m.end - m.nameEnd)), off);
  }

  lemma RelocatedCons(t: ParsedTable, ts: seq<ParsedTable>, u: ParsedTable, us: seq<ParsedTable>, names: seq<string>,
                      delta: int)
    requires names != [] && u.tableName == names[0] && u.alias == t.alias
    requires u.tokenStart == t.tokenStart + delta && u.tokenEnd == u.tokenStart + |names[0]|
    requires Relocated(ts, us, names[1..], delta + |names[0]| - (t.tokenEnd - t.tokenStart))
    ensures Relocated([t] + ts, [u] + us, names, delta)
  {
    assert ([t] + ts)[1..] == ts && ([u] + us)[1..] == us;
  }

  lemma ScanKeptHit(prevWord: bool, t: string, m: TableMatch, names: seq<string>, off: nat, off': nat)
    requires MatchTable(prevWord, t) == Some(m) && names != [] && IsIdent(names[0])
    requires Relocated(ScanTables(true, t[m.nameEnd..], m.end - m.nameEnd, off + m.nameEnd),
                       ScanTables(true, Retoken(true, t[m.nameEnd..], m.end - m.nameEnd, names[1..]),
                                  m.end - m.nameEnd, off' + m.nameStart + |names[0]|),
                       names[1..], off' + m.nameStart + |names[0]| - (off + m.nameEnd))
    ensures Relocated(ScanTables(prevWord, t, 0, off),
                      ScanTables(prevWord, Retoken(prevWord, t, 0, names), 0, off'),
                      names, off' - off)
  {
    hide MatchTable, IsWord, IsIdent, Retoken, ScanTables, Relocated;
    ScanUnfold(prevWord, t, m, off);
    ScanHit(prevWord, t, m, names, off');
    var next := off' + m.nameStart + |names[0]|;
    RelocatedCons(
      ParsedTable(t[m.nameStart..m.nameEnd], m.alias, off + m.nameStart, off + m.nameEnd),
      ScanTables(true, t[m.nameEnd..], m.end - m.nameEnd, off + m.nameEnd),
      ParsedTable(names[0], m.alias, off' + m.nameStart, next),
      ScanTables(true, Retoken(true, t[m.nameEnd..], m.end - m.nameEnd, names[1..]), m.end - m.nameEnd, next),
      names, off' - off);
  }

  lemma NothingScanned(prevWord: bool, skip: nat, names: seq<string>, off: nat, off': nat)
    requires |names| == |ScanTables(prevWord, "", skip, off)|
    ensures Relocated(ScanTables(prevWord, "", skip, off),
          ScanTables(prevWord, Retoken(prevWord, "", skip, names), skip, off'), names, off' - off)
  {
  }

  lemma {:induction false} ScanKept(prevWord: bool, t: string, skip: nat, names: seq<string>, off: nat, off': nat)
    requires AllIdents(names) && |names| == |ScanTables(prevWord, t, skip, off)|
    ensures Relocated(ScanTables(prevWord, t, skip, off),
                      ScanTables(prevWord, Retoken(prevWord, t, skip, names), skip, off'),
                      names, off' - off)
    decreases |t|
  {
    hide MatchTable, IsWord, IsIdent, Retoken, ScanTables, Relocated;
    if t == "" {
      NothingScanned(prevWord, skip, names, off, off');
    } else if skip > 0 || MatchTable(prevWord, t).None? {
      ScanCopied(prevWord, t, skip, names, off);
      ScanCopied(prevWord, t, skip, names, off');
      ScanKept(IsWord(t[0]), t[1..], Minus(skip, 1), names, off + 1, off' + 1);
    } else {
      var m := MatchTable(prevWord, t).value;
      ScanUnfold(prevWord, t, m, off);
      ScanKept(true, t[m.nameEnd..], m.end - m.nameEnd, names[1..], off + m.nameEnd, off' + m.nameStart + |names[0]|);
      ScanKeptHit(prevWord, t, m, names, off, off');
    }
  }

  // ------------------------------------------------------------ the LIMIT clause

  lemma BoundaryKept(prevWord: bool, t: string, skip: nat, names: seq<string>)
    ensures AtBoundary(Retoken(prevWord, t, skip, names)) == AtBoundary(t)
  {
    hide Retoken, IsWord;
    FrontKept(prevWord, t, skip, names, "");
  }

  lemma RunDropped(k: CharClass, prevWord: bool, t: string, skip: nat, names: seq<string>)
    requires k == Space || k == Digit
    ensures var r := Retoken(prevWord, t, skip, names);
            var d := Run(k, t);
            && Run(k, r) == d
            && r[..d] == t[..d]
            && r[d..] == Retoken(After(prevWord, t, d), t[d..], Minus(skip, d), names)
  {
    hide Retoken, IsWord, Copies, Run, After;
    RunKept(k, prevWord, t, skip, names);
    DropRun(k, prevWord, t, skip, names, Run(k, t));
    Rest(prevWord, t, skip, names, Run(k, t));
  }

  lemma BoundedDigitsKept(prevWord: bool, t: string, skip: nat, names: seq<string>)
    ensures BoundedDigits(Retoken(prevWord, t, skip, names)) == BoundedDigits(t)
  {
    hide Retoken, IsWord, Copies, Run, After, AtBoundary;
    var w := Run(Space, t);
    RunDropped(Space, prevWord, t, skip, names);
    var p, u, s := After(prevWord, t, w), t[w..], Minus(skip, w);
    RunDropped(Digit, p, u, s, names);
    var d := Run(Digit, u);
    BoundaryKept(After(p, u, d), u[d..], Minus(s, d), names);
  }

  lemma LimitTailKept(prevWord: bool, t: string, skip: nat, names: seq<string>)
    ensures MatchLimitTail(Retoken(prevWord, t, skip, names)) == MatchLimitTail(t)
  {
    hide Retoken, IsWord, Copies, Run, After, BoundedDigits;
    var w := Run(Space, t);
    RunDropped(Space, prevWord, t, skip, names);
    var p, u, s := After(prevWord, t, w), t[w..], Minus(skip, w);
    FrontKept(p, u, s, names, "");
    if u != "" && u[0] == ',' {
      QuietDrop(p, u, s, names, 1);
      Rest(p, u, s, names, 1);
      BoundedDigitsKept(After(p, u, 1), u[1..], Minus(s, 1), names);
    }
  }

  lemma LimitNumbersKept(prevWord: bool, t: string, skip: nat, names: seq<string>)
    ensures MatchLimitNumbers(Retoken(prevWord, t, skip, names)) == MatchLimitNumbers(t)
  {
    hide Retoken, IsWord, Copies, Run, After, MatchLimitTail, AtBoundary;
    RunDropped(Digit, prevWord, t, skip, names);
    var d := Run(Digit, t);
    LimitTailKept(After(prevWord, t, d), t[d..], Minus(skip, d), names);
    BoundaryKept(After(prevWord, t, d), t[d..], Minus(skip, d), names);
  }

  lemma NumbersAfterKept(prevWord: bool, t: string, skip: nat, names: seq<string>)
    ensures NumbersAfter(Retoken(prevWord, t, skip, names)) == NumbersAfter(t)
  {
    hide Retoken, IsWord, Copies, Run, After, MatchLimitNumbers;
    RunDropped(Space, prevWord, t, skip, names);
    var w := Run(Space, t);
    LimitNumbersKept(After(prevWord, t, w), t[w..], Minus(skip, w), names);
  }

  lemma LimitChars(t: string)
    requires HasKeyword(t, "limit")
    ensures |t| >= 5
    ensures LowerChar(t[0]) == 'l'
    ensures forall i :: 0 <= i < 5 ==> LowerChar(t[i]) != 'f' && LowerChar(t[i]) != 'j'
  {
    var w := "limit";
    assert w[0] == 'l';
    forall i | 0 <= i < 5
      ensures LowerChar(t[i]) != 'f' && LowerChar(t[i]) != 'j'
    {
      assert LowerChar(t[i]) == w[i];
    }
  }

  /** A LIMIT match at the front of a text is kept. */
  lemma LimitKeptHere(prevWord: bool, t: string, skip: nat, names: seq<string>)
    ensures MatchLimit(prevWord, Retoken(prevWord, t, skip, names)) == MatchLimit(prevWord, t)
  {
    hide Retoken, IsWord, Copies, Run, After, NumbersAfter, HasKeyword;
    FrontKept(prevWord, t, skip, names, "limit");
    if HasKeyword(t, "limit") {
      LimitChars(t);
      QuietDrop(prevWord, t, skip, names, 5);
      Rest(prevWord, t, skip, names, 5);
      NumbersAfterKept(After(prevWord, t, 5), t[5..], Minus(skip, 5), names);
    }
  }

  lemma FindLimitTail(prevWord: bool, t: string)
    requires t != "" && MatchLimit(prevWord, t).None?
    ensures FindLimit(prevWord, t) == FindLimit(IsWord(t[0]), t[1..])
  {
    hide MatchLimit, IsWord;
  }

  /** No LIMIT match starts in the first `n` characters of `t`. */
  ghost predicate NoLimitUpTo(prevWord: bool, t: string, n: nat)
    requires n <= |t|
  {
    forall i :: 0 <= i < n ==> MatchLimit(After(prevWord, t, i), t[i..]).None?
  }

  lemma {:induction false} PassBy(prevWord: bool, t: string, n: nat)
    requires n <= |t| && NoLimitUpTo(prevWord, t, n)
    ensures FindLimit(prevWord, t) == FindLimit(After(prevWord, t, n), t[n..])
    decreases n
  {
    hide MatchLimit, FindLimit, IsWord;
    assert t[0..] == t;
    if n > 0 {
      assert MatchLimit(After(prevWord, t, 0), t[0..]).None?;
      forall i | 0 <= i < n - 1
        ensures MatchLimit(After(IsWord(t[0]), t[1..], i), t[1..][i..]).None?
      {
        assert t[1..][i..] == t[i + 1..];
        assert MatchLimit(After(prevWord, t, i + 1), t[i + 1..]).None?;
      }
      FindLimitTail(prevWord, t);
      PassBy(IsWord(t[0]), t[1..], n - 1);
      assert t[1..][n - 1..] == t[n..];
    }
  }

  lemma NotLimitHere(prevWord: bool, t: string)
    requires prevWord || (t != "" && LowerChar(t[0]) != 'l')
    ensures MatchLimit(prevWord, t).None?
  {
    if HasKeyword(t, "limit") {
      LimitChars(t);
    }
  }

  lemma LimitNameForced(name: string, tail: string)
    requires IsIdent(name) && AtBoundary(tail)
    requires HasKeyword(name + tail, "limit") && Run(Space, (name + tail)[5..]) > 0
    ensures Lower(name) == "limit"
  {
    var t := name + tail;
    var w := "limit";
    forall i | 0 <= i < 5
      ensures IsLetter(t[i])
    {
      assert LowerChar(t[i]) == w[i];
    }
    assert IsSpace(t[5..][0]);
    assert |name| < |t| ==> t[|name|] == tail[0];
    assert forall i :: 0 <= i < |name| ==> t[i] == name[i];
    assert |name| == 5;
    assert forall i :: 0 <= i < 5 ==> Lower(name)[i] == w[i];
  }

  lemma LimitNameMatches(name: string, tail: string)
    requires Lower(name) == "limit"
    ensures HasKeyword(name + tail, "limit") && (name + tail)[5..] == tail
  {
    var w := "limit";
    assert forall i :: 0 <= i < 5 ==> (name + tail)[i] == name[i] && Lower(name)[i] == w[i];
  }

  /** The LIMIT match an identifier starts, if it is the word LIMIT and the text after it is the numbers. */
  function NamedLimit(name: string, tail: string): Option<LimitMatch> {
    if Lower(name) == "limit" then NumbersAfter(tail) else None
  }

  lemma LimitAtName(name: string, tail: string)
    requires IsIdent(name) && AtBoundary(tail)
    ensures MatchLimit(false, name + tail) == NamedLimit(name, tail)
  {
    hide IsIdent, MatchLimitNumbers, Run, Lower, AtBoundary;
    if Lower(name) == "limit" {
      LimitNameMatches(name, tail);
    } else if HasKeyword(name + tail, "limit") && Run(Space, (name + tail)[5..]) > 0 {
      LimitNameForced(name, tail);
    }
  }

  /** No LIMIT match starts in the keyword, in the blanks, or inside the name. */
  lemma NoLimitAt(t: string, nameStart: nat, nameEnd: nat, i: nat)
    requires 5 <= nameStart < nameEnd <= |t| && TableKeyword(t) && i < nameEnd && i != nameStart
    requires forall i :: 4 <= i < nameStart ==> IsSpace(t[i])
    requires IsIdent(t[nameStart..nameEnd])
    ensures MatchLimit(After(false, t, i), t[i..]).None?
  {
    var name := t[nameStart..nameEnd];
    KeywordChars(t);
    KeywordNotLimit(t);
    IdentWords(name);
    hide MatchLimit, TableKeyword, IsIdent;
    assert nameStart < i ==> t[i - 1] == name[i - 1 - nameStart];
    assert t[i..][0] == t[i];
    NotLimitHere(After(false, t, i), t[i..]);
  }

  /** After the keyword and the blanks of a table match, a LIMIT clause can only begin with the name itself. */
  lemma LimitInHead(t: string, nameStart: nat, nameEnd: nat)
    requires 5 <= nameStart < nameEnd <= |t| && TableKeyword(t)
    requires forall i :: 4 <= i < nameStart ==> IsSpace(t[i])
    requires IsIdent(t[nameStart..nameEnd]) && AtBoundary(t[nameEnd..])
    ensures var here := NamedLimit(t[nameStart..nameEnd], t[nameEnd..]);
            FindLimit(false, t) == if here.Some? then here else FindLimit(true, t[nameEnd..])
  {
    hide MatchLimit, FindLimit, TableKeyword, AtBoundary, IsIdent, IsSpace, NamedLimit;
    forall i | 0 <= i < nameEnd && i != nameStart
      ensures MatchLimit(After(false, t, i), t[i..]).None?
    {
      NoLimitAt(t, nameStart, nameEnd, i);
    }
    var name := t[nameStart..nameEnd];
    assert t[nameStart..] == name + t[nameEnd..];
    LimitAtName(name, t[nameEnd..]);
    BlankBefore(t, nameStart);
    EndsInWord(t, nameStart, nameEnd);
    if MatchLimit(false, t[nameStart..]).Some? {
      PassBy(false, t, nameStart);
      FindLimitHere(false, t[nameStart..]);
    } else {
      PassBy(false, t, nameEnd);
    }
  }

  lemma BlankBefore(t: string, nameStart: nat)
    requires 5 <= nameStart <= |t| && forall i :: 4 <= i < nameStart ==> IsSpace(t[i])
    ensures !After(false, t, nameStart)
  {
  }

  lemma FindLimitHere(prevWord: bool, t: string)
    requires t != "" && MatchLimit(prevWord, t).Some?
    ensures FindLimit(prevWord, t) == MatchLimit(prevWord, t)
  {
    hide MatchLimit;
  }

  lemma EndsInWord(t: string, nameStart: nat, nameEnd: nat)
    requires nameStart < nameEnd <= |t| && IsIdent(t[nameStart..nameEnd])
    ensures IsWord(t[nameEnd - 1])
  {
    assert t[nameEnd - 1] == t[nameStart..nameEnd][nameEnd - 1 - nameStart];
  }

  lemma IdentWords(name: string)
    requires IsIdent(name)
    ensures name != "" && forall i :: 0 <= i < |name| ==> IsWord(name[i])
  {
  }

  lemma KeywordNotLimit(t: string)
    requires TableKeyword(t)
    ensures LowerChar(t[0]) != 'l'
  {
    var w := if HasKeyword(t, "from") then "from" else "join";
    assert LowerChar(t[0]) == w[0];
  }

  /**
   The LIMIT clause of the statement when its table tokens are read as `names`: the first match
   that starts outside the tokens, or at a token whose name is LIMIT and which numbers follow.
   It is read off the statement before any rewriting.
   */
  ghost function LimitUnder(prevWord: bool, t: string, skip: nat, names: seq<string>): Option<LimitMatch>
    decreases |t|
  {
    if t == "" then None
    else if skip == 0 && MatchTable(prevWord, t).Some? && names != [] then
      var m := MatchTable(prevWord, t).value;
      var here := NamedLimit(names[0], t[m.nameEnd..]);
      if here.Some? then here else LimitUnder(true, t[m.nameEnd..], m.end - m.nameEnd, names[1..])
    else if MatchLimit(prevWord, t).Some? then MatchLimit(prevWord, t)
    else LimitUnder(IsWord(t[0]), t[1..], Minus(skip, 1), names)
  }

  lemma LimitAtHit(prevWord: bool, t: string, m: TableMatch, names: seq<string>)
    requires MatchTable(prevWord, t) == Some(m) && names != [] && IsIdent(names[0])
    ensures var here := NamedLimit(names[0], t[m.nameEnd..]);
            FindLimit(prevWord, Retoken(prevWord, t, 0, names))
            == if here.Some? then here
                else FindLimit(true, Retoken(true, t[m.nameEnd..], m.end - m.nameEnd, names[1..]))
  {
    hide MatchTable, IsWord, Retoken, FindLimit, TableKeyword, AtBoundary, MatchAlias, IsIdent, Lower, IsSpace,
         SpacedIdent, NumbersAfter;
    MatchShape(prevWord, t, m);
    RetokenUnfold(prevWord, t, m, names);
    var r := Retoken(prevWord, t, 0, names);
    var tail := Retoken(true, t[m.nameEnd..], m.end - m.nameEnd, names[1..]);
    SkipCopied(true, t[m.nameEnd..], m.end - m.nameEnd, names[1..]);
    HitFront(t, m.nameStart, names[0], tail, r);
    BlanksOfPrefix(t, m.nameStart, names[0], tail, r);
    IdentWords(names[0]);
    LimitInHead(r, m.nameStart, m.nameStart + |names[0]|);
    NumbersAfterKept(true, t[m.nameEnd..], m.end - m.nameEnd, names[1..]);
  }

  lemma BlanksOfPrefix(t: string, n: nat, name: string, tail: string, r: string)
    requires n <= |t| && r == t[..n] + name + tail
    requires forall i :: 4 <= i < n ==> IsSpace(t[i])
    ensures n <= |r| && forall i :: 4 <= i < n ==> IsSpace(r[i])
  {
    assert forall i :: 0 <= i < n ==> r[i] == t[i];
  }

  lemma LimitUnderCopied(prevWord: bool, t: string, skip: nat, names: seq<string>)
    requires t != "" && (skip == 0 ==> MatchTable(prevWord, t).None?)
    ensures LimitUnder(prevWord, t, skip, names)
         == if MatchLimit(prevWord, t).Some? then MatchLimit(prevWord, t)
             else LimitUnder(IsWord(t[0]), t[1..], Minus(skip, 1), names)
  {
    hide MatchTable, IsWord, MatchLimit;
  }

  lemma LimitUnderHit(prevWord: bool, t: string, m: TableMatch, names: seq<string>)
    requires MatchTable(prevWord, t) == Some(m) && names != []
    ensures var here := NamedLimit(names[0], t[m.nameEnd..]);
            LimitUnder(prevWord, t, 0, names) == if here.Some? then here
                else LimitUnder(true, t[m.nameEnd..], m.end - m.nameEnd, names[1..])
  {
    hide MatchTable, IsWord, MatchLimit, IsIdent, NamedLimit;
  }

  lemma FindLimitStep(prevWord: bool, t: string)
    requires t != ""
    ensures FindLimit(prevWord, t) == if MatchLimit(prevWord, t).Some? then MatchLimit(prevWord, t)
          else FindLimit(IsWord(t[0]), t[1..])
  {
    hide MatchLimit, IsWord;
  }

  /** The limit found in the rewritten text is the one read off the original under the new names. */
  lemma {:induction false} LimitOfRetoken(prevWord: bool, t: string, skip: nat, names: seq<string>, off: nat)
    requires AllIdents(names) && |names| == |ScanTables(prevWord, t, skip, off)|
    ensures FindLimit(prevWord, Retoken(prevWord, t, skip, names)) == LimitUnder(prevWord, t, skip, names)
    decreases |t|
  {
    hide MatchTable, IsWord, IsIdent, MatchLimit, Retoken, FindLimit, LimitUnder, ScanTables, NamedLimit;
    if t == "" {
      LimitOfNothing(prevWord, skip, names);
    } else if skip > 0 || MatchTable(prevWord, t).None? {
      ScanCopied(prevWord, t, skip, names, off);
      LimitKeptHere(prevWord, t, skip, names);
      LimitUnderCopied(prevWord, t, skip, names);
      StepTail(prevWord, t, skip, names);
      FindLimitStep(prevWord, Retoken(prevWord, t, skip, names));
      LimitOfRetoken(IsWord(t[0]), t[1..], Minus(skip, 1), names, off + 1);
    } else {
      var m := MatchTable(prevWord, t).value;
      ScanUnfold(prevWord, t, m, off);
      LimitAtHit(prevWord, t, m, names);
      LimitUnderHit(prevWord, t, m, names);
      LimitOfRetoken(true, t[m.nameEnd..], m.end - m.nameEnd, names[1..], off + m.nameEnd);
    }
  }

  lemma LimitOfNothing(prevWord: bool, skip: nat, names: seq<string>)
    ensures Retoken(prevWord, "", skip, names) == ""
    ensures FindLimit(prevWord, "") == LimitUnder(prevWord, "", skip, names) == None
  {
  }

  // ------------------------------------------------------------ the original names

  function NamesOf(ts: seq<ParsedTable>): (names: seq<string>)
    ensures |names| == |ts| && forall i :: 0 <= i < |ts| ==> names[i] == ts[i].tableName
  {
    seq(|ts|, i requires 0 <= i < |ts| => ts[i].tableName)
  }

  /** Replacing every table token by itself changes nothing. */
  lemma {:induction false} RetokenSelf(prevWord: bool, t: string, skip: nat, off: nat)
    ensures var names := NamesOf(ScanTables(prevWord, t, skip, off));
            AllIdents(names) && Retoken(prevWord, t, skip, names) == t
    decreases |t|
  {
    hide MatchTable, IsWord, IsIdent, Retoken, ScanTables;
    if t == "" {
      NothingSelf(prevWord, skip, off);
    } else if skip > 0 || MatchTable(prevWord, t).None? {
      ScanCopied(prevWord, t, skip, [], off);
      RetokenSelf(IsWord(t[0]), t[1..], Minus(skip, 1), off + 1);
      CopyStep(prevWord, t, skip, NamesOf(ScanTables(prevWord, t, skip, off)));
    } else {
      var m := MatchTable(prevWord, t).value;
      ScanUnfold(prevWord, t, m, off);
      RetokenSelf(true, t[m.nameEnd..], m.end - m.nameEnd, off + m.nameEnd);
      RetokenSelfHit(prevWord, t, m, off);
    }
  }

  lemma NamesCons(table: ParsedTable, ts: seq<ParsedTable>)
    ensures NamesOf([table] + ts) == [table.tableName] + NamesOf(ts)
  {
  }

  lemma RetokenSelfHit(prevWord: bool, t: string, m: TableMatch, off: nat)
    requires MatchTable(prevWord, t) == Some(m)
    requires var names := NamesOf(ScanTables(true, t[m.nameEnd..], m.end - m.nameEnd, off + m.nameEnd));
             AllIdents(names) && Retoken(true, t[m.nameEnd..], m.end - m.nameEnd, names) == t[m.nameEnd..]
    ensures var names := NamesOf(ScanTables(prevWord, t, 0, off));
            AllIdents(names) && Retoken(prevWord, t, 0, names) == t
  {
    hide MatchTable, IsWord, IsIdent, Retoken, ScanTables, NamesOf;
    ScanUnfold(prevWord, t, m, off);
    var name := t[m.nameStart..m.nameEnd];
    var ts := ScanTables(true, t[m.nameEnd..], m.end - m.nameEnd, off + m.nameEnd);
    NamesCons(ParsedTable(name, m.alias, off + m.nameStart, off + m.nameEnd), ts);
    var names := [name] + NamesOf(ts);
    assert names[1..] == NamesOf(ts);
    RetokenHit(prevWord, t, m, names);
    assert t == t[..m.nameStart] + name + t[m.nameEnd..];
  }

  lemma NothingSelf(prevWord: bool, skip: nat, off: nat)
    ensures ScanTables(prevWord, "", skip, off) == [] && Retoken(prevWord, "", skip, []) == ""
  {
  }

  // ------------------------------------------------------------ where a LIMIT clause can stand

  /** Numbers follow the table's token, as they would follow the keyword LIMIT. */
  predicate Numbered(s: string, table: ParsedTable) {
    table.tokenEnd <= |s| && NumbersAfter(s[table.tokenEnd..]).Some?
  }

  /** Some table that numbers follow is named LIMIT. */
  ghost predicate LimitToken(s: string, ts: seq<ParsedTable>, names: seq<string>)
    requires |names| == |ts|
  {
    exists i :: 0 <= i < |ts| && Lower(names[i]) == "limit" && Numbered(s, ts[i])
  }

  ghost predicate AToken(ts: seq<ParsedTable>, p: nat) {
    exists i :: 0 <= i < |ts| && ts[i].tokenStart == p
  }

  /** A LIMIT match starts at `off` or later, not at a table token. */
  ghost predicate OutsideLimit(s: string, off: nat, ts: seq<ParsedTable>) {
    exists p: nat :: off <= p < |s| && MatchLimit(PrevWord(s, p), s[p..]).Some? && !AToken(ts, p)
  }

  lemma OutsideCopied(s: string, off: nat, ts: seq<ParsedTable>)
    requires off < |s| && Ascending(ts, off)
    ensures OutsideLimit(s, off, ts) <==> MatchLimit(PrevWord(s, off), s[off..]).Some? || OutsideLimit(s, off + 1, ts)
  {
    hide MatchLimit, PrevWord;
    AscendingApart(ts, off);
  }

  lemma OutsideHit(s: string, off: nat, m: TableMatch, table: ParsedTable, ts: seq<ParsedTable>)
    requires off <= |s| && MatchTable(PrevWord(s, off), s[off..]) == Some(m)
    requires table.tokenStart == off + m.nameStart
    ensures OutsideLimit(s, off, [table] + ts) ==> OutsideLimit(s, off + m.nameEnd, ts)
    ensures Ascending(ts, off + m.nameEnd) && OutsideLimit(s, off + m.nameEnd, ts) ==>
          OutsideLimit(s, off, [table] + ts)
  {
    hide MatchLimit, MatchTable, IsIdent, IsWord;
    var all := [table] + ts;
    if OutsideLimit(s, off, all) {
      var p: nat :| off <= p < |s| && MatchLimit(PrevWord(s, p), s[p..]).Some? && !AToken(all, p);
      assert all[0].tokenStart == off + m.nameStart;
      if p < off + m.nameEnd {
        QuietInHit(s, off, m, p);
      }
      assert forall i :: 0 <= i < |ts| ==> all[i + 1] == ts[i];
    }
    if Ascending(ts, off + m.nameEnd) && OutsideLimit(s, off + m.nameEnd, ts) {
      var p: nat :| off + m.nameEnd <= p < |s| && MatchLimit(PrevWord(s, p), s[p..]).Some? && !AToken(ts, p);
      assert forall i :: 0 < i < |all| ==> all[i] == ts[i - 1];
      assert !AToken(all, p);
    }
  }

  lemma QuietInHit(s: string, off: nat, m: TableMatch, p: nat)
    requires off <= |s| && MatchTable(PrevWord(s, off), s[off..]) == Some(m)
    requires off <= p < off + m.nameEnd && p != off + m.nameStart
    ensures MatchLimit(PrevWord(s, p), s[p..]).None?
  {
    hide MatchLimit, MatchTable, IsIdent, AtBoundary, TableKeyword, MatchAlias, SpacedIdent, IsSpace;
    var t := s[off..];
    MatchShape(PrevWord(s, off), t, m);
    NoLimitAt(t, m.nameStart, m.nameEnd, p - off);
    assert t[p - off..] == s[p..];
    assert After(false, t, p - off) == PrevWord(s, p);
  }

  /** Under any names, a limit is read exactly when one stands outside the tokens or a numbered token is named LIMIT. */
  lemma {:induction false} LimitUnderWhere(s: string, off: nat, skip: nat, names: seq<string>)
    requires off <= |s| && |names| == |ScanTables(PrevWord(s, off), s[off..], skip, off)|
    ensures var ts := ScanTables(PrevWord(s, off), s[off..], skip, off);
            LimitUnder(PrevWord(s, off), s[off..], skip, names).Some? <==>
                OutsideLimit(s, off, ts) || LimitToken(s, ts, names)
    decreases |s| - off
  {
    hide MatchTable, IsIdent, MatchLimit, LimitUnder, ScanTables, OutsideLimit, LimitToken, Ascending, IsWord;
    var t, ts := s[off..], ScanTables(PrevWord(s, off), s[off..], skip, off);
    ScanAscends(PrevWord(s, off), t, skip, off);
    if t == "" {
      NowhereLeft(s, skip, names);
    } else if skip > 0 || MatchTable(PrevWord(s, off), t).None? {
      assert t[1..] == s[off + 1..];
      ScanCopied(PrevWord(s, off), t, skip, names, off);
      LimitUnderCopied(PrevWord(s, off), t, skip, names);
      OutsideCopied(s, off, ts);
      LimitUnderWhere(s, off + 1, Minus(skip, 1), names);
    } else {
      var m := MatchTable(PrevWord(s, off), t).value;
      LimitWhereHit(s, off, m, names);
    }
  }

  lemma NowhereLeft(s: string, skip: nat, names: seq<string>)
    requires |names| == |ScanTables(PrevWord(s, |s|), "", skip, |s|)|
    ensures var ts := ScanTables(PrevWord(s, |s|), "", skip, |s|);
            |ts| == |names| && !OutsideLimit(s, |s|, ts) && !LimitToken(s, ts, names)
    ensures LimitUnder(PrevWord(s, |s|), "", skip, names).None?
  {
  }

  lemma LimitTokenCons(s: string, table: ParsedTable, ts: seq<ParsedTable>, names: seq<string>)
    requires |names| == |ts| + 1
    ensures LimitToken(s, [table] + ts, names) <==>
          (Lower(names[0]) == "limit" && Numbered(s, table)) || LimitToken(s, ts, names[1..])
  {
    hide Numbered, Lower;
    var all := [table] + ts;
    if LimitToken(s, ts, names[1..]) {
      var i :| 0 <= i < |ts| && Lower(names[1..][i]) == "limit" && Numbered(s, ts[i]);
      assert Lower(names[i + 1]) == "limit" && Numbered(s, all[i + 1]);
    }
    if LimitToken(s, all, names) {
      var i :| 0 <= i < |all| && Lower(names[i]) == "limit" && Numbered(s, all[i]);
      assert i > 0 ==> Lower(names[1..][i - 1]) == "limit" && Numbered(s, ts[i - 1]);
    }
    assert all[0] == table;
  }

  /** A table match of the statement, its table and the tables after it. */
  lemma HitParts(s: string, off: nat, m: TableMatch)
    requires off <= |s| && MatchTable(PrevWord(s, off), s[off..]) == Some(m)
    ensures var next := off + m.nameEnd;
            var table := ParsedTable(s[off..][m.nameStart..m.nameEnd], m.alias, off + m.nameStart, next);
            && next <= |s| && PrevWord(s, next) && s[off..][m.nameEnd..] == s[next..]
            && ScanTables(PrevWord(s, off), s[off..], 0, off) ==
                  [table] + ScanTables(true, s[next..], m.end - m.nameEnd, next)
  {
    hide MatchTable, IsIdent, ScanTables, IsWord;
    var t, next := s[off..], off + m.nameEnd;
    assert t[m.nameEnd..] == s[next..];
    ScanUnfold(PrevWord(s, off), t, m, off);
    EndsInWord(t, m.nameStart, m.nameEnd);
    assert s[next - 1] == t[m.nameEnd - 1];
  }

  lemma LimitWhereHit(s: string, off: nat, m: TableMatch, names: seq<string>)
    requires off <= |s| && MatchTable(PrevWord(s, off), s[off..]) == Some(m)
    requires |names| == |ScanTables(PrevWord(s, off), s[off..], 0, off)|
    ensures var ts := ScanTables(PrevWord(s, off), s[off..], 0, off);
            LimitUnder(PrevWord(s, off), s[off..], 0, names).Some? <==>
                OutsideLimit(s, off, ts) || LimitToken(s, ts, names)
    decreases |s| - off, 0
  {
    hide MatchTable, IsIdent, MatchLimit, LimitUnder, ScanTables, OutsideLimit, LimitToken, Ascending, PrevWord, Lower,
         NumbersAfter;
    var t, next := s[off..], off + m.nameEnd;
    HitParts(s, off, m);
    var table := ParsedTable(t[m.nameStart..m.nameEnd], m.alias, off + m.nameStart, next);
    var rest := ScanTables(true, s[next..], m.end - m.nameEnd, next);
    ScanAscends(true, s[next..], m.end - m.nameEnd, next);
    OutsideHit(s, off, m, table, rest);
    LimitTokenCons(s, table, rest, names);
    LimitUnderHit(PrevWord(s, off), t, m, names);
    LimitUnderWhere(s, next, m.end - m.nameEnd, names[1..]);
  }

  /** Every table that numbers follow keeps being named LIMIT, or keeps not being named so. */
  ghost predicate LimitStays(s: string, ts: seq<ParsedTable>, names: seq<string>) {
    && |names| == |ts|
    && forall i :: 0 <= i < |ts| && Numbered(s, ts[i]) ==>
          (Lower(ts[i].tableName) == "limit" <==> Lower(names[i]) == "limit")
  }

  lemma LimitStaysTail(s: string, table: ParsedTable, ts: seq<ParsedTable>, names: seq<string>)
    requires LimitStays(s, [table] + ts, names)
    ensures LimitStays(s, ts, names[1..])
    ensures Numbered(s, table) ==> (Lower(table.tableName) == "limit" <==> Lower(names[0]) == "limit")
  {
    hide Numbered, Lower;
    var all := [table] + ts;
    assert all[0] == table;
    assert forall i :: 0 <= i < |ts| ==> all[i + 1] == ts[i] && names[i + 1] == names[1..][i];
  }

  /** Names that keep the numbered tokens' reading keep the limit. */
  lemma {:induction false} LimitUnderStays(s: string, off: nat, skip: nat, names: seq<string>)
    requires off <= |s| && LimitStays(s, ScanTables(PrevWord(s, off), s[off..], skip, off), names)
    ensures var ts := ScanTables(PrevWord(s, off), s[off..], skip, off);
            LimitUnder(PrevWord(s, off), s[off..], skip, names) ==
                LimitUnder(PrevWord(s, off), s[off..], skip, NamesOf(ts))
    decreases |s| - off
  {
    hide MatchTable, IsIdent, MatchLimit, LimitUnder, ScanTables, LimitStays, IsWord, NamesOf, NamedLimit;
    var t, ts := s[off..], ScanTables(PrevWord(s, off), s[off..], skip, off);
    if t == "" {
      LimitOfNothing(PrevWord(s, off), skip, names);
      LimitOfNothing(PrevWord(s, off), skip, NamesOf(ts));
    } else if skip > 0 || MatchTable(PrevWord(s, off), t).None? {
      assert t[1..] == s[off + 1..];
      ScanCopied(PrevWord(s, off), t, skip, names, off);
      LimitUnderCopied(PrevWord(s, off), t, skip, names);
      LimitUnderCopied(PrevWord(s, off), t, skip, NamesOf(ts));
      LimitUnderStays(s, off + 1, Minus(skip, 1), names);
    } else {
      LimitStaysHit(s, off, MatchTable(PrevWord(s, off), t).value, names);
    }
  }

  lemma SameNamedLimit(s: string, table: ParsedTable, name: string)
    requires table.tokenEnd <= |s|
    requires Numbered(s, table) ==> (Lower(table.tableName) == "limit" <==> Lower(name) == "limit")
    ensures NamedLimit(name, s[table.tokenEnd..]) == NamedLimit(table.tableName, s[table.tokenEnd..])
  {
    hide NumbersAfter, Lower;
  }

  lemma LimitStaysHit(s: string, off: nat, m: TableMatch, names: seq<string>)
    requires off <= |s| && MatchTable(PrevWord(s, off), s[off..]) == Some(m)
    requires LimitStays(s, ScanTables(PrevWord(s, off), s[off..], 0, off), names)
    ensures var ts := ScanTables(PrevWord(s, off), s[off..], 0, off);
            LimitUnder(PrevWord(s, off), s[off..], 0, names) == LimitUnder(PrevWord(s, off), s[off..], 0, NamesOf(ts))
    decreases |s| - off, 0
  {
    hide MatchTable, IsIdent, MatchLimit, LimitUnder, ScanTables, IsWord, NamedLimit, Numbered, PrevWord, Lower,
         NamesOf;
    var t, next := s[off..], off + m.nameEnd;
    HitParts(s, off, m);
    var table := ParsedTable(t[m.nameStart..m.nameEnd], m.alias, off + m.nameStart, next);
    var rest := ScanTables(true, s[next..], m.end - m.nameEnd, next);
    LimitStaysTail(s, table, rest, names);
    NamesCons(table, rest);
    SameNamedLimit(s, table, names[0]);
    var own := [table.tableName] + NamesOf(rest);
    assert own[1..] == NamesOf(rest);
    LimitUnderHit(PrevWord(s, off), t, m, names);
    LimitUnderHit(PrevWord(s, off), t, m, own);
    LimitUnderStays(s, next, m.end - m.nameEnd, names[1..]);
  }

  // ------------------------------------------------------------ splices and the rewritten text

  /** `plans` replace exactly the tables whose name changes (or is rewritten to itself), in order. */
  ghost predicate PlansFor(ts: seq<ParsedTable>, names: seq<string>, plans: seq<TableRewritePlan>)
    decreases |ts|
  {
    && |names| == |ts|
    && if ts == [] then plans == []
       else
         || (names[0] == ts[0].tableName && PlansFor(ts[1..], names[1..], plans))
         || (&& plans != []
             && plans[0].physicalTableName == names[0]
             && plans[0].tokenStart == ts[0].tokenStart
             && plans[0].tokenEnd == ts[0].tokenEnd
             && PlansFor(ts[1..], names[1..], plans[1..]))
  }

  lemma SubstituteSkip(s: string, off: nat, nameStart: nat, nameEnd: nat, plans: seq<TableRewritePlan>)
    requires off <= nameStart <= nameEnd <= |s| && Separate(plans, nameEnd, |s|)
    ensures Separate(plans, off, |s|)
    ensures Substitute(s, plans, off) == s[off..nameStart] + s[nameStart..nameEnd] + Substitute(s, plans, nameEnd)
  {
    hide Separate, Substitute;
    SubstituteFrom(s, plans, off, nameEnd);
    assert s[off..nameEnd] == s[off..nameStart] + s[nameStart..nameEnd];
  }

  lemma SubstitutePlan(s: string, off: nat, plans: seq<TableRewritePlan>)
    requires plans != [] && off <= plans[0].tokenStart < plans[0].tokenEnd <= |s|
    requires Separate(plans[1..], plans[0].tokenEnd, |s|)
    ensures Separate(plans, off, |s|)
    ensures Substitute(s, plans, off)
         == s[off..plans[0].tokenStart] + plans[0].physicalTableName + Substitute(s, plans[1..], plans[0].tokenEnd)
  {
  }

  lemma {:induction false} PlansSubstitute(s: string, prevWord: bool, skip: nat, off: nat, names: seq<string>,
                                           plans: seq<TableRewritePlan>)
    requires off <= |s| && PlansFor(ScanTables(prevWord, s[off..], skip, off), names, plans)
    ensures Separate(plans, off, |s|) && Substitute(s, plans, off) == Retoken(prevWord, s[off..], skip, names)
    decreases |s| - off
  {
    hide MatchTable, IsWord, IsIdent, Separate, Substitute;
    var t := s[off..];
    if t == "" {
      PlansOfNothing(s, plans);
    } else if skip > 0 || MatchTable(prevWord, t).None? {
      SubstituteCopy(s, prevWord, skip, off, names, plans);
    } else {
      hide Retoken, ScanTables, PlansFor;
      var m := MatchTable(prevWord, t).value;
      SubstituteMatch(s, prevWord, off, m, names, plans);
    }
  }

  lemma PlansOfNothing(s: string, plans: seq<TableRewritePlan>)
    requires plans == []
    ensures Separate(plans, |s|, |s|) && Substitute(s, plans, |s|) == ""
  {
  }

  lemma SubstituteCopy(s: string, prevWord: bool, skip: nat, off: nat, names: seq<string>, plans: seq<TableRewritePlan>)
    requires off < |s| && (skip == 0 ==> MatchTable(prevWord, s[off..]).None?)
    requires PlansFor(ScanTables(prevWord, s[off..], skip, off), names, plans)
    ensures Separate(plans, off, |s|) && Substitute(s, plans, off) == Retoken(prevWord, s[off..], skip, names)
    decreases |s| - off, 0
  {
    hide MatchTable, IsWord, IsIdent, Separate, Substitute, Retoken, ScanTables, PlansFor;
    var t := s[off..];
    assert t[1..] == s[off + 1..];
    ScanCopied(prevWord, t, skip, names, off);
    PlansSubstitute(s, IsWord(t[0]), Minus(skip, 1), off + 1, names, plans);
    SubstituteFrom(s, plans, off, off + 1);
    CopyStep(prevWord, t, skip, names);
    assert s[off..off + 1] == [t[0]];
  }

  lemma SubstituteMatch(s: string, prevWord: bool, off: nat, m: TableMatch, names: seq<string>,
                        plans: seq<TableRewritePlan>)
    requires off <= |s| && MatchTable(prevWord, s[off..]) == Some(m)
    requires PlansFor(ScanTables(prevWord, s[off..], 0, off), names, plans)
    ensures Separate(plans, off, |s|) && Substitute(s, plans, off) == Retoken(prevWord, s[off..], 0, names)
    decreases |s| - off, 0
  {
    hide MatchTable, IsWord, IsIdent, Separate, Substitute, Retoken, ScanTables;
    var t := s[off..];
    assert t[m.nameEnd..] == s[off + m.nameEnd..];
    assert t[m.nameStart..m.nameEnd] == s[off + m.nameStart..off + m.nameEnd];
    ScanUnfold(prevWord, t, m, off);
    var ts := ScanTables(true, s[off + m.nameEnd..], m.end - m.nameEnd, off + m.nameEnd);
    var table := ParsedTable(t[m.nameStart..m.nameEnd], m.alias, off + m.nameStart, off + m.nameEnd);
    assert ([table] + ts)[1..] == ts;
    RetokenHit(prevWord, t, m, names);
    assert t[..m.nameStart] == s[off..off + m.nameStart];
    if names[0] == table.tableName && PlansFor(ts, names[1..], plans) {
      hide PlansFor;
      PlansSubstitute(s, true, m.end - m.nameEnd, off + m.nameEnd, names[1..], plans);
      SubstituteSkip(s, off, off + m.nameStart, off + m.nameEnd, plans);
    } else {
      assert plans != [] && PlansFor(ts, names[1..], plans[1..]);
      assert plans[0].physicalTableName == names[0] && plans[0].tokenStart == off + m.nameStart &&
          plans[0].tokenEnd == off + m.nameEnd;
      hide PlansFor;
      PlansSubstitute(s, true, m.end - m.nameEnd, off + m.nameEnd, names[1..], plans[1..]);
      SubstitutePlan(s, off, plans);
    }
  }

  /** The rewrite engine produces the re-tokened statement. */
  lemma RewriteIsRetoken(sql: string, names: seq<string>, plans: seq<TableRewritePlan>)
    requires PlansFor(ParseSpec(sql).tables, names, plans)
    ensures RewriteSpec(sql, plans) == Retoken(false, sql, 0, names)
  {
    hide Retoken, ScanTables, PlansFor;
    assert sql[0..] == sql;
    assert ParseSpec(sql).tables == ScanTables(false, sql, 0, 0);
    PlansSubstitute(sql, false, 0, 0, names, plans);
    RewriteIsSubstitution(sql, plans, plans);
  }

  /** How much the names before the i-th have grown the text. */
  ghost function Growth(ts: seq<ParsedTable>, names: seq<string>, i: nat): int
    requires |ts| == |names| && i <= |ts|
  {
    if i == 0 then 0
    else |names[0]| - (ts[0].tokenEnd - ts[0].tokenStart) + Growth(ts[1..], names[1..], i - 1)
  }

  lemma {:induction false} RelocatedAt(ts: seq<ParsedTable>, us: seq<ParsedTable>, names: seq<string>, delta: int,
                                       i: nat)
    requires Relocated(ts, us, names, delta) && i < |ts|
    ensures us[i].tableName == names[i] && us[i].alias == ts[i].alias
    ensures us[i].tokenStart == ts[i].tokenStart + delta + Growth(ts, names, i)
    ensures us[i].tokenEnd == us[i].tokenStart + |names[i]|
  {
    if i > 0 {
      RelocatedAt(ts[1..], us[1..], names[1..], delta + |names[0]| - (ts[0].tokenEnd - ts[0].tokenStart), i - 1);
    }
  }

  /**
   Parsing the rewritten statement: the same number of tables with the same aliases, the i-th one
   named by its new name, and each span moved by the length differences of the names before it.
   */
  lemma ParseAfterRewrite(sql: string, names: seq<string>, plans: seq<TableRewritePlan>)
    requires PlansFor(ParseSpec(sql).tables, names, plans) && AllIdents(names)
    ensures var ts := ParseSpec(sql).tables;
            var us := ParseSpec(RewriteSpec(sql, plans)).tables;
            && |us| == |ts|
            && forall i :: 0 <= i < |ts| ==>
                 && us[i].tableName == names[i]
                 && us[i].alias == ts[i].alias
                 && us[i].tokenStart == ts[i].tokenStart + Growth(ts, names, i)
                 && us[i].tokenEnd == us[i].tokenStart + |names[i]|
  {
    hide Retoken, ScanTables, IsIdent;
    RewriteIsRetoken(sql, names, plans);
    ScanKept(false, sql, 0, names, 0, 0);
    var ts := ParseSpec(sql).tables;
    var us := ParseSpec(RewriteSpec(sql, plans)).tables;
    assert ts == ScanTables(false, sql, 0, 0) && us == ScanTables(false, Retoken(false, sql, 0, names), 0, 0);
    forall i | 0 <= i < |ts|
      ensures us[i].tableName == names[i] && us[i].alias == ts[i].alias
      ensures us[i].tokenStart == ts[i].tokenStart + Growth(ts, names, i)
      ensures us[i].tokenEnd == us[i].tokenStart + |names[i]|
    {
      RelocatedAt(ts, us, names, 0, i);
    }
  }

  /** The limit of the statement when its tables are named `names`. */
  ghost function LimitRead(sql: string, names: seq<string>): Option<LimitMatch> {
    LimitUnder(false, sql, 0, names)
  }

  /** A LIMIT match of the statement starts outside its table tokens. */
  ghost predicate FreeLimit(sql: string) {
    OutsideLimit(sql, 0, ParseSpec(sql).tables)
  }

  lemma LimitOfParse(sql: string)
    ensures ParseSpec(sql).hasLimit == FindLimit(false, sql).Some?
    ensures ParseSpec(sql).limitValue == LimitValue(FindLimit(false, sql))
  {
    hide IsMultiStatement, FirstToken, ScanTables, ScanPredicates, FindLimit, LimitValue;
  }

  lemma LimitReadWhere(sql: string, names: seq<string>)
    requires |names| == |ParseSpec(sql).tables|
    ensures LimitRead(sql, names).Some? <==> FreeLimit(sql) || LimitToken(sql, ParseSpec(sql).tables, names)
  {
    hide ScanTables, OutsideLimit, LimitToken, LimitUnder;
    assert sql[0..] == sql && !PrevWord(sql, 0);
    LimitUnderWhere(sql, 0, 0, names);
  }

  lemma LimitReadSelf(sql: string)
    ensures LimitRead(sql, NamesOf(ParseSpec(sql).tables)) == FindLimit(false, sql)
  {
    hide ScanTables, LimitUnder, FindLimit, Retoken;
    RetokenSelf(false, sql, 0, 0);
    LimitOfRetoken(false, sql, 0, NamesOf(ParseSpec(sql).tables), 0);
  }

  lemma LimitReadStays(sql: string, names: seq<string>)
    requires LimitStays(sql, ParseSpec(sql).tables, names)
    ensures LimitRead(sql, names) == FindLimit(false, sql)
  {
    hide ScanTables, LimitUnder, FindLimit, LimitStays;
    assert sql[0..] == sql && !PrevWord(sql, 0);
    LimitUnderStays(sql, 0, 0, names);
    LimitReadSelf(sql);
  }

  /**
   The limit after rewriting, exactly. The rewritten statement's limit is the one read off the
   original under the new names. So it has one if and only if a LIMIT match starts outside the table
   tokens or a table that numbers follow is now named LIMIT, as the original has one if and only if
   that held of its own names; and nothing changes if no numbered table becomes or ceases to be LIMIT.
   */
  lemma LimitAfterRewrite(sql: string, names: seq<string>, plans: seq<TableRewritePlan>)
    requires PlansFor(ParseSpec(sql).tables, names, plans) && AllIdents(names)
    ensures |names| == |ParseSpec(sql).tables|
    ensures var ts := ParseSpec(sql).tables;
            var before, after := ParseSpec(sql), ParseSpec(RewriteSpec(sql, plans));
            && after.hasLimit == LimitRead(sql, names).Some? && after.limitValue == LimitValue(LimitRead(sql, names))
            && (after.hasLimit <==> FreeLimit(sql) || LimitToken(sql, ts, names))
            && (before.hasLimit <==> FreeLimit(sql) || LimitToken(sql, ts, NamesOf(ts)))
            && (LimitStays(sql, ts, names) ==>
                  after.hasLimit == before.hasLimit && after.limitValue == before.limitValue)
  {
    PlansCount(ParseSpec(sql).tables, names, plans);
    hide Retoken, ScanTables, IsIdent, PlansFor, FindLimit, LimitRead, FreeLimit, LimitToken, LimitStays, RewriteSpec,
         LimitValue, ParseSpec;
    LimitOfParse(sql);
    LimitOfParse(RewriteSpec(sql, plans));
    LimitFound(sql, names, plans);
    LimitReadWhere(sql, names);
    LimitReadWhere(sql, NamesOf(ParseSpec(sql).tables));
    LimitReadSelf(sql);
    if LimitStays(sql, ParseSpec(sql).tables, names) {
      LimitReadStays(sql, names);
    }
  }

  lemma PlansCount(ts: seq<ParsedTable>, names: seq<string>, plans: seq<TableRewritePlan>)
    requires PlansFor(ts, names, plans)
    ensures |names| == |ts|
  {
  }

  lemma LimitFound(sql: string, names: seq<string>, plans: seq<TableRewritePlan>)
    requires PlansFor(ParseSpec(sql).tables, names, plans) && AllIdents(names) && |names| == |ParseSpec(sql).tables|
    ensures FindLimit(false, RewriteSpec(sql, plans)) == LimitRead(sql, names)
  {
    hide Retoken, ScanTables, IsIdent, PlansFor, FindLimit, LimitUnder, RewriteSpec;
    RewriteIsRetoken(sql, names, plans);
    LimitOfRetoken(false, sql, 0, names, 0);
  }
}
