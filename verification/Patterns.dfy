/**
 The parser's declared patterns as regular expressions, and the proof that the deterministic
 matchers of the parser find exactly what a backtracking matcher finds first.
 */
module Patterns {
  import opened Wrappers
  import opened Text
  import opened SqlParser
  import opened Regex

  const SPACES := Many(Of(Space), 1)
  const BLANKS := Many(Of(Space), 0)

  const KEYWORD := Either(Letters("from"), Letters("join"))
  const AS_PART := Maybe(Cat(Letters("as"), SPACES))
  const ALIAS := Cat(SPACES, Cat(AS_PART, Capture(3, IDENT)))
  const NAME_AND_ALIAS := Cat(SPACES, Cat(Capture(2, IDENT), Maybe(ALIAS)))
  const TABLE_PATTERN := Cat(Boundary, Cat(Capture(1, KEYWORD), NAME_AND_ALIAS))

  const DIGITS := Many(Of(Digit), 1)
  const NUMBER := Cat(Maybe(One(Is('-'))), DIGITS)
  const VALUE := Either(Quoted('\''), Either(Quoted('"'), NUMBER))
  const AFTER_EQUALS := Cat(BLANKS, Capture(3, VALUE))
  const EQUALS := Cat(BLANKS, Cat(One(Is('=')), AFTER_EQUALS))
  const COLUMN := Cat(Capture(2, IDENT), EQUALS)
  const QUALIFIER := Cat(Capture(1, IDENT), One(Is('.')))
  const PREDICATE_PATTERN := Cat(Maybe(QUALIFIER), COLUMN)

  const SECOND := Cat(BLANKS, Capture(2, DIGITS))
  const LIMIT_TAIL := Cat(BLANKS, Cat(One(Is(',')), SECOND))
  const REST := Cat(Maybe(LIMIT_TAIL), Boundary)
  const LIMIT_PATTERN := Cat(Boundary, Cat(Letters("limit"), Cat(SPACES, Cat(Capture(1, DIGITS), REST))))

  function Quoted(quote: char): Rx {
    Cat(One(Is(quote)), Cat(Many(Except(quote), 0), One(Is(quote))))
  }

  // ------------------------------------------------------------ reading a match

  function Slice(t: string, span: (nat, nat)): string {
    if span.0 <= span.1 <= |t| then t[span.0..span.1] else ""
  }

  function Group(t: string, p: Progress, group: nat): Option<string> {
    if group in p.groups then Some(Slice(t, p.groups[group])) else None
  }

  /** What the table loop reads off a match. */
  function ReadTable(t: string, w: Option<Progress>): Option<TableMatch> {
    match w
    case None => None
    case Some(p) => if 2 in p.groups then Some(TableMatch(p.groups[2].0, p.groups[2].1, Group(t, p, 3), p.at)) else None
  }

  /** What the predicate loop reads off a match. */
  function ReadPredicate(t: string, w: Option<Progress>): Option<(ParsedPredicate, nat)> {
    match w
    case None => None
    case Some(p) =>
      match (Group(t, p, 2), Group(t, p, 3))
      case (Some(column), Some(raw)) => Some((ParsedPredicate(Group(t, p, 1), column, NormalizeValue(raw)), p.at))
      case _ => None
  }

  function ReadLimit(t: string, w: Option<Progress>): Option<LimitMatch> {
    match w
    case None => None
    case Some(p) =>
      match Group(t, p, 1)
      case Some(first) => Some(LimitMatch(first, Group(t, p, 2)))
      case None => None
  }

  // ------------------------------------------------------------ common steps

  lemma SpacesThen(least: nat, b: Rx, prevWord: bool, t: string, p: Progress)
    requires p.at <= |t| && NotOn(Of(Space), b, prevWord, t)
    ensures var w := Run(Space, t[p.at..]);
            Ways(Cat(Many(Of(Space), least), b), prevWord, t, p) == if w < least then []
                else Ways(b, prevWord, t, p.(at := p.at + w))
  {
    hide Run, Ways, NotOn;
    ManyThen(Of(Space), least, b, prevWord, t, p);
    RunOfClass(Space, t, p.at);
  }

  lemma SpaceIsNoWord(c: char)
    requires IsSpace(c)
    ensures !IsWord(c) && !IsDigit(c) && c != '\'' && c != '"' && c != '-' && c != '=' && c != ','
    ensures LowerChar(c) != 'a'
  {
  }

  lemma AfterSplit(b: Rx, prevWord: bool, t: string, ps: seq<Progress>, p: Progress)
    requires p.at <= |t| && forall q :: q in ps ==> q.at <= |t|
    ensures After(b, prevWord, t, ps + [p]) == After(b, prevWord, t, ps) + Ways(b, prevWord, t, p)
  {
    hide Ways;
    AfterConcat(b, prevWord, t, ps, [p]);
    AfterOne(b, prevWord, t, p);
  }

  lemma WaysMaybe(a: Rx, prevWord: bool, t: string, p: Progress)
    requires p.at <= |t|
    ensures Ways(Maybe(a), prevWord, t, p) == Ways(a, prevWord, t, p) + [p]
  {
  }

  lemma WaysLetters(word: string, prevWord: bool, t: string, p: Progress)
    requires p.at <= |t|
    ensures Ways(Letters(word), prevWord, t, p) == if HasKeyword(t[p.at..], word) then [p.(at := p.at + |word|)] else []
  {
  }

  lemma LettersThen(word: string, b: Rx, prevWord: bool, t: string, p: Progress)
    requires p.at <= |t|
    ensures Ways(Cat(Letters(word), b), prevWord, t, p)
         == if HasKeyword(t[p.at..], word) then Ways(b, prevWord, t, p.(at := p.at + |word|)) else []
  {
    WaysLetters(word, prevWord, t, p);
    hide Ways, HasKeyword;
    WaysCat(Letters(word), b, prevWord, t, p);
    if HasKeyword(t[p.at..], word) {
      AfterOne(b, prevWord, t, p.(at := p.at + |word|));
    }
  }

  /** No identifier starts on a blank, whatever follows it. */
  lemma NameNotOnSpace(group: nat, b: Rx, prevWord: bool, t: string)
    ensures NotOn(Of(Space), Capture(group, IDENT), prevWord, t)
    ensures NotOn(Of(Space), Cat(Capture(group, IDENT), b), prevWord, t)
  {
    hide Ways, IDENT, Run;
    forall q: Progress | q.at < |t| && Fits(Of(Space), t[q.at])
      ensures Ways(Capture(group, IDENT), prevWord, t, q) == []
      ensures Ways(Cat(Capture(group, IDENT), b), prevWord, t, q) == []
    {
      SpaceIsNoWord(t[q.at]);
      WaysNamed(group, prevWord, t, q);
      WaysCat(Capture(group, IDENT), b, prevWord, t, q);
    }
  }

  // ------------------------------------------------------------ the alias part

  /** `(?:as\s+)?` where it is not followed by a blank it could use. */
  lemma AliasNotOnSpace(prevWord: bool, t: string)
    ensures NotOn(Of(Space), Cat(AS_PART, Capture(3, IDENT)), prevWord, t)
  {
    hide Ways, IDENT;
    NameNotOnSpace(3, SPACES, prevWord, t);
    forall q: Progress | q.at < |t| && Fits(Of(Space), t[q.at])
      ensures Ways(Cat(AS_PART, Capture(3, IDENT)), prevWord, t, q) == []
    {
      SpaceIsNoWord(t[q.at]);
      LettersThen("as", SPACES, prevWord, t, q);
      assert !HasKeyword(t[q.at..], "as");
      WaysMaybe(Cat(Letters("as"), SPACES), prevWord, t, q);
      assert Ways(AS_PART, prevWord, t, q) == [] + [q] == [q];
      WaysCat(AS_PART, Capture(3, IDENT), prevWord, t, q);
      AfterOne(Capture(3, IDENT), prevWord, t, q);
    }
  }

  /** The first way agrees with an optional span of the third group. */
  ghost predicate AliasWay(ps: seq<Progress>, p: Progress, a: Option<AliasMatch>) {
    match a
    case None => ps == []
    case Some(m) => ps != [] && ps[0] == Progress(p.at + m.end, p.groups[3 := (p.at + m.start, p.at + m.end)])
  }

  lemma SpacedNameWays(prevWord: bool, t: string, p: Progress)
    requires p.at <= |t|
    ensures var w := SpacedIdent(t[p.at..]);
            var ps := Ways(Cat(SPACES, Capture(3, IDENT)), prevWord, t, p);
            if w == 0 then ps == [] else ps != [] && ps[0] == Named(3, p.(at := p.at + w), Run(Word, t[p.at + w..]))
  {
    hide Ways, IDENT, Run, NotOn, Shorter, Named;
    NameNotOnSpace(3, SPACES, prevWord, t);
    SpacesThen(1, Capture(3, IDENT), prevWord, t, p);
    var w := Run(Space, t[p.at..]);
    if w > 0 {
      assert t[p.at..][w..] == t[p.at + w..];
      WaysNamed(3, prevWord, t, p.(at := p.at + w));
    }
  }

  lemma AsNameWays(prevWord: bool, t: string, p: Progress)
    requires p.at <= |t|
    ensures var w := if HasKeyword(t[p.at..], "as") then SpacedIdent(t[p.at..][2..]) else 0;
            var start := 2 + w;
            AliasWay(After(Capture(3, IDENT), prevWord, t, Ways(Cat(Letters("as"), SPACES), prevWord, t, p)), p,
                     if w > 0 then Some(AliasMatch(start, start + Run(Word, t[p.at..][start..]))) else None)
  {
    hide Ways, IDENT, SPACES, Run, SpacedIdent, Named, HasKeyword, After, AliasWay;
    LettersThen("as", SPACES, prevWord, t, p);
    if HasKeyword(t[p.at..], "as") {
      KeywordFits(t[p.at..], "as");
      var q := p.(at := p.at + 2);
      assert t[p.at..][2..] == t[q.at..];
      WaysCat(SPACES, Capture(3, IDENT), prevWord, t, q);
      SpacedNameWays(prevWord, t, q);
      var w := SpacedIdent(t[q.at..]);
      if w > 0 {
        NamedAfter(t, p, 2, w, Ways(Cat(SPACES, Capture(3, IDENT)), prevWord, t, q));
      } else {
        NoAlias(p);
      }
    } else {
      AfterNothing(Capture(3, IDENT), prevWord, t);
      NoAlias(p);
    }
  }

  lemma KeywordFits(t: string, word: string)
    requires HasKeyword(t, word)
    ensures |word| <= |t|
  {
  }

  lemma NoAlias(p: Progress)
    ensures AliasWay([], p, None)
  {
  }

  lemma NamedAfter(t: string, p: Progress, a: nat, w: nat, ps: seq<Progress>)
    requires p.at + a + w <= |t| && ps != []
    requires ps[0] == Named(3, p.(at := p.at + a + w), Run(Word, t[p.at + a + w..]))
    ensures AliasWay(ps, p, Some(AliasMatch(a + w, a + w + Run(Word, t[p.at..][a + w..]))))
  {
    hide Run;
    assert t[p.at + a + w..] == t[p.at..][a + w..];
  }

  lemma PlainNameWays(prevWord: bool, t: string, p: Progress)
    requires p.at <= |t|
    ensures AliasWay(Ways(Capture(3, IDENT), prevWord, t, p), p,
                     if IdentAt(t[p.at..]) then Some(AliasMatch(0, Run(Word, t[p.at..]))) else None)
  {
    hide Ways, IDENT, Run, IdentAt, Shorter;
    WaysNamed(3, prevWord, t, p);
  }

  lemma PreferFirst(xs: seq<Progress>, ys: seq<Progress>, p: Progress, a: Option<AliasMatch>, b: Option<AliasMatch>)
    requires AliasWay(xs, p, a) && AliasWay(ys, p, b)
    ensures AliasWay(xs + ys, p, if a.Some? then a else b)
  {
    assert xs == [] ==> xs + ys == ys;
  }

  lemma AliasNameWays(prevWord: bool, t: string, p: Progress)
    requires p.at <= |t|
    ensures AliasWay(Ways(Cat(AS_PART, Capture(3, IDENT)), prevWord, t, p), p, AliasName(t[p.at..]))
  {
    hide Ways, After, IDENT, Run, IdentAt, SpacedIdent, AliasWay, SPACES;
    var x := Ways(Cat(Letters("as"), SPACES), prevWord, t, p);
    WaysMaybe(Cat(Letters("as"), SPACES), prevWord, t, p);
    WaysCat(AS_PART, Capture(3, IDENT), prevWord, t, p);
    AfterSplit(Capture(3, IDENT), prevWord, t, x, p);
    AsNameWays(prevWord, t, p);
    PlainNameWays(prevWord, t, p);
    var u := t[p.at..];
    var w := if HasKeyword(u, "as") then SpacedIdent(u[2..]) else 0;
    PreferFirst(After(Capture(3, IDENT), prevWord, t, x), Ways(Capture(3, IDENT), prevWord, t, p), p,
                if w > 0 then Some(AliasMatch(2 + w, 2 + w + Run(Word, u[2 + w..]))) else None,
                if IdentAt(u) then Some(AliasMatch(0, Run(Word, u))) else None);
  }

  lemma AliasWays(prevWord: bool, t: string, p: Progress)
    requires p.at <= |t|
    ensures AliasWay(Ways(ALIAS, prevWord, t, p), p, MatchAlias(t[p.at..]))
  {
    hide Ways, IDENT, Run, AliasName, AS_PART, AliasWay, MatchAlias, NotOn;
    AliasNotOnSpace(prevWord, t);
    SpacesThen(1, Cat(AS_PART, Capture(3, IDENT)), prevWord, t, p);
    var w := Run(Space, t[p.at..]);
    if w > 0 {
      AliasNameWays(prevWord, t, p.(at := p.at + w));
    }
    AliasAfterSpaces(t, p, Ways(ALIAS, prevWord, t, p));
  }

  lemma AliasAfterSpaces(t: string, p: Progress, ps: seq<Progress>)
    requires p.at <= |t|
    requires var w := Run(Space, t[p.at..]);
             if w == 0 then ps == [] else AliasWay(ps, p.(at := p.at + w), AliasName(t[p.at + w..]))
    ensures AliasWay(ps, p, MatchAlias(t[p.at..]))
  {
    hide Run, AliasName;
    assert t[p.at..][Run(Space, t[p.at..])..] == t[p.at + Run(Space, t[p.at..])..];
  }

  // ------------------------------------------------------------ TABLE_PATTERN

  lemma KeywordWays(prevWord: bool, t: string, p: Progress)
    requires p.at <= |t|
    ensures Ways(KEYWORD, prevWord, t, p) == if TableKeyword(t[p.at..]) then [p.(at := p.at + 4)] else []
  {
    WaysEither(Letters("from"), Letters("join"), prevWord, t, p);
    hide Ways;
    WaysLetters("from", prevWord, t, p);
    WaysLetters("join", prevWord, t, p);
    var u := t[p.at..];
    if HasKeyword(u, "from") {
      assert LowerChar(u[0]) == "from"[0] != "join"[0];
      assert !HasKeyword(u, "join");
    }
  }

  lemma WaysEither(a: Rx, b: Rx, prevWord: bool, t: string, p: Progress)
    requires p.at <= |t|
    ensures Ways(Either(a, b), prevWord, t, p) == Ways(a, prevWord, t, p) + Ways(b, prevWord, t, p)
  {
    hide RunOf, Down, Captured, After, HasKeyword, WordBefore, WordAfter, Fits;
  }

  lemma BoundaryThen(b: Rx, prevWord: bool, t: string, p: Progress)
    requires p.at <= |t|
    ensures Ways(Cat(Boundary, b), prevWord, t, p)
         == if WordBefore(prevWord, t, p.at) != WordAfter(t, p.at) then Ways(b, prevWord, t, p) else []
  {
    WaysBoundary(prevWord, t, p);
    hide Ways;
    WaysCat(Boundary, b, prevWord, t, p);
    AfterOne(b, prevWord, t, p);
  }

  lemma WaysBoundary(prevWord: bool, t: string, p: Progress)
    requires p.at <= |t|
    ensures Ways(Boundary, prevWord, t, p) == if WordBefore(prevWord, t, p.at) != WordAfter(t, p.at) then [p] else []
  {
  }

  /** How far a name and its alias reach. */
  function WithAlias(name: Progress, a: Option<AliasMatch>): Progress {
    match a
    case None => name
    case Some(m) => Progress(name.at + m.end, name.groups[3 := (name.at + m.start, name.at + m.end)])
  }

  lemma NameThenAlias(prevWord: bool, t: string, p: Progress)
    requires p.at <= |t|
    ensures var ps := Ways(Cat(Capture(2, IDENT), Maybe(ALIAS)), prevWord, t, p);
            var name := Named(2, p, Run(Word, t[p.at..]));
            if IdentAt(t[p.at..]) then ps != [] && ps[0] == WithAlias(name, MatchAlias(t[name.at..])) else ps == []
  {
    hide Ways, IDENT, Run, MatchAlias, ALIAS, IdentAt, Shorter;
    if IdentAt(t[p.at..]) {
      var name := Named(2, p, Run(Word, t[p.at..]));
      AliasWays(prevWord, t, name);
      WaysMaybe(ALIAS, prevWord, t, name);
      NamedPreferred(2, Maybe(ALIAS), prevWord, t, p);
    } else {
      WaysCat(Capture(2, IDENT), Maybe(ALIAS), prevWord, t, p);
      WaysNamed(2, prevWord, t, p);
      AfterNothing(Maybe(ALIAS), prevWord, t);
    }
  }

  /** From the blanks after the keyword on. */
  lemma NameAndAliasWays(prevWord: bool, t: string, p: Progress)
    requires p.at <= |t|
    ensures var w := SpacedIdent(t[p.at..]);
            var ps := Ways(NAME_AND_ALIAS, prevWord, t, p);
            var name := Named(2, p.(at := p.at + w), Run(Word, t[p.at + w..]));
            if w == 0 then ps == [] else ps != [] && ps[0] == WithAlias(name, MatchAlias(t[name.at..]))
  {
    hide Ways, IDENT, Run, MatchAlias, ALIAS, NotOn, Named, WithAlias;
    NameNotOnSpace(2, Maybe(ALIAS), prevWord, t);
    SpacesThen(1, Cat(Capture(2, IDENT), Maybe(ALIAS)), prevWord, t, p);
    var w := Run(Space, t[p.at..]);
    if w > 0 {
      assert t[p.at..][w..] == t[p.at + w..];
      NameThenAlias(prevWord, t, p.(at := p.at + w));
    }
  }

  lemma TableWays(prevWord: bool, t: string)
    ensures Ways(TABLE_PATTERN, prevWord, t, Progress(0, map[]))
         == if !prevWord && TableKeyword(t) then Ways(NAME_AND_ALIAS, prevWord, t, Progress(4, map[1 := (0, 4)]))
             else []
  {
    hide Ways, KEYWORD, NAME_AND_ALIAS;
    var start := Progress(0, map[]);
    assert t[0..] == t;
    BoundaryThen(Cat(Capture(1, KEYWORD), NAME_AND_ALIAS), prevWord, t, start);
    WaysCat(Capture(1, KEYWORD), NAME_AND_ALIAS, prevWord, t, start);
    WaysCapture(1, KEYWORD, prevWord, t, start);
    KeywordWays(prevWord, t, start);
    if TableKeyword(t) {
      KeywordIsLetter(t);
      CapturedCons(1, 0, start.(at := 4), []);
      assert [start.(at := 4)] + [] == [start.(at := 4)];
      var q := Progress(4, map[1 := (0, 4)]);
      assert Captured(1, 0, [start.(at := 4)]) == [q] + [] == [q];
      AfterOne(NAME_AND_ALIAS, prevWord, t, q);
    } else {
      assert |Captured(1, 0, [])| == 0;
    }
  }

  lemma KeywordIsLetter(t: string)
    requires TableKeyword(t)
    ensures IsWord(t[0]) && |t| >= 4
  {
    assert LowerChar(t[0]) == 'f' || LowerChar(t[0]) == 'j';
  }

  /** Reading a name and its alias off the first way. */
  lemma ReadNamed(t: string, name: Progress, a: Option<AliasMatch>)
    requires 2 in name.groups && 3 !in name.groups && name.at <= |t|
    requires a.Some? ==> 0 < a.value.start < a.value.end <= |t[name.at..]|
    ensures ReadTable(t, Some(WithAlias(name, a)))
         == Some(match a
                 case None => TableMatch(name.groups[2].0, name.groups[2].1, None, name.at)
                 case Some(m) => TableMatch(name.groups[2].0, name.groups[2].1, Some(t[name.at..][m.start..m.end]),
                     name.at + m.end))
  {
    if a.Some? {
      assert t[name.at..][a.value.start..a.value.end] == t[name.at + a.value.start..name.at + a.value.end];
    }
  }

  /** The table matcher finds what a backtracking matcher of the declared pattern finds first. */
  lemma TablePatternExact(prevWord: bool, t: string)
    ensures MatchTable(prevWord, t) == ReadTable(t, FirstWay(TABLE_PATTERN, prevWord, t))
    ensures MatchTable(prevWord, t).None? <==> FirstWay(TABLE_PATTERN, prevWord, t).None?
  {
    hide Ways, IDENT, Run, MatchAlias, TABLE_PATTERN, NAME_AND_ALIAS, SpacedIdent, TableKeyword, ReadTable, WithAlias,
         IsIdent;
    TableWays(prevWord, t);
    NothingRead(t);
    if !prevWord && TableKeyword(t) {
      KeywordIsLetter(t);
      var p := Progress(4, map[1 := (0, 4)]);
      NameAndAliasWays(prevWord, t, p);
      var w := SpacedIdent(t[4..]);
      if w > 0 {
        assert t[4 + w..] == t[4..][w..];
        var name := Named(2, p.(at := 4 + w), Run(Word, t[4 + w..]));
        ReadNamed(t, name, MatchAlias(t[name.at..]));
      }
    }
  }

  lemma NothingRead(t: string)
    ensures ReadTable(t, None) == None
  {
  }

  // ------------------------------------------------------------ values

  /** The first way agrees with a matched length; 0 stands for no match. */
  ghost predicate LengthWay(ps: seq<Progress>, p: Progress, n: nat) {
    if n == 0 then ps == [] else ps != [] && ps[0] == p.(at := p.at + n)
  }

  lemma {:induction false} RunToQuote(c: char, t: string, at: nat)
    requires at <= |t|
    ensures RunOf(Except(c), t, at) == IndexOf(c, t[at..])
    decreases |t| - at
  {
    if at < |t| {
      assert t[at..][1..] == t[at + 1..];
      RunToQuote(c, t, at + 1);
    }
  }

  lemma WaysOne(s: CharSet, prevWord: bool, t: string, p: Progress)
    requires p.at <= |t|
    ensures Ways(One(s), prevWord, t, p) == if p.at < |t| && Fits(s, t[p.at]) then [p.(at := p.at + 1)] else []
  {
  }

  lemma QuotedWays(quote: char, prevWord: bool, t: string, p: Progress)
    requires p.at <= |t|
    ensures var u := t[p.at..];
            var n := if u != "" && u[0] == quote &&
                IndexOf(quote, u[1..]) < |u| - 1 then IndexOf(quote, u[1..]) + 2 else 0;
            LengthWay(Ways(Quoted(quote), prevWord, t, p), p, n)
  {
    hide Ways, RunOf, IndexOf;
    OneThen(Is(quote), Cat(Many(Except(quote), 0), One(Is(quote))), prevWord, t, p);
    if p.at < |t| && t[p.at] == quote {
      var q := p.(at := p.at + 1);
      assert t[p.at..][1..] == t[q.at..];
      QuoteNotInside(quote, prevWord, t);
      ManyThen(Except(quote), 0, One(Is(quote)), prevWord, t, q);
      RunToQuote(quote, t, q.at);
      WaysOne(Is(quote), prevWord, t, q.(at := q.at + RunOf(Except(quote), t, q.at)));
    }
  }

  lemma QuoteNotInside(quote: char, prevWord: bool, t: string)
    ensures NotOn(Except(quote), One(Is(quote)), prevWord, t)
  {
  }

  lemma DigitsWays(prevWord: bool, t: string, p: Progress)
    requires p.at <= |t|
    ensures LengthWay(Ways(DIGITS, prevWord, t, p), p, Run(Digit, t[p.at..]))
  {
    hide Ways, RunOf, Run, Down;
    WaysMany(Of(Digit), 1, prevWord, t, p);
    RunOfClass(Digit, t, p.at);
  }

  lemma NumberWays(prevWord: bool, t: string, p: Progress)
    requires p.at <= |t|
    requires p.at < |t| ==> t[p.at] != '\'' && t[p.at] != '"'
    ensures LengthWay(Ways(NUMBER, prevWord, t, p), p, MatchLiteral(t[p.at..]))
  {
    hide Ways, Run, DIGITS;
    WaysCat(Maybe(One(Is('-'))), DIGITS, prevWord, t, p);
    WaysMaybe(One(Is('-')), prevWord, t, p);
    WaysOne(Is('-'), prevWord, t, p);
    AfterSplit(DIGITS, prevWord, t, Ways(One(Is('-')), prevWord, t, p), p);
    DigitsWays(prevWord, t, p);
    if p.at < |t| && t[p.at] == '-' {
      var q := p.(at := p.at + 1);
      assert t[p.at..][1..] == t[q.at..];
      AfterOne(DIGITS, prevWord, t, q);
      DigitsWays(prevWord, t, q);
      MinusIsNoDigit(t[p.at..]);
    } else {
      AfterNothing(DIGITS, prevWord, t);
      assert [] + Ways(DIGITS, prevWord, t, p) == Ways(DIGITS, prevWord, t, p);
    }
  }

  lemma MinusIsNoDigit(u: string)
    requires u != "" && u[0] == '-'
    ensures Run(Digit, u) == 0
  {
  }

  lemma ValueWays(prevWord: bool, t: string, p: Progress)
    requires p.at <= |t|
    ensures LengthWay(Ways(VALUE, prevWord, t, p), p, MatchLiteral(t[p.at..]))
  {
    hide Ways, Run, IndexOf, NUMBER;
    QuotedWays('\'', prevWord, t, p);
    QuotedWays('"', prevWord, t, p);
    WaysEither(Quoted('\''), Either(Quoted('"'), NUMBER), prevWord, t, p);
    WaysEither(Quoted('"'), NUMBER, prevWord, t, p);
    hide Quoted;
    if p.at < |t| && (t[p.at] == '\'' || t[p.at] == '"') {
      QuoteIsNoNumber(prevWord, t, p);
    } else {
      NumberWays(prevWord, t, p);
    }
  }

  lemma QuoteIsNoNumber(prevWord: bool, t: string, p: Progress)
    requires p.at < |t| && !IsDigit(t[p.at]) && t[p.at] != '-'
    ensures Ways(NUMBER, prevWord, t, p) == []
  {
    hide Ways, DIGITS;
    WaysCat(Maybe(One(Is('-'))), DIGITS, prevWord, t, p);
    WaysMaybe(One(Is('-')), prevWord, t, p);
    WaysOne(Is('-'), prevWord, t, p);
    assert [] + [p] == [p];
    AfterOne(DIGITS, prevWord, t, p);
    DigitsWays(prevWord, t, p);
    assert !In(t[p.at..][0], Digit);
  }

  // ------------------------------------------------------------ PREDICATE_PATTERN

  /** The raw value and the length used, against the third group and the end of the first way. */
  ghost predicate EqualsWay(ps: seq<Progress>, p: Progress, t: string, r: Option<(string, nat)>) {
    match r
    case None => ps == []
    case Some(v) =>
      && ps != [] && ps[0].at == p.at + v.1
      && 3 in ps[0].groups && Slice(t, ps[0].groups[3]) == v.0
      && ps[0].groups == p.groups[3 := ps[0].groups[3]]
  }

  lemma ValueNotOnSpace(prevWord: bool, t: string)
    ensures NotOn(Of(Space), Capture(3, VALUE), prevWord, t)
  {
    hide Ways, VALUE, Run, IndexOf;
    forall q: Progress | q.at < |t| && Fits(Of(Space), t[q.at])
      ensures Ways(Capture(3, VALUE), prevWord, t, q) == []
    {
      SpaceIsNoWord(t[q.at]);
      ValueWays(prevWord, t, q);
      NoLiteral(t[q.at..]);
      WaysCapture(3, VALUE, prevWord, t, q);
    }
  }

  lemma NoLiteral(u: string)
    requires u != "" && u[0] != '\'' && u[0] != '"' && u[0] != '-' && !IsDigit(u[0])
    ensures MatchLiteral(u) == 0
  {
  }

  lemma CaptureWay(group: nat, r: Rx, prevWord: bool, t: string, p: Progress, n: nat)
    requires p.at <= |t| && LengthWay(Ways(r, prevWord, t, p), p, n)
    ensures var ps := Ways(Capture(group, r), prevWord, t, p);
            if n == 0 then ps == [] else ps != [] && ps[0] == Named(group, p, n)
  {
    hide Ways;
    WaysCapture(group, r, prevWord, t, p);
  }

  lemma AfterEqualsWays(prevWord: bool, t: string, p: Progress)
    requires p.at <= |t|
    ensures var w := Run(Space, t[p.at..]);
            var n := MatchLiteral(t[p.at..][w..]);
            var ps := Ways(AFTER_EQUALS, prevWord, t, p);
            if n == 0 then ps == [] else ps != [] && ps[0] == Named(3, p.(at := p.at + w), n)
  {
    hide Ways, Run, VALUE, MatchLiteral, NotOn, LengthWay, Named;
    ValueNotOnSpace(prevWord, t);
    SpacesThen(0, Capture(3, VALUE), prevWord, t, p);
    var q := p.(at := p.at + Run(Space, t[p.at..]));
    assert t[p.at..][Run(Space, t[p.at..])..] == t[q.at..];
    ValueWays(prevWord, t, q);
    CaptureWay(3, VALUE, prevWord, t, q, MatchLiteral(t[q.at..]));
  }

  lemma UpToEquals(prevWord: bool, t: string, p: Progress)
    requires p.at <= |t|
    ensures var at := p.at + Run(Space, t[p.at..]);
            Ways(EQUALS, prevWord, t, p) == if at < |t| &&
                t[at] == '=' then Ways(AFTER_EQUALS, prevWord, t, p.(at := at + 1)) else []
  {
    hide Ways, Run, AFTER_EQUALS, NotOn;
    EqualsNotOnSpace(prevWord, t);
    SpacesThen(0, Cat(One(Is('=')), AFTER_EQUALS), prevWord, t, p);
    OneThen(Is('='), AFTER_EQUALS, prevWord, t, p.(at := p.at + Run(Space, t[p.at..])));
  }

  lemma EqualsWays(prevWord: bool, t: string, p: Progress)
    requires p.at <= |t|
    ensures EqualsWay(Ways(EQUALS, prevWord, t, p), p, t, MatchEquals(t[p.at..]))
  {
    hide Ways, Run, MatchLiteral, EQUALS, AFTER_EQUALS, EqualsWay, MatchEquals, Named;
    UpToEquals(prevWord, t, p);
    var u := t[p.at..];
    var w := Run(Space, u);
    if w < |u| && u[w] == '=' {
      var rest := u[w + 1..];
      var gap := Run(Space, rest);
      EqualsRead(u, w, rest, gap, MatchLiteral(rest[gap..]));
      assert rest == t[p.at + w + 1..];
      SignWay(prevWord, t, p, w, rest, gap);
    } else {
      NoEquals(u);
      NothingEquals(p, t);
    }
  }

  lemma SignWay(prevWord: bool, t: string, p: Progress, w: nat, rest: string, gap: nat)
    requires p.at + w + 1 <= |t| && rest == t[p.at + w + 1..] && gap == Run(Space, rest)
    requires Ways(EQUALS, prevWord, t, p) == Ways(AFTER_EQUALS, prevWord, t, p.(at := p.at + w + 1))
    requires var n := MatchLiteral(rest[gap..]);
             var start := w + 1 + gap;
             MatchEquals(t[p.at..]) == if n == 0 then None else Some((t[p.at..][start..start + n], start + n))
    ensures EqualsWay(Ways(EQUALS, prevWord, t, p), p, t, MatchEquals(t[p.at..]))
  {
    hide Ways, Run, MatchLiteral, EQUALS, AFTER_EQUALS, EqualsWay, MatchEquals, Named;
    AfterEqualsWays(prevWord, t, p.(at := p.at + w + 1));
    ReadEquals(t, p, Ways(EQUALS, prevWord, t, p), w + 1 + gap, MatchLiteral(rest[gap..]));
  }

  lemma NothingEquals(p: Progress, t: string)
    ensures EqualsWay([], p, t, None)
  {
  }

  lemma ReadEquals(t: string, p: Progress, ps: seq<Progress>, start: nat, n: nat)
    requires p.at <= |t| && p.at + start + n <= |t|
    requires MatchEquals(t[p.at..]) == if n == 0 then None else Some((t[p.at..][start..start + n], start + n))
    requires if n == 0 then ps == [] else ps != [] && ps[0] == Named(3, p.(at := p.at + start), n)
    ensures EqualsWay(ps, p, t, MatchEquals(t[p.at..]))
  {
    hide EqualsWay, Named, MatchEquals;
    if n == 0 {
      NothingEquals(p, t);
    } else {
      ValueRead(t, p, start, n, ps);
    }
  }

  lemma ValueRead(t: string, p: Progress, start: nat, n: nat, ps: seq<Progress>)
    requires p.at + start + n <= |t| && ps != [] && ps[0] == Named(3, p.(at := p.at + start), n)
    ensures EqualsWay(ps, p, t, Some((t[p.at..][start..start + n], start + n)))
  {
    assert t[p.at..][start..start + n] == t[p.at + start..p.at + start + n];
  }

  lemma EqualsNotOnSpace(prevWord: bool, t: string)
    ensures NotOn(Of(Space), Cat(One(Is('=')), AFTER_EQUALS), prevWord, t)
  {
    hide Ways, VALUE;
    forall q: Progress | q.at < |t| && Fits(Of(Space), t[q.at])
      ensures Ways(Cat(One(Is('=')), AFTER_EQUALS), prevWord, t, q) == []
    {
      SpaceIsNoWord(t[q.at]);
      OneThen(Is('='), AFTER_EQUALS, prevWord, t, q);
    }
  }

  lemma EqualsNotOnWord(prevWord: bool, t: string)
    ensures NotOn(Of(Word), EQUALS, prevWord, t)
  {
    hide Ways, EQUALS, Run;
    forall q: Progress | q.at < |t| && Fits(Of(Word), t[q.at])
      ensures Ways(EQUALS, prevWord, t, q) == []
    {
      EqualsWays(prevWord, t, q);
      WordNoEquals(t[q.at..]);
    }
  }

  lemma WordNoEquals(u: string)
    requires u != "" && IsWord(u[0])
    ensures MatchEquals(u) == None
  {
  }

  /** The first way of the column part, against what the matcher reads. */
  ghost predicate ColumnWay(ps: seq<Progress>, p: Progress, t: string, r: Option<(string, string, nat)>) {
    match r
    case None => ps == []
    case Some(c) =>
      && ps != [] && ps[0].at == p.at + c.2
      && 2 in ps[0].groups && Slice(t, ps[0].groups[2]) == c.0
      && 3 in ps[0].groups && Slice(t, ps[0].groups[3]) == c.1
      && Group(t, ps[0], 1) == Group(t, p, 1)
  }

  lemma ColumnWays(prevWord: bool, t: string, p: Progress)
    requires p.at <= |t|
    ensures ColumnWay(Ways(COLUMN, prevWord, t, p), p, t, MatchColumn(t[p.at..]))
  {
    hide Ways, Run, IDENT, EQUALS, MatchEquals, NotOn, IdentAt;
    EqualsNotOnWord(prevWord, t);
    NamedThen(2, EQUALS, prevWord, t, p);
    if IdentAt(t[p.at..]) {
      var n := Run(Word, t[p.at..]);
      assert t[p.at..][n..] == t[p.at + n..];
      assert t[p.at..][..n] == t[p.at..p.at + n];
      EqualsWays(prevWord, t, Named(2, p, n));
    }
  }

  lemma DotNotOnWord(prevWord: bool, t: string)
    ensures NotOn(Of(Word), One(Is('.')), prevWord, t)
  {
  }

  lemma QualifierWays(prevWord: bool, t: string, p: Progress)
    requires p.at <= |t|
    ensures var n := Run(Word, t[p.at..]);
            Ways(QUALIFIER, prevWord, t, p) ==
            (if IdentAt(t[p.at..]) && p.at + n < |t| &&
                t[p.at + n] == '.' then [Progress(p.at + n + 1, p.groups[1 := (p.at, p.at + n)])] else [])
  {
    hide Ways, Run, IDENT, IdentAt, NotOn;
    DotNotOnWord(prevWord, t);
    NamedThen(1, One(Is('.')), prevWord, t, p);
    if IdentAt(t[p.at..]) {
      WaysOne(Is('.'), prevWord, t, Named(1, p, Run(Word, t[p.at..])));
    }
  }

  lemma DotNoColumn(u: string)
    requires IdentAt(u) && Run(Word, u) < |u| && u[Run(Word, u)] == '.'
    ensures MatchColumn(u) == None
  {
    var n := Run(Word, u);
    assert Run(Space, u[n..]) == 0;
  }

  /** The ways of the whole pattern: those after a qualifier, then those without one. */
  lemma PredicateSplit(prevWord: bool, t: string)
    ensures var start := Progress(0, map[]);
            Ways(PREDICATE_PATTERN, prevWord, t, start) ==
            After(COLUMN, prevWord, t, Ways(QUALIFIER, prevWord, t, start)) + Ways(COLUMN, prevWord, t, start)
  {
    hide Ways, COLUMN, QUALIFIER, After;
    var start := Progress(0, map[]);
    WaysCat(Maybe(QUALIFIER), COLUMN, prevWord, t, start);
    WaysMaybe(QUALIFIER, prevWord, t, start);
    AfterSplit(COLUMN, prevWord, t, Ways(QUALIFIER, prevWord, t, start), start);
  }

  lemma QualifiedFirst(prevWord: bool, t: string)
    requires IdentAt(t) && Run(Word, t) < |t| && t[Run(Word, t)] == '.'
    ensures var n := Run(Word, t);
            var q := Progress(n + 1, map[1 := (0, n)]);
            Ways(PREDICATE_PATTERN, prevWord, t, Progress(0, map[])) == Ways(COLUMN, prevWord, t, q)
  {
    hide Ways, Run, COLUMN, QUALIFIER, PREDICATE_PATTERN, IdentAt, MatchColumn;
    var start := Progress(0, map[]);
    assert t[0..] == t;
    PredicateSplit(prevWord, t);
    QualifierWays(prevWord, t, start);
    ColumnWays(prevWord, t, start);
    DotNoColumn(t);
    AfterOne(COLUMN, prevWord, t, Progress(Run(Word, t) + 1, map[1 := (0, Run(Word, t))]));
  }

  lemma UnqualifiedFirst(prevWord: bool, t: string)
    requires !(IdentAt(t) && Run(Word, t) < |t| && t[Run(Word, t)] == '.')
    ensures Ways(PREDICATE_PATTERN, prevWord, t, Progress(0, map[])) == Ways(COLUMN, prevWord, t, Progress(0, map[]))
  {
    hide Ways, Run, COLUMN, QUALIFIER, PREDICATE_PATTERN, IdentAt;
    var start := Progress(0, map[]);
    assert t[0..] == t;
    PredicateSplit(prevWord, t);
    QualifierWays(prevWord, t, start);
    AfterNothing(COLUMN, prevWord, t);
  }

  /**
   The predicate matcher finds what a backtracking matcher of the declared pattern finds first, whose third group is a
   literal.
   */
  lemma PredicatePatternExact(prevWord: bool, t: string)
    ensures MatchPredicate(t) == ReadPredicate(t, FirstWay(PREDICATE_PATTERN, prevWord, t))
    ensures MatchPredicate(t).None? <==> FirstWay(PREDICATE_PATTERN, prevWord, t).None?
    ensures MatchPredicate(t).Some? ==>
              var raw := Group(t, FirstWay(PREDICATE_PATTERN, prevWord, t).value, 3);
              raw.Some? && IsLiteral(raw.value)
  {
    hide Ways, Run, COLUMN, PREDICATE_PATTERN, IdentAt, MatchColumn, NormalizeValue, IsLiteral;
    assert t[0..] == t;
    var n := Run(Word, t);
    if IdentAt(t) && n < |t| && t[n] == '.' {
      QualifiedFirst(prevWord, t);
      ColumnWays(prevWord, t, Progress(n + 1, map[1 := (0, n)]));
      ColumnLiteral(t[n + 1..]);
    } else {
      UnqualifiedFirst(prevWord, t);
      ColumnWays(prevWord, t, Progress(0, map[]));
      ColumnLiteral(t);
    }
  }

  // ------------------------------------------------------------ LIMIT_PATTERN

  lemma BoundaryAfterDigit(prevWord: bool, t: string, p: Progress)
    requires 0 < p.at <= |t| && IsDigit(t[p.at - 1])
    ensures Ways(Boundary, prevWord, t, p) == if AtBoundary(t[p.at..]) then [p] else []
  {
    WaysBoundary(prevWord, t, p);
  }

  /** `b` cannot start between two digits. */
  ghost predicate NotInNumber(b: Rx, prevWord: bool, t: string) {
    forall q: Progress :: 0 < q.at < |t| && IsDigit(t[q.at - 1]) && IsDigit(t[q.at]) ==> Ways(b, prevWord, t, q) == []
  }

  lemma NumberInside(group: nat, t: string, p: Progress)
    requires p.at <= |t|
    ensures forall q :: q in Shorter(group, p, Run(Digit, t[p.at..])) ==>
          p.at < q.at < |t| && IsDigit(t[q.at - 1]) && IsDigit(t[q.at])
  {
    hide Run, Shorter;
    var u := t[p.at..];
    ShorterEnds(group, p, Run(Digit, u));
    forall q | q in Shorter(group, p, Run(Digit, u))
      ensures p.at < q.at < |t| && IsDigit(t[q.at - 1]) && IsDigit(t[q.at])
    {
      assert In(u[q.at - p.at - 1], Digit) && In(u[q.at - p.at], Digit);
    }
  }

  lemma WaysNumber(group: nat, prevWord: bool, t: string, p: Progress)
    requires p.at <= |t|
    ensures var d := Run(Digit, t[p.at..]);
            Ways(Capture(group, DIGITS), prevWord, t, p) == if d == 0 then []
                else [Named(group, p, d)] + Shorter(group, p, d)
  {
    hide Ways, Run, RunOf, Down, Captured, Shorter, Named;
    var d := Run(Digit, t[p.at..]);
    WaysMany(Of(Digit), 1, prevWord, t, p);
    RunOfClass(Digit, t, p.at);
    WaysCapture(group, DIGITS, prevWord, t, p);
    if d == 0 {
      assert |Captured(group, p.at, [])| == 0;
    } else {
      DownFirst(p, d);
      NamedDown(group, p, d);
    }
  }

  lemma InnerStuck(group: nat, b: Rx, prevWord: bool, t: string, p: Progress)
    requires p.at <= |t| && NotInNumber(b, prevWord, t)
    ensures Stuck(b, prevWord, t, Shorter(group, p, Run(Digit, t[p.at..])))
  {
    hide Ways, Run, Shorter;
    NumberInside(group, t, p);
  }

  /** A digit run that may not stop in the middle. */
  lemma DigitsThen(group: nat, b: Rx, prevWord: bool, t: string, p: Progress)
    requires p.at <= |t| && NotInNumber(b, prevWord, t)
    ensures var d := Run(Digit, t[p.at..]);
            After(b, prevWord, t, Ways(Capture(group, DIGITS), prevWord, t, p)) == if d == 0 then []
                else Ways(b, prevWord, t, Named(group, p, d))
  {
    hide Ways, Run, DIGITS, Shorter, NotInNumber, Stuck;
    WaysNumber(group, prevWord, t, p);
    InnerStuck(group, b, prevWord, t, p);
    var d := Run(Digit, t[p.at..]);
    if d == 0 {
      AfterNothing(b, prevWord, t);
    } else {
      NumberInside(group, t, p);
      AfterFirst(b, prevWord, t, Named(group, p, d), Shorter(group, p, d));
    }
  }

  lemma DigitsNotOnSpace(prevWord: bool, t: string)
    ensures NotOn(Of(Space), Capture(2, DIGITS), prevWord, t)
    ensures NotOn(Of(Space), Cat(One(Is(',')), SECOND), prevWord, t)
  {
    hide Ways, SECOND, DIGITS;
    forall q: Progress | q.at < |t| && Fits(Of(Space), t[q.at])
      ensures Ways(Capture(2, DIGITS), prevWord, t, q) == []
      ensures Ways(Cat(One(Is(',')), SECOND), prevWord, t, q) == []
    {
      SpaceIsNoWord(t[q.at]);
      DigitsWays(prevWord, t, q);
      assert Run(Digit, t[q.at..]) == 0;
      CaptureWay(2, DIGITS, prevWord, t, q, 0);
      OneThen(Is(','), SECOND, prevWord, t, q);
    }
  }

  /** Where the second number would start, if a comma comes first. */
  lemma TailWays(prevWord: bool, t: string, p: Progress)
    requires p.at <= |t|
    ensures var at := p.at + Run(Space, t[p.at..]);
            Ways(LIMIT_TAIL, prevWord, t, p) ==
            if at < |t| && t[at] == ',' then
              Ways(Capture(2, DIGITS), prevWord, t, p.(at := at + 1 + Run(Space, t[at + 1..])))
            else []
  {
    hide Ways, Run, DIGITS, NotOn;
    DigitsNotOnSpace(prevWord, t);
    SpacesThen(0, Cat(One(Is(',')), SECOND), prevWord, t, p);
    var q := p.(at := p.at + Run(Space, t[p.at..]));
    OneThen(Is(','), SECOND, prevWord, t, q);
    if q.at < |t| && t[q.at] == ',' {
      SpacesThen(0, Capture(2, DIGITS), prevWord, t, q.(at := q.at + 1));
    }
  }

  lemma BoundaryInside(prevWord: bool, t: string)
    ensures NotInNumber(Boundary, prevWord, t)
  {
    hide Ways;
    forall q: Progress | 0 < q.at < |t| && IsDigit(t[q.at - 1]) && IsDigit(t[q.at])
      ensures Ways(Boundary, prevWord, t, q) == []
    {
      WaysBoundary(prevWord, t, q);
    }
  }

  /** The end of the second group, against what the matcher reads. */
  ghost predicate TailWay(ps: seq<Progress>, p: Progress, t: string, r: Option<string>) {
    match r
    case None => ps == []
    case Some(second) =>
      && ps != [] && 2 in ps[0].groups
      && Slice(t, ps[0].groups[2]) == second && ps[0].groups == p.groups[2 := ps[0].groups[2]]
  }

  /** The optional second number with the boundary after it. */
  lemma BoundedTail(prevWord: bool, t: string, p: Progress)
    requires p.at <= |t|
    ensures TailWay(After(Boundary, prevWord, t, Ways(LIMIT_TAIL, prevWord, t, p)), p, t, MatchLimitTail(t[p.at..]))
  {
    hide Ways, Run, DIGITS, LIMIT_TAIL, After, BoundedDigits;
    TailWays(prevWord, t, p);
    var u := t[p.at..];
    var w := Run(Space, u);
    if w < |u| && u[w] == ',' {
      assert u[w..][1..] == t[p.at + w + 1..];
      BoundedNumber(prevWord, t, p.(at := p.at + w + 1));
    } else {
      AfterNothing(Boundary, prevWord, t);
    }
  }

  lemma BoundedNumber(prevWord: bool, t: string, p: Progress)
    requires p.at <= |t|
    ensures var q := p.(at := p.at + Run(Space, t[p.at..]));
            TailWay(After(Boundary, prevWord, t, Ways(Capture(2, DIGITS), prevWord, t, q)), p, t,
                BoundedDigits(t[p.at..]))
  {
    hide Ways, Run, DIGITS, After, AtBoundary, IsDigits;
    var w := Run(Space, t[p.at..]);
    var q := p.(at := p.at + w);
    assert t[p.at..][w..] == t[q.at..];
    NumberThenBoundary(prevWord, t, q);
  }

  lemma NumberThenBoundary(prevWord: bool, t: string, q: Progress)
    requires q.at <= |t|
    ensures var d := Run(Digit, t[q.at..]);
            After(Boundary, prevWord, t, Ways(Capture(2, DIGITS), prevWord, t, q)) ==
            if d == 0 || !AtBoundary(t[q.at..][d..]) then [] else [Named(2, q, d)]
    ensures var d := Run(Digit, t[q.at..]);
            t[q.at..][..d] == t[q.at..q.at + d]
  {
    hide Ways, Run, DIGITS, After, AtBoundary;
    BoundaryInside(prevWord, t);
    DigitsThen(2, Boundary, prevWord, t, q);
    var d := Run(Digit, t[q.at..]);
    if d > 0 {
      assert In(t[q.at..][d - 1], Digit);
      assert t[q.at..][d..] == t[q.at + d..];
      BoundaryAfterDigit(prevWord, t, Named(2, q, d));
    }
  }

  lemma RestSplit(prevWord: bool, t: string, p: Progress)
    requires p.at <= |t|
    ensures Ways(REST, prevWord, t, p)
         == After(Boundary, prevWord, t, Ways(LIMIT_TAIL, prevWord, t, p)) + Ways(Boundary, prevWord, t, p)
  {
    hide Ways, LIMIT_TAIL, After;
    WaysCat(Maybe(LIMIT_TAIL), Boundary, prevWord, t, p);
    WaysMaybe(LIMIT_TAIL, prevWord, t, p);
    AfterSplit(Boundary, prevWord, t, Ways(LIMIT_TAIL, prevWord, t, p), p);
  }

  lemma RestInside(prevWord: bool, t: string)
    ensures NotInNumber(REST, prevWord, t)
  {
    hide Ways, LIMIT_TAIL, REST, After;
    BoundaryInside(prevWord, t);
    forall q: Progress | 0 < q.at < |t| && IsDigit(t[q.at - 1]) && IsDigit(t[q.at])
      ensures Ways(REST, prevWord, t, q) == []
    {
      RestSplit(prevWord, t, q);
      BoundedTail(prevWord, t, q);
      DigitNoTail(t[q.at..]);
    }
  }

  lemma DigitNoTail(u: string)
    requires u != "" && IsDigit(u[0])
    ensures MatchLimitTail(u) == None
  {
  }

  /** The numbers after the blanks, against what the matcher reads. */
  ghost predicate NumbersWay(ps: seq<Progress>, p: Progress, t: string, r: Option<LimitMatch>) {
    match r
    case None => ps == []
    case Some(m) => ps != [] && Group(t, ps[0], 1) == Some(m.first) && (2 !in p.groups ==>
        Group(t, ps[0], 2) == m.second)
  }

  lemma NumbersWays(prevWord: bool, t: string, p: Progress)
    requires p.at <= |t|
    ensures NumbersWay(Ways(Cat(Capture(1, DIGITS), REST), prevWord, t, p), p, t, MatchLimitNumbers(t[p.at..]))
  {
    hide Ways, Run, DIGITS, REST, After, AtBoundary, MatchLimitTail, LIMIT_TAIL, NotInNumber;
    WaysCat(Capture(1, DIGITS), REST, prevWord, t, p);
    RestInside(prevWord, t);
    DigitsThen(1, REST, prevWord, t, p);
    var d := Run(Digit, t[p.at..]);
    if d > 0 {
      var q := Named(1, p, d);
      assert t[p.at..][d..] == t[q.at..] && t[p.at..][..d] == t[p.at..q.at];
      RestSplit(prevWord, t, q);
      BoundedTail(prevWord, t, q);
      assert In(t[p.at..][d - 1], Digit);
      BoundaryAfterDigit(prevWord, t, q);
    }
  }

  lemma NumbersNotOnSpace(prevWord: bool, t: string)
    ensures NotOn(Of(Space), Cat(Capture(1, DIGITS), REST), prevWord, t)
  {
    hide Ways, REST, DIGITS, MatchLimitTail;
    forall q: Progress | q.at < |t| && Fits(Of(Space), t[q.at])
      ensures Ways(Cat(Capture(1, DIGITS), REST), prevWord, t, q) == []
    {
      SpaceIsNoWord(t[q.at]);
      assert Run(Digit, t[q.at..]) == 0;
      NumbersWays(prevWord, t, q);
    }
  }

  /** The limit matcher finds what a backtracking matcher of the declared pattern finds first. */
  lemma LimitPatternExact(prevWord: bool, t: string)
    ensures MatchLimit(prevWord, t) == ReadLimit(t, FirstWay(LIMIT_PATTERN, prevWord, t))
    ensures MatchLimit(prevWord, t).None? <==> FirstWay(LIMIT_PATTERN, prevWord, t).None?
  {
    hide Ways, Run, REST, DIGITS, MatchLimitNumbers, NotOn;
    var start := Progress(0, map[]);
    assert t[0..] == t;
    var numbers := Cat(Capture(1, DIGITS), REST);
    BoundaryThen(Cat(Letters("limit"), Cat(SPACES, numbers)), prevWord, t, start);
    LettersThen("limit", Cat(SPACES, numbers), prevWord, t, start);
    if HasKeyword(t, "limit") {
      assert LowerChar(t[0]) == 'l';
      NumbersNotOnSpace(prevWord, t);
      SpacesThen(1, numbers, prevWord, t, Progress(5, map[]));
      var w := Run(Space, t[5..]);
      assert t[5..][w..] == t[5 + w..];
      NumbersWays(prevWord, t, Progress(5 + w, map[]));
    }
  }
}
