/**
 What replacing one name does to the predicates of a text: those behind it move, and only those that
 hold it can change.
 */
module PredicateToken {
  import opened Wrappers
  import opened Text
  import opened SqlParser

  // ------------------------------------------------------------ one token replaced

  /** Text before a token: nothing, or something that ends in a blank. */
  predicate Before(h: string) {
    h == "" || IsSpace(h[|h| - 1])
  }

  /** Positions behind a token move with it, those before it stay; `h`, `x` and `y` are lengths. */
  predicate MovedEnd(n: nat, n': nat, h: nat, x: nat, y: nat) {
    (n <= h && n' == n) || (n >= h + x && n' == n - x + y)
  }

  predicate AllWord(w: string) {
    forall i :: 0 <= i < |w| ==> IsWord(w[i])
  }

  lemma IdentsAreWords(x: string)
    requires IsIdent(x)
    ensures x != "" && IsWord(x[0]) && AllWord(x)
  {
  }

  lemma RunFront(k: CharClass, h: string, rest: string)
    requires Run(k, h) < |h| || rest == "" || !In(rest[0], k)
    ensures Run(k, h + rest) == Run(k, h)
  {
    hide In;
    var t := h + rest;
    assert forall i :: 0 <= i < |h| ==> t[i] == h[i];
    RunIs(k, t, Run(k, h));
  }

  lemma BlankEnds(h: string)
    requires h != "" && Before(h)
    ensures Run(Word, h) < |h| && Run(Digit, h) < |h|
  {
    hide Run;
    assert !In(h[|h| - 1], Word) && !In(h[|h| - 1], Digit);
  }

  lemma {:induction false} IndexAcross(c: char, u: string, x: string, tail: string)
    requires c !in x
    ensures IndexOf(c, u + x + tail) == if IndexOf(c, u) < |u| then IndexOf(c, u) else |u| + |x| + IndexOf(c, tail)
    decreases |u| + |x|
  {
    if u != "" {
      assert (u + x + tail)[1..] == u[1..] + x + tail;
      IndexAcross(c, u[1..], x, tail);
    } else if x != "" {
      assert (u + x + tail)[1..] == u + x[1..] + tail;
      IndexAcross(c, u, x[1..], tail);
    } else {
      assert u + x + tail == tail;
    }
  }

  /** A quoted literal that starts in `l` ends in `l` or behind the token. */
  lemma QuotedAcross(l: string, x: string, tail: string)
    requires l != "" && (l[0] == '\'' || l[0] == '"') && IsIdent(x)
    ensures MatchLiteral(l + x + tail) ==
            if IndexOf(l[0], l[1..]) < |l| - 1 then IndexOf(l[0], l[1..]) + 2
            else if IndexOf(l[0], tail) < |tail| then |l| + |x| + IndexOf(l[0], tail) + 1
            else 0
  {
    NoQuote(l[0], x);
    QuotedIs(l + x + tail);
    hide IndexOf, MatchLiteral, IsIdent;
    assert (l + x + tail)[1..] == l[1..] + x + tail;
    IndexAcross(l[0], l[1..], x, tail);
  }

  lemma NoQuote(c: char, x: string)
    requires !IsWord(c) && IsIdent(x)
    ensures c !in x
  {
  }

  lemma QuotedIs(t: string)
    requires t != "" && (t[0] == '\'' || t[0] == '"')
    ensures var close := IndexOf(t[0], t[1..]); MatchLiteral(t) == if close < |t| - 1 then close + 2 else 0
  {
    hide IndexOf, Run;
  }

  /** Any other literal is over before the token. */
  lemma NumberAcross(l: string, x: string, tail: string)
    requires Before(l) && IsIdent(x) && (l != "" ==> l[0] != '\'' && l[0] != '"')
    ensures MatchLiteral(l + x + tail) == MatchLiteral(l)
  {
    var t := l + x + tail;
    if l == "" {
      RunIs(Digit, t, 0);
    } else {
      hide Run, IsIdent;
      BlankEnds(l);
      assert t == l + (x + tail);
      RunFront(Digit, l, x + tail);
      if l[0] == '-' {
        assert l[1..] != "" && t[1..] == l[1..] + (x + tail);
        BlankEnds(l[1..]);
        RunFront(Digit, l[1..], x + tail);
      }
    }
  }

  lemma LiteralKept(l: string, x: string, y: string, tail: string)
    requires Before(l) && IsIdent(x) && IsIdent(y)
    ensures var n, n' := MatchLiteral(l + (x + tail)), MatchLiteral(l + (y + tail));
            MovedEnd(n, n', |l|, |x|, |y|) && (n == 0 <==> n' == 0)
  {
    assert l + (x + tail) == l + x + tail && l + (y + tail) == l + y + tail;
    if l != "" && (l[0] == '\'' || l[0] == '"') {
      QuotedAcross(l, x, tail);
      QuotedAcross(l, y, tail);
      hide MatchLiteral, IsIdent, IndexOf;
    } else {
      NumberAcross(l, x, tail);
      NumberAcross(l, y, tail);
      hide MatchLiteral, IsIdent;
    }
  }

  /** Both fail, or both end together and what was read before the token is the same. */
  predicate EqualsKept(a: Option<(string, nat)>, b: Option<(string, nat)>, h: nat, x: nat, y: nat) {
    match (a, b)
    case (None, None) => true
    case (Some(v), Some(w)) => MovedEnd(v.1, w.1, h, x, y) && (v.1 <= h ==> w == v)
    case _ => false
  }

  /** `MatchEquals` reads `n` characters from `start` on, if any. */
  ghost predicate EqualsReads(u: string, start: nat, n: nat) {
    start + n <= |u| && MatchEquals(u) == if n == 0 then None else Some((u[start..start + n], start + n))
  }

  /** Where the value starts if the text before the token holds the sign, else nothing. */
  function ValueStart(h: string): Option<nat> {
    var w := Run(Space, h);
    if w == |h| || h[w] != '=' then None else Some(w + 1 + Run(Space, h[w + 1..]))
  }

  lemma ValueInside(h: string)
    ensures ValueStart(h).Some? ==> ValueStart(h).value <= |h|
  {
  }

  /** `MatchEquals` on the text before the token and `r`, the token and what follows. */
  lemma EqualsUnfold(h: string, r: string)
    requires h != "" && r != "" && IsWord(r[0])
    ensures match ValueStart(h)
            case None => MatchEquals(h + r) == None
            case Some(start) => start <= |h| && EqualsReads(h + r, start, MatchLiteral(h[start..] + r))
  {
    hide Run, MatchLiteral, IsWord, MatchEquals, EqualsReads, ValueStart;
    if ValueStart(h) == None {
      NoSign(h, r);
    } else {
      ValueInside(h);
      SomeSign(h, r);
    }
  }

  lemma NoSign(h: string, r: string)
    requires r != "" && IsWord(r[0]) && ValueStart(h) == None
    ensures MatchEquals(h + r) == None
  {
    BlanksAcross(h, r);
    hide Run, MatchLiteral, IsWord, MatchEquals;
    var w := Run(Space, h);
    assert (h + r)[w] == if w == |h| then r[0] else h[w];
    NoEquals(h + r);
  }

  lemma SomeSign(h: string, r: string)
    requires r != "" && IsWord(r[0]) && ValueStart(h).Some? && ValueStart(h).value <= |h|
    ensures EqualsReads(h + r, ValueStart(h).value, MatchLiteral(h[ValueStart(h).value..] + r))
  {
    hide Run, MatchLiteral, IsWord, MatchEquals, EqualsReads;
    var w := Run(Space, h);
    SignRead(h, r, w, Run(Space, h[w + 1..]));
  }

  lemma SignRead(h: string, r: string, w: nat, v: nat)
    requires r != "" && IsWord(r[0]) && w == Run(Space, h) < |h| && h[w] == '=' && v == Run(Space, h[w + 1..])
    ensures EqualsReads(h + r, w + 1 + v, MatchLiteral(h[w + 1 + v..] + r))
  {
    BlanksAcross(h, r);
    BlanksAcross(h[w + 1..], r);
    hide Run, MatchLiteral, IsWord, MatchEquals, EqualsReads;
    DropFront(h, r, w);
    DropFront(h, r, w + v);
    EqualsAt(h + r, w, v, h[w + 1..] + r, h[w + 1 + v..] + r);
  }

  lemma DropFront(h: string, r: string, w: nat)
    requires w < |h|
    ensures (h + r)[w] == h[w] && (h + r)[w + 1..] == h[w + 1..] + r
  {
  }

  lemma EqualsAt(u: string, w: nat, v: nat, rest: string, value: string)
    requires w < |u| && w == Run(Space, u) && u[w] == '='
    requires u[w + 1..] == rest && v == Run(Space, rest) && w + 1 + v <= |u| && u[w + 1 + v..] == value
    ensures EqualsReads(u, w + 1 + v, MatchLiteral(value))
  {
    hide Run, MatchLiteral;
  }

  lemma BlanksAcross(h: string, r: string)
    requires r != "" && IsWord(r[0])
    ensures Run(Space, h + r) == Run(Space, h) && r[0] != '='
  {
    RunFront(Space, h, r);
  }

  lemma TailSlice(h: string, x: string, tail: string, n: nat)
    requires n <= |h|
    ensures (h + x + tail)[n..] == h[n..] + x + tail
  {
  }

  lemma EqualsAcross(h: string, x: string, y: string, tail: string)
    requires h != "" && Before(h) && IsIdent(x) && IsIdent(y)
    ensures EqualsKept(MatchEquals(h + (x + tail)), MatchEquals(h + (y + tail)), |h|, |x|, |y|)
  {
    IdentsAreWords(x);
    IdentsAreWords(y);
    EqualsUnfold(h, x + tail);
    EqualsUnfold(h, y + tail);
    hide MatchLiteral, MatchEquals, IsIdent, EqualsKept, MovedEnd, IsWord, IsSpace, ValueStart, EqualsReads;
    match ValueStart(h) {
      case None => NoneKept(|h|, |x|, |y|);
      case Some(start) =>
        BeforeDrop(h, start);
        LiteralKept(h[start..], x, y, tail);
        EqualsPair(h, x, y, tail, start, MatchLiteral(h[start..] + (x + tail)), MatchLiteral(h[start..] + (y + tail)));
    }
  }

  lemma BeforeDrop(h: string, n: nat)
    requires Before(h) && n <= |h|
    ensures Before(h[n..])
  {
  }

  lemma NoneKept(h: nat, x: nat, y: nat)
    ensures EqualsKept(None, None, h, x, y)
  {
  }

  lemma EqualsPair(h: string, x: string, y: string, tail: string, start: nat, n: nat, n': nat)
    requires start <= |h| && x != "" && EqualsReads(h + (x + tail), start, n) && EqualsReads(h + (y + tail), start, n')
    requires MovedEnd(n, n', |h| - start, |x|, |y|) && (n == 0 <==> n' == 0)
    ensures EqualsKept(MatchEquals(h + (x + tail)), MatchEquals(h + (y + tail)), |h|, |x|, |y|)
  {
    hide MatchEquals;
    if start + n <= |h| {
      assert (h + (x + tail))[start..start + n] == h[start..start + n] == (h + (y + tail))[start..start + n];
    }
  }

  predicate ColumnKept(a: Option<(string, string, nat)>, b: Option<(string, string, nat)>, h: nat, x: nat, y: nat) {
    match (a, b)
    case (None, None) => true
    case (Some(v), Some(w)) => MovedEnd(v.2, w.2, h, x, y) && (v.2 <= h ==> w == v)
    case _ => false
  }

  lemma NameRun(x: string, tail: string)
    requires x != "" && AllWord(x) && AtBoundary(tail)
    ensures Run(Word, x + tail) == |x| && (x + tail)[0] == x[0]
    ensures (x + tail)[|x|..] == tail && (x + tail)[..|x|] == x
  {
    assert forall i :: 0 <= i < |x| ==> (x + tail)[i] == x[i];
    RunIs(Word, x + tail, |x|);
  }

  lemma ColumnAcross(h: string, x: string, y: string, tail: string)
    requires Before(h) && IsIdent(x) && IsIdent(y) && AtBoundary(tail)
    ensures ColumnKept(MatchColumn(h + x + tail), MatchColumn(h + y + tail), |h|, |x|, |y|)
  {
    hide IsIdent, MatchColumn, ColumnKept, AtBoundary, Before;
    if h == "" {
      ColumnAtToken(x, y, tail);
      assert h + x + tail == x + tail && h + y + tail == y + tail;
    } else {
      ColumnBefore(h, x, y, tail);
      assert h + x + tail == h + (x + tail) && h + y + tail == h + (y + tail);
    }
  }

  lemma ColumnAtToken(x: string, y: string, tail: string)
    requires IsIdent(x) && IsIdent(y) && AtBoundary(tail)
    ensures ColumnKept(MatchColumn(x + tail), MatchColumn(y + tail), 0, |x|, |y|)
  {
    hide IsIdent, MatchColumn, MatchEquals;
    IdentsAreWords(x);
    ColumnNamed(x, tail);
    ColumnNamed(y, tail);
  }

  lemma ColumnBefore(h: string, x: string, y: string, tail: string)
    requires h != "" && Before(h) && IsIdent(x) && IsIdent(y)
    ensures ColumnKept(MatchColumn(h + (x + tail)), MatchColumn(h + (y + tail)), |h|, |x|, |y|)
  {
    IdentsAreWords(x);
    BlankEnds(h);
    BeforeDrop(h, Run(Word, h));
    ColumnFront(h, x + tail);
    ColumnFront(h, y + tail);
    hide Run, MatchColumn, MatchEquals, Before, IsIdent;
    EqualsAcross(h[Run(Word, h)..], x, y, tail);
  }

  lemma ColumnNamed(x: string, tail: string)
    requires IsIdent(x) && AtBoundary(tail)
    ensures MatchColumn(x + tail) ==
            match MatchEquals(tail)
            case None => None
            case Some(v) => Some((x, v.0, |x| + v.1))
  {
    IdentsAreWords(x);
    NameRun(x, tail);
    NameSlices(x, tail);
    hide Run, MatchEquals, IsIdent, MatchColumn;
    ColumnIs(x + tail, |x|, x, tail);
  }

  lemma NameSlices(x: string, tail: string)
    requires x != "" && IsIdent(x)
    ensures (x + tail)[|x|..] == tail && (x + tail)[..|x|] == x && IdentAt(x + tail)
    ensures tail != "" ==> (x + tail)[|x|] == tail[0] && (x + tail)[|x| + 1..] == tail[1..]
  {
  }

  lemma ColumnFront(h: string, r: string)
    requires h != "" && Run(Word, h) < |h|
    ensures var n := Run(Word, h);
            MatchColumn(h + r) ==
            if !IdentAt(h) then None
            else match MatchEquals(h[n..] + r)
                 case None => None
                 case Some(v) => Some((h[..n], v.0, n + v.1))
  {
    hide Run, MatchEquals, MatchColumn;
    RunFront(Word, h, r);
    var n := Run(Word, h);
    HeadKept(h, r, n);
    ColumnIs(h + r, n, h[..n], h[n..] + r);
  }

  lemma HeadKept(h: string, r: string, n: nat)
    requires h != "" && n <= |h|
    ensures (h + r)[n..] == h[n..] + r && (h + r)[..n] == h[..n] && IdentAt(h + r) == IdentAt(h)
  {
  }

  lemma ColumnIs(t: string, n: nat, name: string, rest: string)
    requires n == Run(Word, t) && t[..n] == name && t[n..] == rest
    ensures MatchColumn(t) ==
            if !IdentAt(t) then None
            else match MatchEquals(rest)
                 case None => None
                 case Some(v) => Some((name, v.0, n + v.1))
  {
    hide Run, MatchEquals;
  }

  predicate PredicateKept(a: Option<(ParsedPredicate, nat)>, b: Option<(ParsedPredicate, nat)>, h: nat, x: nat,
                          y: nat) {
    match (a, b)
    case (None, None) => true
    case (Some(v), Some(w)) => MovedEnd(v.1, w.1, h, x, y) && (v.1 <= h ==> w == v)
    case _ => false
  }

  /** The predicate that a column part makes behind a qualifier of length `n`, and without one. */
  function WithQualifier(name: string, n: nat, c: Option<(string, string, nat)>): Option<(ParsedPredicate, nat)> {
    match c
    case None => None
    case Some(v) => Some((ParsedPredicate(Some(name), v.0, NormalizeValue(v.1)), n + 1 + v.2))
  }

  function WithoutQualifier(c: Option<(string, string, nat)>): Option<(ParsedPredicate, nat)> {
    match c
    case None => None
    case Some(v) => Some((ParsedPredicate(None, v.0, NormalizeValue(v.1)), v.2))
  }

  lemma PredicateAcross(h: string, x: string, y: string, tail: string)
    requires Before(h) && IsIdent(x) && IsIdent(y) && AtBoundary(tail)
    ensures PredicateKept(MatchPredicate(h + x + tail), MatchPredicate(h + y + tail), |h|, |x|, |y|)
  {
    hide Run, MatchColumn, IsIdent, NormalizeValue, MatchPredicate, AtBoundary;
    if h == "" {
      assert h + x + tail == x + tail && h + y + tail == y + tail;
      PredicateAtToken(x, y, tail);
    } else {
      BlankEnds(h);
      hide PredicateKept, Before;
      if h[Run(Word, h)] == '.' {
        PredicateDotted(h, x, y, tail);
      } else {
        PredicatePlain(h, x, y, tail);
      }
    }
  }

  lemma PredicateDotted(h: string, x: string, y: string, tail: string)
    requires h != "" && Before(h) && IsIdent(x) && IsIdent(y) && AtBoundary(tail)
    requires Run(Word, h) < |h| && h[Run(Word, h)] == '.'
    ensures PredicateKept(MatchPredicate(h + x + tail), MatchPredicate(h + y + tail), |h|, |x|, |y|)
  {
    var n := Run(Word, h);
    hide Run, MatchColumn, IsIdent, NormalizeValue, MatchPredicate, AtBoundary;
    ColumnAcross(h[n + 1..], x, y, tail);
    QualifiedRead(h, x, tail);
    QualifiedRead(h, y, tail);
  }

  lemma PredicatePlain(h: string, x: string, y: string, tail: string)
    requires h != "" && Before(h) && IsIdent(x) && IsIdent(y) && AtBoundary(tail)
    requires Run(Word, h) < |h| && h[Run(Word, h)] != '.'
    ensures PredicateKept(MatchPredicate(h + x + tail), MatchPredicate(h + y + tail), |h|, |x|, |y|)
  {
    hide Run, MatchColumn, IsIdent, NormalizeValue, MatchPredicate, AtBoundary;
    ColumnAcross(h, x, y, tail);
    FrontOf(h, x, tail);
    FrontOf(h, y, tail);
    PlainRead(h + x + tail);
    PlainRead(h + y + tail);
  }

  /** The first name of text before a token ends before it. */
  lemma FrontOf(h: string, x: string, tail: string)
    requires h != "" && Run(Word, h) < |h|
    ensures var n := Run(Word, h);
            var t := h + x + tail;
            Run(Word, t) == n && t[n] == h[n] && t[..n] == h[..n] && t[n + 1..] == h[n + 1..] + x + tail &&
                IdentAt(t) == IdentAt(h)
  {
    hide Run;
    assert h + x + tail == h + (x + tail);
    RunFront(Word, h, x + tail);
    FrontSlices(h, x, tail, Run(Word, h));
  }

  lemma FrontSlices(h: string, x: string, tail: string, n: nat)
    requires n < |h|
    ensures var t := h + x + tail;
            t[n] == h[n] && t[..n] == h[..n] && t[n + 1..] == h[n + 1..] + x + tail && IdentAt(t) == IdentAt(h)
  {
    hide IsIdentStart;
  }

  lemma QualifiedRead(h: string, x: string, tail: string)
    requires h != "" && Run(Word, h) < |h| && h[Run(Word, h)] == '.'
    ensures var n := Run(Word, h);
            MatchPredicate(h + x + tail) == if !IdentAt(h) then None
                else WithQualifier(h[..n], n, MatchColumn(h[n + 1..] + x + tail))
  {
    FrontOf(h, x, tail);
    hide Run, MatchColumn, WithQualifier, WithoutQualifier, IdentAt, MatchPredicate, IsIdentStart;
    var n := Run(Word, h);
    DottedRead(h + x + tail, n, h[..n], h[n + 1..] + x + tail);
  }

  lemma DottedRead(t: string, n: nat, name: string, rest: string)
    requires n == Run(Word, t) < |t| && t[n] == '.' && t[..n] == name && t[n + 1..] == rest
    ensures MatchPredicate(t) == if !IdentAt(t) then None else WithQualifier(name, n, MatchColumn(rest))
  {
    hide Run, MatchColumn, WithQualifier, IdentAt, MatchPredicate;
    if IdentAt(t) {
      QualifiedIs(t, n, name, rest);
    } else {
      PlainRead(t);
      NoColumn(t);
    }
  }

  lemma QualifiedIs(t: string, n: nat, name: string, rest: string)
    requires IdentAt(t) && n == Run(Word, t) < |t| && t[n] == '.' && t[..n] == name && t[n + 1..] == rest
    ensures MatchPredicate(t) == WithQualifier(name, n, MatchColumn(rest))
  {
    hide Run, MatchColumn, NormalizeValue;
  }

  lemma NoColumn(t: string)
    requires !IdentAt(t)
    ensures MatchColumn(t) == None
  {
  }

  lemma PlainRead(t: string)
    requires !(IdentAt(t) && Run(Word, t) < |t| && t[Run(Word, t)] == '.')
    ensures MatchPredicate(t) == WithoutQualifier(MatchColumn(t))
  {
    hide Run, MatchColumn, NormalizeValue;
  }

  lemma PredicateAtToken(x: string, y: string, tail: string)
    requires IsIdent(x) && IsIdent(y) && AtBoundary(tail)
    ensures PredicateKept(MatchPredicate(x + tail), MatchPredicate(y + tail), 0, |x|, |y|)
  {
    hide IsIdent, MatchColumn, MatchPredicate, NormalizeValue, AtBoundary;
    if tail != "" && tail[0] == '.' {
      TokenDotted(x, tail);
      TokenDotted(y, tail);
    } else {
      ColumnAtToken(x, y, tail);
      TokenPlain(x, tail);
      TokenPlain(y, tail);
    }
  }

  lemma TokenDotted(x: string, tail: string)
    requires IsIdent(x) && AtBoundary(tail) && tail != "" && tail[0] == '.'
    ensures MatchPredicate(x + tail) == WithQualifier(x, |x|, MatchColumn(tail[1..]))
  {
    IdentsAreWords(x);
    NameRun(x, tail);
    NameSlices(x, tail);
    hide Run, IsIdent, MatchColumn, MatchPredicate, WithQualifier, WithoutQualifier, AllWord, IsWord, AtBoundary;
    DottedRead(x + tail, |x|, x, tail[1..]);
  }

  lemma TokenPlain(x: string, tail: string)
    requires IsIdent(x) && AtBoundary(tail) && (tail == "" || tail[0] != '.')
    ensures MatchPredicate(x + tail) == WithoutQualifier(MatchColumn(x + tail))
  {
    IdentsAreWords(x);
    NameRun(x, tail);
    NameSlices(x, tail);
    hide Run, IsIdent, MatchColumn, MatchPredicate, WithQualifier, WithoutQualifier, AllWord, IsWord, AtBoundary;
    PlainRead(x + tail);
  }

  // ------------------------------------------------------------ the scan, with positions

  /** A predicate and where it was found. */
  datatype Found = Found(parsed: ParsedPredicate, start: nat, end: nat)

  function FoundPredicates(t: string, off: nat): seq<Found>
    decreases |t|
  {
    if t == "" then []
    else
      match MatchPredicate(t)
      case None => FoundPredicates(t[1..], off + 1)
      case Some(m) => [Found(m.0, off, off + m.1)] + FoundPredicates(t[m.1..], off + m.1)
  }

  lemma {:induction false} FoundAreScanned(t: string, off: nat)
    ensures |FoundPredicates(t, off)| == |ScanPredicates(t)|
    ensures forall i :: 0 <= i < |ScanPredicates(t)| ==> FoundPredicates(t, off)[i].parsed == ScanPredicates(t)[i]
    decreases |t|
  {
    hide MatchPredicate;
    if t != "" {
      match MatchPredicate(t) {
        case None => FoundAreScanned(t[1..], off + 1);
        case Some(m) => FoundAreScanned(t[m.1..], off + m.1);
      }
    }
  }

  /** What is found is found in order, at or behind `off`. */
  lemma {:induction false} FoundShift(t: string, off: nat, off': nat)
    ensures var a, b := FoundPredicates(t, off), FoundPredicates(t, off');
            |a| == |b| && forall i :: 0 <= i < |a| ==>
              && off <= a[i].start < a[i].end && b[i].parsed == a[i].parsed
              && b[i].start == a[i].start - off + off' && b[i].end == a[i].end - off + off'
    decreases |t|
  {
    hide MatchPredicate;
    if t != "" {
      match MatchPredicate(t) {
        case None => FoundShift(t[1..], off + 1, off' + 1);
        case Some(m) => FoundShift(t[m.1..], off + m.1, off' + m.1);
      }
    }
  }

  /** `b` is what `a` becomes when the token of length `x` at `at` gets length `y`. */
  predicate Moved(a: Found, b: Found, at: nat, x: nat, y: nat) {
    && MovedEnd(a.start, b.start, at, x, y)
    && MovedEnd(a.end, b.end, at, x, y)
    && (a.end <= at || a.start >= at + x ==> b.parsed == a.parsed)
  }

  predicate AllMoved(a: seq<Found>, b: seq<Found>, at: nat, x: nat, y: nat) {
    |a| == |b| && forall i :: 0 <= i < |a| ==> Moved(a[i], b[i], at, x, y)
  }

  /** What a predicate could go on with behind a name is not there. */
  predicate NothingRead(tail: string) {
    AtBoundary(tail) && MatchEquals(tail) == None && (tail != "" && tail[0] == '.' ==> MatchColumn(tail[1..]) == None)
  }

  /** No predicate can start on a word behind which none can go on. */
  lemma {:induction false} WordPassed(w: string, tail: string, off: nat)
    requires AllWord(w) && NothingRead(tail)
    ensures FoundPredicates(w + tail, off) == FoundPredicates(tail, off + |w|)
    decreases |w|
  {
    hide NothingRead, FoundPredicates, MatchPredicate;
    if w == "" {
      assert w + tail == tail;
    } else {
      WordUnmatched(w, tail);
      hide IsWord;
      FoundStep(w + tail, off);
      assert (w + tail)[1..] == w[1..] + tail;
      assert AllWord(w[1..]);
      hide AllWord;
      WordPassed(w[1..], tail, off + 1);
    }
  }

  lemma WordUnmatched(w: string, tail: string)
    requires w != "" && AllWord(w) && NothingRead(tail)
    ensures MatchPredicate(w + tail) == None
  {
    hide Run, MatchEquals;
    var t := w + tail;
    if IdentAt(t) {
      NameRun(w, tail);
      assert tail != "" ==> t[|w| + 1..] == tail[1..];
      assert MatchColumn(t) == None;
    }
  }

  lemma NothingFollows(x: string, tail: string)
    requires IsIdent(x) && AtBoundary(tail) && MatchPredicate(x + tail) == None
    ensures NothingRead(tail)
  {
    IdentsAreWords(x);
    hide Run, MatchEquals, IsIdent, AllWord;
    NameRun(x, tail);
    if tail != "" && tail[0] == '.' {
      assert (x + tail)[|x| + 1..] == tail[1..];
      hide MatchColumn;
      DotNoEquals(tail);
    }
  }

  lemma DotNoEquals(tail: string)
    requires tail != "" && tail[0] == '.'
    ensures MatchEquals(tail) == None
  {
  }

  lemma FoundStep(t: string, off: nat)
    requires t != ""
    ensures FoundPredicates(t, off) ==
            match MatchPredicate(t)
            case None => FoundPredicates(t[1..], off + 1)
            case Some(m) => [Found(m.0, off, off + m.1)] + FoundPredicates(t[m.1..], off + m.1)
  {
    hide MatchPredicate;
  }

  /** Both texts begin with the same `n` characters of no predicate or of the same one. */
  lemma FrontSame(s: string, t: string, s': string, t': string, off: nat, n: nat, at: nat, x: nat, y: nat)
    requires s != "" && t != "" && MatchPredicate(s) == MatchPredicate(t)
    requires match MatchPredicate(s) case None => n == 1 case Some(m) => n == m.1
    requires n <= |s| && n <= |t| && s[n..] == s' && t[n..] == t' && off + n <= at
    requires AllMoved(FoundPredicates(s', off + n), FoundPredicates(t', off + n), at, x, y)
    ensures AllMoved(FoundPredicates(s, off), FoundPredicates(t, off), at, x, y)
  {
    hide MatchPredicate, FoundPredicates;
    FoundStep(s, off);
    FoundStep(t, off);
  }

  /** Both texts begin with a predicate that ends behind the token, at the same place of the same rest. */
  lemma PastSame(s: string, t: string, rest: string, off: nat, m: (ParsedPredicate, nat), m': (ParsedPredicate, nat),
                 at: nat, x: nat, y: nat)
    requires s != "" && t != "" && MatchPredicate(s) == Some(m) && MatchPredicate(t) == Some(m')
    requires m.1 <= |s| && m'.1 <= |t| && s[m.1..] == rest == t[m'.1..] && x > 0 && y > 0
    requires off <= at && off + m.1 >= at + x && m'.1 == m.1 - x + y
    ensures AllMoved(FoundPredicates(s, off), FoundPredicates(t, off), at, x, y)
  {
    hide MatchPredicate, FoundPredicates;
    FoundStep(s, off);
    FoundStep(t, off);
    RestMoved(rest, off + m.1, off + m'.1, at, x, y);
    hide AllMoved;
    MovedCons(Found(m.0, off, off + m.1), Found(m'.0, off, off + m'.1), FoundPredicates(rest, off + m.1),
        FoundPredicates(rest, off + m'.1),
              at, x, y);
  }

  lemma RestMoved(rest: string, off: nat, off': nat, at: nat, x: nat, y: nat)
    requires off >= at + x && off' == off - x + y
    ensures AllMoved(FoundPredicates(rest, off), FoundPredicates(rest, off'), at, x, y)
  {
    hide FoundPredicates;
    FoundShift(rest, off, off');
  }

  lemma MovedCons(a: Found, b: Found, p: seq<Found>, q: seq<Found>, at: nat, x: nat, y: nat)
    requires Moved(a, b, at, x, y) && AllMoved(p, q, at, x, y)
    ensures AllMoved([a] + p, [b] + q, at, x, y)
  {
    hide Moved;
  }

  /** Both texts begin with a predicate that ends behind the token, at the same place of what follows it. */
  lemma PastRest(s: string, t: string, tail: string, off: nat, m: (ParsedPredicate, nat), m': (ParsedPredicate, nat),
                 h: nat, x: nat, y: nat)
    requires s != "" && t != "" && MatchPredicate(s) == Some(m) && MatchPredicate(t) == Some(m') && x > 0 && y > 0
    requires h + x <= m.1 <= |s| && m'.1 == m.1 - x + y && h + y <= |t| && s[h + x..] == tail == t[h + y..]
    ensures AllMoved(FoundPredicates(s, off), FoundPredicates(t, off), off + h, x, y)
  {
    hide MatchPredicate, FoundPredicates, AllMoved;
    var e := m.1 - h - x;
    assert |t| == h + y + |tail|;
    assert s[m.1..] == s[h + x..][e..] && t[m'.1..] == t[h + y..][e..];
    PastSame(s, t, tail[e..], off, m, m', off + h, x, y);
  }

  /** A name that no predicate starts on is passed. */
  lemma NamePassed(x: string, tail: string, off: nat)
    requires IsIdent(x) && NothingRead(tail)
    ensures FoundPredicates(x + tail, off) == FoundPredicates(tail, off + |x|)
  {
    IdentsAreWords(x);
    hide IsIdent, NothingRead, AllWord, IsWord, FoundPredicates;
    WordPassed(x, tail, off);
  }

  lemma ShiftMoved(tail: string, off: nat, x: nat, y: nat)
    ensures AllMoved(FoundPredicates(tail, off + x), FoundPredicates(tail, off + y), off, x, y)
  {
    hide FoundPredicates;
    FoundShift(tail, off + x, off + y);
  }

  /** From the token on. */
  lemma MovedAtToken(x: string, y: string, tail: string, off: nat)
    requires IsIdent(x) && IsIdent(y) && AtBoundary(tail)
    ensures AllMoved(FoundPredicates(x + tail, off), FoundPredicates(y + tail, off), off, |x|, |y|)
  {
    hide MatchPredicate, FoundPredicates, IsIdent, AtBoundary, AllMoved, PredicateKept, NothingRead;
    PredicateAtToken(x, y, tail);
    KeptCases(MatchPredicate(x + tail), MatchPredicate(y + tail), 0, |x|, |y|);
    if MatchPredicate(x + tail) == None {
      NothingFollows(x, tail);
      NamePassed(x, tail, off);
      NamePassed(y, tail, off);
      ShiftMoved(tail, off, |x|, |y|);
    } else {
      TokenPast(x, y, tail, off, MatchPredicate(x + tail).value, MatchPredicate(y + tail).value);
    }
  }

  lemma TokenPast(x: string, y: string, tail: string, off: nat, m: (ParsedPredicate, nat), m': (ParsedPredicate, nat))
    requires IsIdent(x) && IsIdent(y) && MatchPredicate(x + tail) == Some(m) && MatchPredicate(y + tail) == Some(m')
    requires m.1 > 0 ==> m.1 >= |x| && m'.1 == m.1 - |x| + |y|
    ensures AllMoved(FoundPredicates(x + tail, off), FoundPredicates(y + tail, off), off, |x|, |y|)
  {
    hide MatchPredicate, FoundPredicates, AllMoved;
    assert (x + tail)[|x|..] == tail == (y + tail)[|y|..];
    PastRest(x + tail, y + tail, tail, off, m, m', 0, |x|, |y|);
  }

  /** Replacing one token moves what is behind it, and changes only what holds it. */
  lemma {:induction false} MovedAcross(h: string, x: string, y: string, tail: string, off: nat)
    requires Before(h) && IsIdent(x) && IsIdent(y) && AtBoundary(tail)
    ensures AllMoved(FoundPredicates(h + x + tail, off), FoundPredicates(h + y + tail, off), off + |h|, |x|, |y|)
    decreases |h|
  {
    hide MatchPredicate, IsIdent, FoundPredicates, AtBoundary, Before, AllMoved;
    if h == "" {
      assert h + x + tail == x + tail && h + y + tail == y + tail;
      MovedAtToken(x, y, tail, off);
    } else if MatchPredicate(h + x + tail).Some? && MatchPredicate(h + x + tail).value.1 > |h| {
      MovedPast(h, x, y, tail, off);
    } else {
      var n := if MatchPredicate(h + x + tail) == None then 1 else MatchPredicate(h + x + tail).value.1;
      BeforeDrop(h, n);
      MovedAcross(h[n..], x, y, tail, off + n);
      MovedFront(h, x, y, tail, off, n);
    }
  }

  /** What the first `n` characters hold is the same, and the rest is moved. */
  lemma MovedFront(h: string, x: string, y: string, tail: string, off: nat, n: nat)
    requires Before(h) && IsIdent(x) && IsIdent(y) && AtBoundary(tail) && 0 < n <= |h|
    requires match MatchPredicate(h + x + tail) case None => n == 1 case Some(m) => n == m.1
    requires AllMoved(FoundPredicates(h[n..] + x + tail, off + n), FoundPredicates(h[n..] + y + tail, off + n), off +
          |h|, |x|, |y|)
    ensures AllMoved(FoundPredicates(h + x + tail, off), FoundPredicates(h + y + tail, off), off + |h|, |x|, |y|)
  {
    hide MatchPredicate, FoundPredicates, PredicateKept, Before, IsIdent, AtBoundary, AllMoved;
    PredicateAcross(h, x, y, tail);
    KeptCases(MatchPredicate(h + x + tail), MatchPredicate(h + y + tail), |h|, |x|, |y|);
    TailSlice(h, x, tail, n);
    TailSlice(h, y, tail, n);
    FrontSame(h + x + tail, h + y + tail, h[n..] + x + tail, h[n..] + y + tail, off, n, off + |h|, |x|, |y|);
  }

  lemma KeptCases(a: Option<(ParsedPredicate, nat)>, b: Option<(ParsedPredicate, nat)>, h: nat, x: nat, y: nat)
    requires PredicateKept(a, b, h, x, y)
    ensures a == None <==> b == None
    ensures a.Some? && a.value.1 <= h ==> b == a
    ensures a.Some? && a.value.1 > h ==> b.Some? && a.value.1 >= h + x && b.value.1 == a.value.1 - x + y
  {
  }

  /** A predicate that holds the token: what follows it is only shifted. */
  lemma MovedPast(h: string, x: string, y: string, tail: string, off: nat)
    requires h != "" && Before(h) && IsIdent(x) && IsIdent(y) && AtBoundary(tail)
    requires MatchPredicate(h + x + tail).Some? && MatchPredicate(h + x + tail).value.1 > |h|
    ensures AllMoved(FoundPredicates(h + x + tail, off), FoundPredicates(h + y + tail, off), off + |h|, |x|, |y|)
  {
    IdentsAreWords(x);
    IdentsAreWords(y);
    hide MatchPredicate, FoundPredicates, IsIdent, Before, AtBoundary, PredicateKept, AllMoved, IsWord, AllWord;
    PredicateAcross(h, x, y, tail);
    KeptCases(MatchPredicate(h + x + tail), MatchPredicate(h + y + tail), |h|, |x|, |y|);
    TailLast(h, x, tail);
    TailLast(h, y, tail);
    PastRest(h + x + tail, h + y +
        tail, tail, off, MatchPredicate(h + x + tail).value, MatchPredicate(h + y + tail).value,
             |h|, |x|, |y|);
  }

  lemma TailLast(h: string, x: string, tail: string)
    ensures |h + x + tail| == |h| + |x| + |tail| && (h + x + tail)[|h| + |x|..] == tail
  {
  }
}
