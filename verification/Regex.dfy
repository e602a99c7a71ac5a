/**
 Regular expressions with the backtracking meaning of Python's `re`: the ways an expression can
 match, most preferred first. Repetition is of single characters, which is all the patterns use.
 */
module Regex {
  import opened Wrappers
  import opened Text

  /** A set of characters: a class, a letter or underscore, one character, or all but one. */
  datatype CharSet = Of(k: CharClass) | Start | Is(c: char) | Except(c: char)

  predicate Fits(s: CharSet, c: char) {
    match s
    case Of(k) => In(c, k)
    case Start => IsIdentStart(c)
    case Is(d) => c == d
    case Except(d) => c != d
  }

  datatype Rx =
    | One(chars: CharSet)
    | Many(chars: CharSet, least: nat)
    | Letters(word: string)
    | Boundary
    | Cat(front: Rx, back: Rx)
    | Either(left: Rx, right: Rx)
    | Maybe(arg: Rx)
    | Capture(group: nat, body: Rx)

  /** How far a match has come, and the spans captured so far. */
  datatype Progress = Progress(at: nat, groups: map<nat, (nat, nat)>)

  /** Length of the run of `s` at position `at`. */
  function RunOf(s: CharSet, t: string, at: nat): (n: nat)
    requires at <= |t|
    ensures at + n <= |t|
    ensures forall i :: at <= i < at + n ==> Fits(s, t[i])
    ensures at + n < |t| ==> !Fits(s, t[at + n])
    decreases |t| - at
  {
    if at < |t| && Fits(s, t[at]) then 1 + RunOf(s, t, at + 1) else 0
  }

  /** Progress to `hi`, then to every earlier position down to `lo`. */
  function Down(p: Progress, hi: int, lo: nat): (ps: seq<Progress>)
    ensures forall q :: q in ps ==> lo <= q.at <= hi && q.groups == p.groups
    decreases hi + 1 - lo
  {
    if hi < lo then [] else [p.(at := hi)] + Down(p, hi - 1, lo)
  }

  predicate WordBefore(prevWord: bool, t: string, at: nat)
    requires at <= |t|
  {
    if at == 0 then prevWord else IsWord(t[at - 1])
  }

  predicate WordAfter(t: string, at: nat)
    requires at <= |t|
  {
    at < |t| && IsWord(t[at])
  }

  function Captured(group: nat, from: nat, ps: seq<Progress>): (qs: seq<Progress>)
    ensures |qs| == |ps|
    ensures forall i :: 0 <= i < |ps| ==> qs[i] == ps[i].(groups := ps[i].groups[group := (from, ps[i].at)])
  {
    seq(|ps|, i requires 0 <= i < |ps| => ps[i].(groups := ps[i].groups[group := (from, ps[i].at)]))
  }

  /** All ways `r` can match `t` from `p` on, in the order a backtracking matcher tries them. */
  function Ways(r: Rx, prevWord: bool, t: string, p: Progress): (ps: seq<Progress>)
    requires p.at <= |t|
    ensures forall q :: q in ps ==> q.at <= |t|
    decreases r, 0
  {
    match r
    case One(s) => if p.at < |t| && Fits(s, t[p.at]) then [p.(at := p.at + 1)] else []
    case Many(s, least) => Down(p, p.at + RunOf(s, t, p.at), p.at + least)
    case Letters(w) => if HasKeyword(t[p.at..], w) then [p.(at := p.at + |w|)] else []
    case Boundary => if WordBefore(prevWord, t, p.at) != WordAfter(t, p.at) then [p] else []
    case Cat(a, b) => After(b, prevWord, t, Ways(a, prevWord, t, p))
    case Either(a, b) => Ways(a, prevWord, t, p) + Ways(b, prevWord, t, p)
    case Maybe(a) => Ways(a, prevWord, t, p) + [p]
    case Capture(n, a) =>
      var ps := Ways(a, prevWord, t, p);
      assert forall i :: 0 <= i < |ps| ==> ps[i] in ps;
      Captured(n, p.at, ps)
  }

  /** Going on with `r` from each of `ps` in turn. */
  function After(r: Rx, prevWord: bool, t: string, ps: seq<Progress>): (qs: seq<Progress>)
    requires forall q :: q in ps ==> q.at <= |t|
    ensures forall q :: q in qs ==> q.at <= |t|
    decreases r, |ps|
  {
    if ps == [] then []
    else
      assert ps[0] in ps;
      Ways(r, prevWord, t, ps[0]) + After(r, prevWord, t, ps[1..])
  }

  /** What `re` returns when it tries the pattern at the front of `t`. */
  function FirstWay(r: Rx, prevWord: bool, t: string): Option<Progress> {
    var ps := Ways(r, prevWord, t, Progress(0, map[]));
    if ps == [] then None else Some(ps[0])
  }

  // ------------------------------------------------------------ going on after alternatives

  ghost predicate Stuck(r: Rx, prevWord: bool, t: string, ps: seq<Progress>) {
    forall q :: q in ps ==> q.at <= |t| && Ways(r, prevWord, t, q) == []
  }

  lemma {:induction false} AfterStuck(r: Rx, prevWord: bool, t: string, ps: seq<Progress>)
    requires forall q :: q in ps ==> q.at <= |t|
    requires Stuck(r, prevWord, t, ps)
    ensures After(r, prevWord, t, ps) == []
  {
    hide Ways;
    if ps != [] {
      assert ps[0] in ps;
      assert forall q :: q in ps[1..] ==> q in ps;
      AfterStuck(r, prevWord, t, ps[1..]);
    }
  }

  /** If only the first alternative can go on, it decides. */
  lemma AfterFirst(r: Rx, prevWord: bool, t: string, p: Progress, rest: seq<Progress>)
    requires p.at <= |t| && forall q :: q in rest ==> q.at <= |t|
    requires Stuck(r, prevWord, t, rest)
    ensures After(r, prevWord, t, [p] + rest) == Ways(r, prevWord, t, p)
  {
    hide Ways;
    AfterStuck(r, prevWord, t, rest);
    assert ([p] + rest)[1..] == rest;
  }

  /** If the first alternative can go on, its first way is the first of all. */
  lemma AfterPreferred(r: Rx, prevWord: bool, t: string, p: Progress, rest: seq<Progress>)
    requires p.at <= |t| && forall q :: q in rest ==> q.at <= |t|
    requires Ways(r, prevWord, t, p) != []
    ensures var qs := After(r, prevWord, t, [p] + rest);
            qs != [] && qs[0] == Ways(r, prevWord, t, p)[0]
  {
    hide Ways;
    assert ([p] + rest)[1..] == rest;
  }

  lemma {:induction false} AfterConcat(r: Rx, prevWord: bool, t: string, ps: seq<Progress>, qs: seq<Progress>)
    requires forall q :: q in ps + qs ==> q.at <= |t|
    ensures forall q :: q in ps || q in qs ==> q.at <= |t|
    ensures After(r, prevWord, t, ps + qs) == After(r, prevWord, t, ps) + After(r, prevWord, t, qs)
    decreases |ps|
  {
    hide Ways;
    assert forall q :: q in ps || q in qs ==> q in ps + qs;
    if ps == [] {
      assert ps + qs == qs;
    } else {
      assert (ps + qs)[1..] == ps[1..] + qs;
      AfterConcat(r, prevWord, t, ps[1..], qs);
    }
  }

  // ------------------------------------------------------------ repetitions

  /** `b` cannot start where a character of `s` stands. */
  ghost predicate NotOn(s: CharSet, b: Rx, prevWord: bool, t: string) {
    forall q: Progress :: q.at < |t| && Fits(s, t[q.at]) ==> Ways(b, prevWord, t, q) == []
  }

  lemma InsideStuck(s: CharSet, least: nat, b: Rx, prevWord: bool, t: string, p: Progress)
    requires p.at <= |t| && NotOn(s, b, prevWord, t)
    ensures Stuck(b, prevWord, t, Down(p, p.at + RunOf(s, t, p.at) - 1, p.at + least))
  {
    hide Ways, RunOf, Down;
    forall q | q in Down(p, p.at + RunOf(s, t, p.at) - 1, p.at + least)
      ensures Ways(b, prevWord, t, q) == []
    {
      assert Fits(s, t[q.at]);
      hide Fits;
    }
  }

  /** A repetition followed by something that cannot start inside it takes the whole run. */
  lemma ManyThen(s: CharSet, least: nat, b: Rx, prevWord: bool, t: string, p: Progress)
    requires p.at <= |t| && NotOn(s, b, prevWord, t)
    ensures var n := RunOf(s, t, p.at);
            Ways(Cat(Many(s, least), b), prevWord, t, p) == if n < least then []
                else Ways(b, prevWord, t, p.(at := p.at + n))
  {
    hide Ways, Fits, RunOf, NotOn, Stuck, Down;
    WaysMany(s, least, prevWord, t, p);
    WaysCat(Many(s, least), b, prevWord, t, p);
    var n := RunOf(s, t, p.at);
    if n >= least {
      InsideStuck(s, least, b, prevWord, t, p);
      AfterFirst(b, prevWord, t, p.(at := p.at + n), Down(p, p.at + n - 1, p.at + least));
    } else {
      AfterNothing(b, prevWord, t);
    }
  }

  lemma AfterNothing(b: Rx, prevWord: bool, t: string)
    ensures After(b, prevWord, t, []) == []
  {
  }

  lemma WaysMany(s: CharSet, least: nat, prevWord: bool, t: string, p: Progress)
    requires p.at <= |t|
    ensures Ways(Many(s, least), prevWord, t, p)
         == if RunOf(s, t, p.at) < least then []
            else [p.(at := p.at + RunOf(s, t, p.at))] + Down(p, p.at + RunOf(s, t, p.at) - 1, p.at + least)
  {
    hide RunOf;
  }

  lemma WaysCat(a: Rx, b: Rx, prevWord: bool, t: string, p: Progress)
    requires p.at <= |t|
    ensures Ways(Cat(a, b), prevWord, t, p) == After(b, prevWord, t, Ways(a, prevWord, t, p))
  {
  }

  lemma {:induction false} RunOfClass(k: CharClass, t: string, at: nat)
    requires at <= |t|
    ensures RunOf(Of(k), t, at) == Run(k, t[at..])
    decreases |t| - at
  {
    hide In;
    if at < |t| {
      assert t[at..][1..] == t[at + 1..];
      RunOfClass(k, t, at + 1);
    }
  }

  /** A single character goes on or not. */
  lemma OneThen(s: CharSet, b: Rx, prevWord: bool, t: string, p: Progress)
    requires p.at <= |t|
    ensures Ways(Cat(One(s), b), prevWord, t, p)
         == if p.at < |t| && Fits(s, t[p.at]) then Ways(b, prevWord, t, p.(at := p.at + 1)) else []
  {
    hide Fits;
    WaysCat(One(s), b, prevWord, t, p);
    if p.at < |t| && Fits(s, t[p.at]) {
      AfterOne(b, prevWord, t, p.(at := p.at + 1));
    }
  }

  lemma AfterOne(b: Rx, prevWord: bool, t: string, p: Progress)
    requires p.at <= |t|
    ensures After(b, prevWord, t, [p]) == Ways(b, prevWord, t, p)
  {
    hide Ways;
    AfterFirst(b, prevWord, t, p, []);
    assert [p] + [] == [p];
  }

  // ------------------------------------------------------------ identifiers

  const IDENT := Cat(One(Start), Many(Of(Word), 0))

  /** The captured identifier of length `n` at `p`. */
  function Named(group: nat, p: Progress, n: nat): Progress {
    Progress(p.at + n, p.groups[group := (p.at, p.at + n)])
  }

  lemma IdentRun(t: string, at: nat)
    requires at < |t| && IsIdentStart(t[at])
    ensures Run(Word, t[at..]) == 1 + RunOf(Of(Word), t, at + 1)
  {
    assert t[at..][1..] == t[at + 1..];
    RunOfClass(Word, t, at + 1);
  }

  lemma WaysRun(s: CharSet, least: nat, prevWord: bool, t: string, p: Progress)
    requires p.at <= |t|
    ensures Ways(Many(s, least), prevWord, t, p) == Down(p, p.at + RunOf(s, t, p.at), p.at + least)
  {
    hide RunOf, Down;
  }

  lemma WaysIdent(prevWord: bool, t: string, p: Progress)
    requires p.at <= |t|
    ensures Ways(IDENT, prevWord, t, p)
         == if IdentAt(t[p.at..]) then Down(p, p.at + Run(Word, t[p.at..]), p.at + 1) else []
  {
    hide Run, RunOf, Ways, Down;
    OneThen(Start, Many(Of(Word), 0), prevWord, t, p);
    if IdentAt(t[p.at..]) {
      WaysRun(Of(Word), 0, prevWord, t, p.(at := p.at + 1));
      IdentRun(t, p.at);
      DownAt(p, p.at + 1, p.at + Run(Word, t[p.at..]), p.at + 1);
    }
  }

  lemma {:induction false} DownAt(p: Progress, at: nat, hi: int, lo: nat)
    ensures Down(p.(at := at), hi, lo) == Down(p, hi, lo)
    decreases hi + 1 - lo
  {
    if lo <= hi {
      DownAt(p, at, hi - 1, lo);
    }
  }

  /** The captured identifiers at `p` shorter than `n`, longest first. */
  function Shorter(group: nat, p: Progress, n: nat): seq<Progress> {
    Captured(group, p.at, Down(p, p.at + n - 1, p.at + 1))
  }

  lemma ShorterEnds(group: nat, p: Progress, n: nat)
    ensures forall q :: q in Shorter(group, p, n) ==> p.at < q.at < p.at + n
  {
    hide Captured;
    var ends := Down(p, p.at + n - 1, p.at + 1);
    hide Down;
    forall q | q in Shorter(group, p, n)
      ensures p.at < q.at < p.at + n
    {
      var i :| 0 <= i < |ends| && Captured(group, p.at, ends)[i] == q;
      assert ends[i] in ends;
    }
  }

  lemma ShorterInside(group: nat, t: string, p: Progress)
    requires p.at <= |t|
    ensures forall q :: q in Shorter(group, p, Run(Word, t[p.at..])) ==> p.at < q.at < |t| && IsWord(t[q.at])
  {
    hide Run, Shorter;
    var n := Run(Word, t[p.at..]);
    ShorterEnds(group, p, n);
    forall q | q in Shorter(group, p, n)
      ensures p.at < q.at < |t| && IsWord(t[q.at])
    {
      assert In(t[p.at..][q.at - p.at], Word);
    }
  }

  lemma WaysCapture(group: nat, r: Rx, prevWord: bool, t: string, p: Progress)
    requires p.at <= |t|
    ensures Ways(Capture(group, r), prevWord, t, p) == Captured(group, p.at, Ways(r, prevWord, t, p))
  {
  }

  /** The captured identifier: the longest first, and every shorter one ends before a word character. */
  lemma WaysNamed(group: nat, prevWord: bool, t: string, p: Progress)
    requires p.at <= |t|
    ensures var n := Run(Word, t[p.at..]);
            Ways(Capture(group, IDENT), prevWord, t, p) == if IdentAt(t[p.at..]) then
                [Named(group, p, n)] + Shorter(group, p, n) else []
  {
    hide Run, IDENT, Ways, IdentAt, Captured, Down, Shorter, Named;
    WaysCapture(group, IDENT, prevWord, t, p);
    WaysIdent(prevWord, t, p);
    if IdentAt(t[p.at..]) {
      IdentNotEmpty(t[p.at..]);
      NamedDown(group, p, Run(Word, t[p.at..]));
    } else {
      assert |Captured(group, p.at, [])| == 0;
    }
  }

  lemma NamedDown(group: nat, p: Progress, n: nat)
    requires n >= 1
    ensures Captured(group, p.at, Down(p, p.at + n, p.at + 1)) == [Named(group, p, n)] + Shorter(group, p, n)
  {
    hide Captured;
    DownFirst(p, n);
    CapturedCons(group, p.at, p.(at := p.at + n), Down(p, p.at + n - 1, p.at + 1));
  }

  lemma IdentNotEmpty(t: string)
    requires IdentAt(t)
    ensures Run(Word, t) >= 1
  {
    assert In(t[0], Word);
  }

  lemma DownFirst(p: Progress, n: nat)
    requires n >= 1
    ensures Down(p, p.at + n, p.at + 1) == [p.(at := p.at + n)] + Down(p, p.at + n - 1, p.at + 1)
  {
  }

  lemma CapturedCons(group: nat, from: nat, q: Progress, rest: seq<Progress>)
    ensures Captured(group, from, [q] + rest) ==
          [q.(groups := q.groups[group := (from, q.at)])] + Captured(group, from, rest)
  {
  }

  /** A captured identifier followed by something that cannot start on a word character is the longest one. */
  lemma NamedThen(group: nat, b: Rx, prevWord: bool, t: string, p: Progress)
    requires p.at <= |t| && NotOn(Of(Word), b, prevWord, t)
    ensures Ways(Cat(Capture(group, IDENT), b), prevWord, t, p)
         == if IdentAt(t[p.at..]) then Ways(b, prevWord, t, Named(group, p, Run(Word, t[p.at..]))) else []
  {
    hide Run, IDENT, Ways, IdentAt, Shorter;
    WaysCat(Capture(group, IDENT), b, prevWord, t, p);
    WaysNamed(group, prevWord, t, p);
    ShorterInside(group, t, p);
    var rest := Shorter(group, p, Run(Word, t[p.at..]));
    if IdentAt(t[p.at..]) {
      assert Stuck(b, prevWord, t, rest);
      AfterFirst(b, prevWord, t, Named(group, p, Run(Word, t[p.at..])), rest);
    }
  }

  /** A captured identifier followed by something that can always go on is the longest one first. */
  lemma NamedPreferred(group: nat, b: Rx, prevWord: bool, t: string, p: Progress)
    requires p.at <= |t| && IdentAt(t[p.at..])
    requires Ways(b, prevWord, t, Named(group, p, Run(Word, t[p.at..]))) != []
    ensures var qs := Ways(Cat(Capture(group, IDENT), b), prevWord, t, p);
            qs != [] && qs[0] == Ways(b, prevWord, t, Named(group, p, Run(Word, t[p.at..])))[0]
  {
    hide Run, IDENT, Ways, IdentAt, Shorter;
    WaysCat(Capture(group, IDENT), b, prevWord, t, p);
    WaysNamed(group, prevWord, t, p);
    ShorterInside(group, t, p);
    var rest := Shorter(group, p, Run(Word, t[p.at..]));
    AfterPreferred(b, prevWord, t, Named(group, p, Run(Word, t[p.at..])), rest);
  }
}
