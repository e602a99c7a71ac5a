/** ASCII text: character classes, runs, trimming, case and decimal numbers. */
module Text {
  import opened Wrappers

  datatype CharClass = Space | NumberBlank | Word | Digit | Letter | Semicolon | Underscore

  predicate IsDigit(c: char) { '0' <= c <= '9' }

  predicate IsLetter(c: char) { 'a' <= c <= 'z' || 'A' <= c <= 'Z' }

  predicate IsIdentStart(c: char) { IsLetter(c) || c == '_' }

  predicate IsWord(c: char) { IsIdentStart(c) || IsDigit(c) }

  /** The ASCII characters for which Python's `str.isspace` holds. */
  predicate IsSpace(c: char) { '\t' <= c <= '\r' || '\U{1C}' <= c <= '\U{1F}' || c == ' ' }

  /** The blanks that `int` ignores around an ASCII number: C's `isspace`, without the separators \x1c to \x1f. */
  predicate IsNumberBlank(c: char) { '\t' <= c <= '\r' || c == ' ' }

  predicate In(c: char, k: CharClass) {
    match k
    case Space => IsSpace(c)
    case NumberBlank => IsNumberBlank(c)
    case Word => IsWord(c)
    case Digit => IsDigit(c)
    case Letter => IsLetter(c)
    case Semicolon => c == ';'
    case Underscore => c == '_'
  }

  /** Length of the longest prefix of `t` made of characters of class `k`. */
  function Run(k: CharClass, t: string): (n: nat)
    ensures n <= |t|
    ensures forall i :: 0 <= i < n ==> In(t[i], k)
    ensures n < |t| ==> !In(t[n], k)
  {
    if t == "" || !In(t[0], k) then 0 else 1 + Run(k, t[1..])
  }

  lemma {:induction false} RunIs(k: CharClass, t: string, n: nat)
    requires n <= |t|
    requires forall i :: 0 <= i < n ==> In(t[i], k)
    requires n < |t| ==> !In(t[n], k)
    ensures Run(k, t) == n
  {
    if n > 0 {
      assert In(t[0], k);
      RunIs(k, t[1..], n - 1);
    }
  }

  function TrimLeft(k: CharClass, t: string): string {
    t[Run(k, t)..]
  }

  function TrimRight(k: CharClass, t: string): (r: string)
    ensures r <= t
    ensures forall i :: |r| <= i < |t| ==> In(t[i], k)
    ensures r != "" ==> !In(r[|r| - 1], k)
  {
    if t == "" then ""
    else
      var r := TrimRight(k, t[1..]);
      if r == "" && In(t[0], k) then "" else [t[0]] + r
  }

  lemma {:induction false} TrimRightId(k: CharClass, t: string)
    requires t != "" ==> !In(t[|t| - 1], k)
    ensures TrimRight(k, t) == t
  {
    if |t| > 1 {
      TrimRightId(k, t[1..]);
    }
  }

  /** Python's `str.strip()`. */
  function Strip(t: string): string {
    TrimRight(Space, TrimLeft(Space, t))
  }

  function LowerChar(c: char): char {
    if 'A' <= c <= 'Z' then (c as int + 32) as char else c
  }

  function Lower(s: string): (r: string)
    ensures |r| == |s|
    ensures forall i :: 0 <= i < |s| ==> r[i] == LowerChar(s[i])
  {
    seq(|s|, i requires 0 <= i < |s| => LowerChar(s[i]))
  }

  /** The same text but for the case of its letters. */
  predicate SameIgnoringCase(a: string, b: string) {
    |a| == |b| && forall i :: 0 <= i < |a| ==> LowerChar(a[i]) == LowerChar(b[i])
  }

  lemma LowerSame(a: string, b: string)
    ensures Lower(a) == Lower(b) <==> SameIgnoringCase(a, b)
  {
    if Lower(a) == Lower(b) {
      assert forall i :: 0 <= i < |a| ==> Lower(a)[i] == Lower(b)[i];
    }
  }

  /** `t` starts with the lower-case word `w`, ignoring case. */
  predicate HasKeyword(t: string, w: string) {
    |w| <= |t| && forall i :: 0 <= i < |w| ==> LowerChar(t[i]) == w[i]
  }

  /** The pattern `[A-Za-z_][A-Za-z0-9_]*`, as a whole-string test. */
  predicate IsIdent(s: string) {
    s != "" && IsIdentStart(s[0]) && forall i :: 0 <= i < |s| ==> IsWord(s[i])
  }

  predicate IdentAt(t: string) {
    t != "" && IsIdentStart(t[0])
  }

  // ------------------------------------------------------------ decimal numbers

  function DigitChar(d: nat): (c: char)
    requires d < 10
    ensures IsDigit(c) && DigitValue(c) == d
  {
    ('0' as int + d) as char
  }

  function DigitValue(c: char): nat
    requires IsDigit(c)
  {
    c as int - '0' as int
  }

  function NatToString(n: nat): (s: string)
    ensures s != ""
    ensures forall i :: 0 <= i < |s| ==> IsDigit(s[i])
  {
    if n < 10 then [DigitChar(n)] else NatToString(n / 10) + [DigitChar(n % 10)]
  }

  /** Python's `str(n)`. */
  function IntToString(n: int): string {
    if n < 0 then "-" + NatToString(-n) else NatToString(n)
  }

  /** Value of a digit string in which single underscores may separate digits. */
  function DigitsValue(s: string): Option<nat> {
    if s == "" || !IsDigit(s[|s| - 1]) then None
    else if |s| == 1 then Some(DigitValue(s[0]))
    else
      var front := s[..|s| - 1];
      var high := if front[|front| - 1] == '_' then front[..|front| - 1] else front;
      match DigitsValue(high)
      case None => None
      case Some(v) => Some(10 * v + DigitValue(s[|s| - 1]))
  }

  function Signed(negative: bool, v: Option<nat>): Option<int> {
    match v
    case None => None
    case Some(n) => var m: int := n; Some(if negative then -m else m)
  }

  /** Python's `int(s)` on ASCII text; None stands for ValueError. */
  function ParseInt(s: string): Option<int> {
    var t := TrimRight(NumberBlank, TrimLeft(NumberBlank, s));
    if t == "" then None
    else if t[0] == '-' then Signed(true, DigitsValue(t[1..]))
    else if t[0] == '+' then Signed(false, DigitsValue(t[1..]))
    else Signed(false, DigitsValue(t))
  }

  lemma {:induction false} DigitsRoundTrip(n: nat)
    ensures DigitsValue(NatToString(n)) == Some(n)
  {
    if n >= 10 {
      DigitsRoundTrip(n / 10);
      var s := NatToString(n);
      assert s[..|s| - 1] == NatToString(n / 10);
    }
  }

  lemma StripId(t: string)
    requires t != "" && !IsSpace(t[0]) && !IsSpace(t[|t| - 1])
    ensures Strip(t) == t
  {
    assert TrimLeft(Space, t) == t;
    TrimRightId(Space, t);
  }

  /** `int(str(n)) == n`. */
  lemma IntRoundTrip(n: int)
    ensures ParseInt(IntToString(n)) == Some(n)
  {
    var m: nat := if n < 0 then -n else n;
    var d := NatToString(m);
    DigitsRoundTrip(m);
    hide DigitsValue, NatToString;
    var s := IntToString(n);
    assert IsDigit(d[0]) && IsDigit(d[|d| - 1]);
    assert s[|s| - 1] == d[|d| - 1];
    NumberTrimmed(s);
    hide TrimLeft, TrimRight;
    if n < 0 {
      assert s[1..] == d;
    }
  }

  lemma NumberTrimmed(s: string)
    requires s != "" && !In(s[0], NumberBlank) && !In(s[|s| - 1], NumberBlank)
    ensures TrimRight(NumberBlank, TrimLeft(NumberBlank, s)) == s
  {
    hide In;
    assert TrimLeft(NumberBlank, s) == s;
    TrimRightId(NumberBlank, s);
  }

  lemma IntToStringInjective(m: int, n: int)
    requires IntToString(m) == IntToString(n)
    ensures m == n
  {
    IntRoundTrip(m);
    IntRoundTrip(n);
  }
}
