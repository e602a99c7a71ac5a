/** What the text functions mean: decimal numerals by place value, integer texts and trimming by their shape. */
module TextMeaning {
  import opened Wrappers
  import opened Text

  // ------------------------------------------------------------ numerals

  function Pow10(n: nat): nat {
    if n == 0 then 1 else 10 * Pow10(n - 1)
  }

  function DigitCount(s: string): nat {
    if s == "" then 0 else (if IsDigit(s[0]) then 1 else 0) + DigitCount(s[1..])
  }

  /** The number the digits of `s` write: each digit times ten to the number of digits after it. */
  function Decimal(s: string): nat {
    if s == "" then 0
    else (if IsDigit(s[0]) then DigitValue(s[0]) * Pow10(DigitCount(s[1..])) else 0) + Decimal(s[1..])
  }

  /** Digits, and underscores only between two digits. */
  predicate Numeral(s: string) {
    && s != "" && IsDigit(s[0]) && IsDigit(s[|s| - 1])
    && forall i :: 0 < i < |s| - 1 && !IsDigit(s[i]) ==> s[i] == '_' && IsDigit(s[i - 1]) && IsDigit(s[i + 1])
  }

  lemma {:induction false} CountSnoc(s: string, c: char)
    ensures DigitCount(s + [c]) == DigitCount(s) + if IsDigit(c) then 1 else 0
  {
    if s != "" {
      assert (s + [c])[1..] == s[1..] + [c];
      CountSnoc(s[1..], c);
    } else {
      assert (s + [c])[1..] == "";
    }
  }

  lemma {:induction false} DecimalSnoc(s: string, c: char)
    ensures Decimal(s + [c]) == if IsDigit(c) then 10 * Decimal(s) + DigitValue(c) else Decimal(s)
  {
    var t := s + [c];
    if s == "" {
      assert t[1..] == "";
    } else {
      assert t[1..] == s[1..] + [c];
      DecimalSnoc(s[1..], c);
      CountSnoc(s[1..], c);
      if IsDigit(s[0]) && IsDigit(c) {
        TimesTen(DigitValue(s[0]), Pow10(DigitCount(s[1..])));
      }
    }
  }

  lemma TimesTen(a: nat, p: nat)
    ensures a * (10 * p) == 10 * (a * p)
  {
  }

  /** A text has a value exactly when it is a numeral, and the value is what its digits write. */
  lemma {:induction false} DigitsValueExactly(s: string)
    ensures DigitsValue(s) == if Numeral(s) then Some(Decimal(s)) else None
  {
    if s != "" && IsDigit(s[|s| - 1]) {
      var front, last := s[..|s| - 1], s[|s| - 1];
      assert s == front + [last];
      DecimalSnoc(front, last);
      if front == "" {
      } else if front[|front| - 1] == '_' {
        var high := front[..|front| - 1];
        assert front == high + ['_'];
        DecimalSnoc(high, '_');
        DigitsValueExactly(high);
        NumeralFront(s, high);
      } else {
        DigitsValueExactly(front);
        NumeralFront(s, front);
      }
    }
  }

  /** A numeral without its last digit, and without the underscore before it, is a numeral. */
  lemma NumeralFront(s: string, high: string)
    requires |s| > 1 && IsDigit(s[|s| - 1])
    requires high == if s[|s| - 2] == '_' then s[..|s| - 2] else s[..|s| - 1]
    ensures Numeral(s) <==> Numeral(high)
  {
    if Numeral(s) {
      assert s[|s| - 2] == '_' ==> |s| > 2 && IsDigit(s[|s| - 3]);
      assert forall i :: 0 <= i < |high| ==> high[i] == s[i];
      assert Numeral(high);
    }
    if Numeral(high) {
      assert forall i :: 0 <= i < |high| ==> high[i] == s[i];
      assert IsDigit(s[|high| - 1]);
      forall i | 0 < i < |s| - 1 && !IsDigit(s[i])
        ensures s[i] == '_' && IsDigit(s[i - 1]) && IsDigit(s[i + 1])
      {
        if i < |high| - 1 {
          assert high[i] == s[i] && high[i - 1] == s[i - 1] && high[i + 1] == s[i + 1];
        }
      }
    }
  }

  lemma DigitsAreNumeral(s: string)
    requires s != "" && forall i :: 0 <= i < |s| ==> IsDigit(s[i])
    ensures Numeral(s)
  {
  }

  /** `str(n)` writes n: digits without a leading zero, and a sign in front of a negative number. */
  lemma {:induction false} NatToStringWrites(n: nat)
    ensures var s := NatToString(n); Numeral(s) && Decimal(s) == n && (s[0] == '0' ==> s == "0")
  {
    DigitsRoundTrip(n);
    DigitsValueExactly(NatToString(n));
    NoLeadingZero(n);
  }

  lemma {:induction false} NoLeadingZero(n: nat)
    ensures NatToString(n)[0] == '0' ==> n == 0
  {
    if n >= 10 {
      NoLeadingZero(n / 10);
    }
  }

  // ------------------------------------------------------------ edges

  predicate All(k: CharClass, t: string) {
    forall i :: 0 <= i < |t| ==> In(t[i], k)
  }

  /** Neither the first nor the last character is of class `k`. */
  predicate Bare(k: CharClass, t: string) {
    t == "" || (!In(t[0], k) && !In(t[|t| - 1], k))
  }

  lemma {:induction false} TrimRightAll(k: CharClass, t: string, b: string)
    requires All(k, b) && (t != "" ==> !In(t[|t| - 1], k))
    ensures TrimRight(k, t + b) == t
  {
    if t != "" {
      assert (t + b)[1..] == t[1..] + b;
      TrimRightAll(k, t[1..], b);
    } else if b != "" {
      assert t + b == b && (t + b)[1..] == t + b[1..];
      TrimRightAll(k, t, b[1..]);
    }
  }

  /** Trimming a text takes off exactly the characters of the class at its two ends. */
  lemma TrimExactly(k: CharClass, a: string, t: string, b: string)
    requires All(k, a) && All(k, b) && Bare(k, t)
    ensures TrimRight(k, TrimLeft(k, a + t + b)) == t
  {
    var s := a + t + b;
    if t == "" {
      assert forall i :: 0 <= i < |s| ==> In(s[i], k);
      RunIs(k, s, |s|);
      assert s[|s|..] == "";
    } else {
      assert s[|a|] == t[0];
      RunIs(k, s, |a|);
      assert s[|a|..] == t + b;
      TrimRightAll(k, t, b);
    }
  }

  /** Any text falls into the characters of a class at its ends and what they surround. */
  lemma TrimParts(k: CharClass, s: string) returns (a: string, t: string, b: string)
    ensures s == a + t + b && All(k, a) && All(k, b) && Bare(k, t)
    ensures t == TrimRight(k, TrimLeft(k, s))
  {
    var rest := TrimLeft(k, s);
    a := LeftPart(k, s);
    t := TrimRight(k, rest);
    b := RightPart(k, rest);
    EdgesBare(k, s);
    hide TrimLeft, TrimRight;
    assert s == a + (t + b);
  }

  lemma LeftPart(k: CharClass, s: string) returns (a: string)
    ensures s == a + TrimLeft(k, s) && All(k, a)
  {
    a := s[..Run(k, s)];
    hide Run;
  }

  lemma RightPart(k: CharClass, s: string) returns (b: string)
    ensures s == TrimRight(k, s) + b && All(k, b)
  {
    var t := TrimRight(k, s);
    hide TrimRight;
    b := s[|t|..];
    assert forall i :: 0 <= i < |b| ==> b[i] == s[|t| + i];
  }

  lemma EdgesBare(k: CharClass, s: string)
    ensures Bare(k, TrimRight(k, TrimLeft(k, s)))
  {
    var rest := TrimLeft(k, s);
    assert rest != "" ==> rest[0] == s[Run(k, s)];
    hide Run, TrimLeft, TrimRight;
    var t := TrimRight(k, rest);
    assert t != "" ==> t[0] == rest[0];
  }

  /** `str.strip` takes off exactly the blanks at both ends. */
  lemma StripExactly(a: string, t: string, b: string)
    requires All(Space, a) && All(Space, b) && Bare(Space, t)
    ensures Strip(a + t + b) == t
  {
    TrimExactly(Space, a, t, b);
  }

  /** The text is `t` between blanks. */
  ghost predicate StripsTo(s: string, t: string) {
    exists a, b :: s == a + t + b && All(Space, a) && All(Space, b) && Bare(Space, t)
  }

  lemma StripIs(s: string, t: string)
    ensures StripsTo(s, t) <==> Strip(s) == t
  {
    if StripsTo(s, t) {
      var a, b :| s == a + t + b && All(Space, a) && All(Space, b) && Bare(Space, t);
      StripExactly(a, t, b);
    }
    var a, u, b := TrimParts(Space, s);
    assert StripsTo(s, u);
  }

  // ------------------------------------------------------------ integer texts

  datatype Sign = NoSign | PlusSign | MinusSign

  function SignText(sign: Sign): string {
    match sign case NoSign => "" case PlusSign => "+" case MinusSign => "-"
  }

  function SignedValue(sign: Sign, n: int): int {
    if sign.MinusSign? then -n else n
  }

  /** The text writes the integer: blanks, a sign or none, a numeral, blanks. */
  ghost predicate Writes(s: string, n: int) {
    exists a, sign, d, b :: WritesAs(s, n, a, sign, d, b)
  }

  predicate WritesAs(s: string, n: int, a: string, sign: Sign, d: string, b: string) {
    && s == a + (SignText(sign) + d) + b && All(NumberBlank, a) && All(NumberBlank, b)
    && Numeral(d) && n == SignedValue(sign, Decimal(d))
  }

  lemma ParseTrimmed(t: string)
    requires t != "" && Bare(NumberBlank, t)
    ensures ParseInt(t)
         == if t[0] == '-' then Signed(true, DigitsValue(t[1..]))
            else Signed(false, DigitsValue(if t[0] == '+' then t[1..] else t))
  {
    NumberTrimmed(t);
    hide DigitsValue, TrimRight, TrimLeft, In;
  }

  lemma SignedNumeral(t: string, sign: Sign, d: string)
    requires t == SignText(sign) + d && t != "" && Bare(NumberBlank, t)
    requires sign.NoSign? ==> t[0] != '+' && t[0] != '-'
    ensures ParseInt(t) == if Numeral(d) then Some(SignedValue(sign, Decimal(d))) else None
  {
    DigitsValueExactly(d);
    ParseTrimmed(t);
    hide ParseInt, DigitsValue, Numeral, Decimal, In, Bare;
    assert t[|SignText(sign)|..] == d;
  }

  /** `int(s)` succeeds exactly on the texts that write an integer, with that integer. */
  lemma ParseIntExactly(s: string, n: int)
    ensures ParseInt(s) == Some(n) <==> Writes(s, n)
  {
    hide WritesAs, ParseInt;
    if a, sign, d, b :| WritesAs(s, n, a, sign, d, b) {
      WrittenParses(s, n, a, sign, d, b);
    }
    if ParseInt(s) == Some(n) {
      ParsedIsWritten(s, n);
    }
  }

  lemma NumeralEdges(d: string, t: string, sign: Sign)
    requires Numeral(d) && t == SignText(sign) + d
    ensures t != "" && Bare(NumberBlank, t)
    ensures sign.NoSign? ==> t[0] != '+' && t[0] != '-'
  {
    assert t[|t| - 1] == d[|d| - 1];
  }

  lemma WrittenParses(s: string, n: int, a: string, sign: Sign, d: string, b: string)
    requires WritesAs(s, n, a, sign, d, b)
    ensures ParseInt(s) == Some(n)
  {
    var t := SignText(sign) + d;
    NumeralEdges(d, t, sign);
    TrimExactly(NumberBlank, a, t, b);
    NumberTrimmed(t);
    SignedNumeral(t, sign, d);
    hide DigitsValue, Numeral, Decimal, TrimRight, TrimLeft, In;
  }

  lemma ParsedIsWritten(s: string, n: int)
    requires ParseInt(s) == Some(n)
    ensures Writes(s, n)
  {
    var a, t, b := TrimParts(NumberBlank, s);
    hide DigitsValue, Decimal, TrimRight, TrimLeft, Numeral, In;
    var sign := if t != "" && t[0] == '+' then PlusSign else if t != "" && t[0] == '-' then MinusSign else NoSign;
    var d := t[|SignText(sign)|..];
    assert t == SignText(sign) + d;
    DigitsValueExactly(d);
    assert WritesAs(s, n, a, sign, d, b);
  }
}
