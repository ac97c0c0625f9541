/**
 * The countdown display: `formatTime` renders a non-negative number of seconds as
 * `MM:SS`, where MM is the whole number of minutes and SS the remaining seconds,
 * each left-padded with '0' to at least two characters. Minutes are not capped.
 * `ParseClock` reads such a display back, so that the rendering can be shown to
 * lose nothing.
 */
module TimeFormat {
  import opened Optional

  predicate IsDigit(c: char) {
    '0' <= c <= '9'
  }

  predicate AllDigits(s: string) {
    forall i :: 0 <= i < |s| ==> IsDigit(s[i])
  }

  function DigitChar(d: nat): (c: char)
    requires d < 10
    ensures IsDigit(c)
    ensures DigitValue(c) == d
  {
    (48 + d) as char
  }

  function DigitValue(c: char): (d: nat)
    requires IsDigit(c)
    ensures d < 10
  {
    c as int - 48
  }

  /** The number a string of decimal digits denotes; leading zeros are allowed. */
  function Value(s: string): nat
    requires AllDigits(s)
  {
    if |s| == 0 then 0 else Value(s[..|s| - 1]) * 10 + DigitValue(s[|s| - 1])
  }

  /** `String(n)` for a non-negative integer: its shortest decimal numeral. */
  function Decimal(n: nat): (s: string)
    ensures |s| >= 1 && AllDigits(s)
    ensures s[0] == '0' <==> n == 0
    ensures n == 0 ==> s == "0"
    ensures Value(s) == n
  {
    if n < 10 then
      [DigitChar(n)]
    else
      var prefix := Decimal(n / 10);
      var s := prefix + [DigitChar(n % 10)];
      assert s[..|s| - 1] == prefix;
      s
  }

  /** `k` copies of the digit '0'. */
  function Zeros(k: nat): (r: string)
    ensures |r| == k && AllDigits(r)
  {
    if k == 0 then [] else "0" + Zeros(k - 1)
  }

  /** `s.padStart(2, "0")`: prepend zeros until the string is at least two long. */
  function Pad2(s: string): (r: string)
    ensures |r| == if |s| >= 2 then |s| else 2
    ensures r == Zeros(|r| - |s|) + s
  {
    if |s| >= 2 then
      assert s == Zeros(0) + s;
      s
    else
      Zeros(2 - |s|) + s
  }

  /** Leading zeros do not change the number a digit string denotes. */
  lemma {:induction false} LeadingZero(s: string)
    requires AllDigits(s)
    ensures AllDigits("0" + s)
    ensures Value("0" + s) == Value(s)
  {
    var z := "0" + s;
    if |s| > 0 {
      assert z[..|z| - 1] == "0" + s[..|s| - 1];
      LeadingZero(s[..|s| - 1]);
    }
  }

  lemma {:induction false} ZerosValue(k: nat, s: string)
    requires AllDigits(s)
    ensures AllDigits(Zeros(k) + s)
    ensures Value(Zeros(k) + s) == Value(s)
  {
    if k == 0 {
      assert Zeros(k) + s == s;
    } else {
      assert Zeros(k) + s == "0" + (Zeros(k - 1) + s);
      ZerosValue(k - 1, s);
      LeadingZero(Zeros(k - 1) + s);
    }
  }

  lemma Pad2Value(s: string)
    requires AllDigits(s)
    ensures AllDigits(Pad2(s))
    ensures Value(Pad2(s)) == Value(s)
  {
    var r := Pad2(s);
    ZerosValue(|r| - |s|, s);
  }

  /** The field for one number on the display: `String(n).padStart(2, "0")`. */
  function Field(n: nat): (r: string)
    ensures |r| >= 2 && AllDigits(r)
    ensures Value(r) == n
    ensures n < 100 ==> |r| == 2
    ensures n >= 100 ==> |r| >= 3
    ensures r[0] == '0' <==> n < 10
    ensures n >= 10 ==> r == Decimal(n)
  {
    Pad2Value(Decimal(n));
    DecimalLength(n);
    Pad2(Decimal(n))
  }

  lemma {:induction false} DecimalLength(n: nat)
    ensures n < 100 ==> |Decimal(n)| <= 2
    ensures n >= 10 ==> |Decimal(n)| >= 2
    ensures n >= 100 ==> |Decimal(n)| >= 3
  {
    if n >= 10 {
      DecimalLength(n / 10);
    }
  }

  /** The digits before the colon of a display. */
  function MinutesPart(r: string): string
    requires |r| >= 3
  {
    r[..|r| - 3]
  }

  /** The two digits after the colon of a display. */
  function SecondsPart(r: string): string
    requires |r| >= 2
  {
    r[|r| - 2..]
  }

  /**
   * `formatTime(t)` for t >= 0: minutes `Math.floor(t / 60)` and seconds `t % 60`
   * (the two agree with Dafny's division here because t is not negative).
   */
  function FormatTime(t: nat): (r: string)
    ensures |r| >= 5 && r[|r| - 3] == ':'
    ensures AllDigits(MinutesPart(r)) && AllDigits(SecondsPart(r))
    ensures Value(MinutesPart(r)) == t / 60
    ensures Value(SecondsPart(r)) == t % 60
  {
    var secs := t % 60;
    assert secs < 100;
    var minutes := Field(t / 60);
    var seconds := Field(secs);
    Join(minutes, seconds);
    minutes + ":" + seconds
  }

  /** The two fields of `m + ":" + s` are recovered by slicing from the end. */
  lemma Join(m: string, s: string)
    requires |m| >= 2 && |s| == 2
    ensures var r := m + ":" + s;
      |r| >= 5 && r[|r| - 3] == ':' && MinutesPart(r) == m && SecondsPart(r) == s
  {
    var r := m + ":" + s;
    assert MinutesPart(r) == m;
    assert SecondsPart(r) == s;
  }

  /** Reads a string of decimal digits; None if some character is not a digit. */
  function ParseDigits(s: string): (r: Option<nat>)
  {
    if |s| == 0 then Some(0)
    else if !IsDigit(s[|s| - 1]) then None
    else match ParseDigits(s[..|s| - 1])
      case None => None
      case Some(v) => Some(v * 10 + DigitValue(s[|s| - 1]))
  }

  /** ParseDigits succeeds exactly on digit strings, and then yields their value. */
  lemma {:induction false} ParseDigitsValue(s: string)
    ensures ParseDigits(s).Some? <==> AllDigits(s)
    ensures AllDigits(s) ==> ParseDigits(s) == Some(Value(s))
  {
    if |s| > 0 {
      ParseDigitsValue(s[..|s| - 1]);
      if !AllDigits(s[..|s| - 1]) {
        var i :| 0 <= i < |s| - 1 && !IsDigit(s[..|s| - 1][i]);
        assert !IsDigit(s[i]);
      }
    }
  }

  /**
   * Reads a display back: at least two minute digits, a colon, exactly two second
   * digits denoting less than 60. Yields the total number of seconds.
   */
  function ParseClock(s: string): (r: Option<nat>)
    ensures r.Some? ==> |s| >= 5 && s[|s| - 3] == ':'
  {
    if |s| < 5 || s[|s| - 3] != ':' then None
    else match (ParseDigits(MinutesPart(s)), ParseDigits(SecondsPart(s)))
      case (Some(m), Some(sec)) => if sec < 60 then Some(m * 60 + sec) else None
      case _ => None
  }

  /** A display whose two fields are well formed parses to minutes * 60 + seconds. */
  lemma ParseClockFields(r: string, m: nat, sec: nat)
    requires |r| >= 5 && r[|r| - 3] == ':'
    requires AllDigits(MinutesPart(r)) && Value(MinutesPart(r)) == m
    requires AllDigits(SecondsPart(r)) && Value(SecondsPart(r)) == sec
    requires sec < 60
    ensures ParseClock(r) == Some(m * 60 + sec)
  {
    ParseDigitsValue(MinutesPart(r));
    ParseDigitsValue(SecondsPart(r));
  }

  /** Parsing the two fields back gives minutes * 60 + seconds == t. */
  lemma FormatParseRoundTrip(t: nat)
    ensures ParseClock(FormatTime(t)) == Some(t)
  {
    var m, sec := t / 60, t % 60;
    assert m * 60 + sec == t;
    ParseClockFields(FormatTime(t), m, sec);
  }

  /** Distinct times never share a display. */
  lemma FormatInjective(a: nat, b: nat)
    ensures a != b ==> FormatTime(a) != FormatTime(b)
  {
    FormatParseRoundTrip(a);
    FormatParseRoundTrip(b);
  }

  /**
   * The display is exactly five characters while the time is under 100 minutes;
   * from then on the minutes field is the unpadded numeral, so it grows with it.
   */
  lemma FormatWidth(t: nat)
    ensures t < 6000 ==> |FormatTime(t)| == 5
    ensures t >= 6000 ==> |FormatTime(t)| == |Decimal(t / 60)| + 3 > 5
  {
    var m, sec := t / 60, t % 60;
    assert m * 60 + sec == t && sec < 60;
    assert t < 6000 <==> m < 100;
    FormatTimeFields(t, m, sec);
  }

  /** A single digit is padded with one zero. */
  lemma FieldOfDigit(n: nat)
    requires n < 10
    ensures Field(n) == ['0', DigitChar(n)]
  {
    assert Decimal(n) == [DigitChar(n)];
  }

  /** Two digits need no padding. */
  lemma FieldOfTwoDigits(n: nat)
    requires 10 <= n < 100
    ensures Field(n) == [DigitChar(n / 10), DigitChar(n % 10)]
  {
    assert Decimal(n / 10) == [DigitChar(n / 10)];
  }

  /**
   * For any split t == m * 60 + s with s < 60, the display is the padded minutes
   * `m`, a colon, and the padded seconds `s`.
   */
  lemma FormatTimeFields(t: nat, m: nat, s: nat)
    requires t == m * 60 + s && s < 60
    ensures FormatTime(t) == Field(m) + ":" + Field(s)
  {
    assert t / 60 == m && t % 60 == s;
  }

  lemma FormatExampleMinuteAndFive()
    ensures FormatTime(65) == "01:05"
  {
    FieldOfDigit(1);
    FieldOfDigit(5);
    FormatTimeFields(65, 1, 5);
  }

  lemma FormatExampleZero()
    ensures FormatTime(0) == "00:00"
  {
    FieldOfDigit(0);
    FormatTimeFields(0, 0, 0);
  }

  /** Minutes are not capped at 59: an hour and a minute shows as 61 minutes. */
  lemma FormatExampleOverAnHour()
    ensures FormatTime(3661) == "61:01"
  {
    FieldOfTwoDigits(61);
    FieldOfDigit(1);
    FormatTimeFields(3661, 61, 1);
  }
}
