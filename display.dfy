/** `Display for Mytime`: the text `HH:MM:SS` built from the raw fields, each
    zero-padded to at least two decimal digits. The value is not normalized
    first, and an hour of 100 or more prints with more than two digits. */
module Display {
  import opened Duration

  predicate IsDigit(c: char) {
    '0' <= c <= '9'
  }

  predicate IsDigits(s: string) {
    forall i :: 0 <= i < |s| ==> IsDigit(s[i])
  }

  function DigitChar(d: nat): (c: char)
    requires d < 10
    ensures IsDigit(c) && c as int - '0' as int == d
  {
    (d + '0' as int) as char
  }

  /** The decimal digits of `n`, most significant first, without leading zeros. */
  function Decimal(n: nat): (s: string)
    ensures |s| >= 1 && IsDigits(s)
    ensures n < 10 <==> |s| == 1
    ensures n > 0 ==> s[0] != '0'
    ensures n == 0 ==> s == "0"
  {
    if n < 10 then [DigitChar(n)] else Decimal(n / 10) + [DigitChar(n % 10)]
  }

  /** The number a string of decimal digits denotes. */
  function DecimalValue(s: string): nat
    requires IsDigits(s)
  {
    if s == [] then 0
    else DecimalValue(s[..|s| - 1]) * 10 + (s[|s| - 1] as int - '0' as int)
  }

  /** `{:02}`: the decimal digits, with one leading zero when there is only one. */
  function Pad2(n: nat): (s: string)
    ensures IsDigits(s) && |s| >= 2
    ensures n < 100 ==> |s| == 2
    ensures n < 10 ==> s[0] == '0'
    ensures n >= 10 ==> s[0] != '0'
  {
    if n < 10 then "0" + Decimal(n) else Decimal(n)
  }

  /** `write!(f, "{:02}:{:02}:{:02}", hour, minute, second)`: at least eight
      characters, and exactly `HH:MM:SS` for a normal value whose hour is
      below 100. */
  function Format(t: Hms): (s: string)
    ensures |s| >= 8
    ensures IsNormal(t) && t.hour < 100 ==> |s| == 8
  {
    Pad2(t.hour) + ":" + Pad2(t.minute) + ":" + Pad2(t.second)
  }

  /** Reading back the digits of `n` gives `n`. */
  lemma {:induction false} DecimalRoundTrip(n: nat)
    ensures DecimalValue(Decimal(n)) == n
  {
    if n >= 10 {
      var s := Decimal(n);
      assert s[..|s| - 1] == Decimal(n / 10);
      DecimalRoundTrip(n / 10);
    }
  }

  /** A leading zero does not change the number. */
  lemma {:induction false} LeadingZero(s: string)
    requires IsDigits(s)
    ensures DecimalValue("0" + s) == DecimalValue(s)
  {
    if s != [] {
      assert ("0" + s)[..|s|] == "0" + s[..|s| - 1];
      LeadingZero(s[..|s| - 1]);
    }
  }

  /** Reading back a padded field gives the field. */
  lemma {:induction false} Pad2RoundTrip(n: nat)
    ensures DecimalValue(Pad2(n)) == n
  {
    DecimalRoundTrip(n);
    if n < 10 {
      LeadingZero(Decimal(n));
    }
  }

  lemma ColonAfter(x: string, y: string)
    ensures (x + ":" + y)[|x|] == ':'
  {
  }

  /** Text of the form `x:y` splits uniquely at its first colon when `x` is digits. */
  lemma {:induction false} SplitAtColon(x: string, y: string, x': string, y': string)
    requires IsDigits(x) && IsDigits(x')
    requires x + ":" + y == x' + ":" + y'
    ensures x == x' && y == y'
  {
    var s := x + ":" + y;
    ColonAfter(x, y);
    ColonAfter(x', y');
    if |x| < |x'| {
      assert false;
    } else if |x'| < |x| {
      assert false;
    }
    assert x == s[..|x|] == x';
    assert y == s[|x| + 1..] == y';
  }

  /** The minute and second read back from their `MM:SS` text. */
  lemma {:induction false} MinuteSecondInjective(m: nat, s: nat, m': nat, s': nat)
    requires Pad2(m) + ":" + Pad2(s) == Pad2(m') + ":" + Pad2(s')
    ensures m == m' && s == s'
  {
    SplitAtColon(Pad2(m), Pad2(s), Pad2(m'), Pad2(s'));
    Pad2RoundTrip(m);
    Pad2RoundTrip(m');
    Pad2RoundTrip(s);
    Pad2RoundTrip(s');
  }

  /** The text is the hour's digits, a colon, and the `MM:SS` rest. */
  lemma FormatSplits(t: Hms)
    ensures Format(t) == Pad2(t.hour) + ":" + (Pad2(t.minute) + ":" + Pad2(t.second))
  {
  }

  /** The hour reads back from the text before its first colon, and the rest
      of the text is the same. */
  lemma {:induction false} HourInjective(h: nat, rest: string, h': nat, rest': string)
    requires Pad2(h) + ":" + rest == Pad2(h') + ":" + rest'
    ensures h == h' && rest == rest'
  {
    SplitAtColon(Pad2(h), rest, Pad2(h'), rest');
    Pad2RoundTrip(h);
    Pad2RoundTrip(h');
  }

  /** The rendering is field-literal: two values with the same text have the
      same three fields, so values that are equal but laid out differently
      render differently. */
  lemma {:induction false} FormatInjective(a: Hms, b: Hms)
    requires Format(a) == Format(b)
    ensures a == b
  {
    FormatSplits(a);
    FormatSplits(b);
    HourInjective(a.hour, Pad2(a.minute) + ":" + Pad2(a.second), b.hour, Pad2(b.minute) + ":" + Pad2(b.second));
    MinuteSecondInjective(a.minute, a.second, b.minute, b.second);
  }

  /** The renderings of the fixture values, and of the unnormalized
      `{0, 0, 5025}`, which prints field by field. */
  lemma FormatFixtures()
    ensures Format(Hms(1, 23, 45)) == "01:23:45" && Format(Zero) == "00:00:00"
    ensures Format(Hms(0, 0, 5025)) == "00:00:5025"
  {
  }

  /** The renderings the addition and multiplication tests expect. */
  lemma FormatSums()
    ensures Format(Hms(2, 47, 30)) == "02:47:30" && Format(Hms(8, 22, 30)) == "08:22:30"
  {
  }

  /** The renderings the subtraction test expects. */
  lemma FormatDifferences()
    ensures Format(Hms(2, 36, 15)) == "02:36:15" && Format(Hms(1, 12, 30)) == "01:12:30"
  {
  }

  /** The renderings the division test expects. */
  lemma FormatQuotients()
    ensures Format(Hms(0, 27, 55)) == "00:27:55"
    ensures Format(Hms(0, 20, 56)) == "00:20:56" && Format(Hms(0, 10, 28)) == "00:10:28"
  {
  }
}
