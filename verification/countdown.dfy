/**
 * The arithmetic of one countdown tick: the remaining time until the target
 * instant, truncated to whole seconds, split into days, hours, minutes and
 * seconds, and rendered as "{days}d Days HH:MM:SS".
 *
 * Remaining time is an integer number of microseconds (the resolution of a
 * time difference), so no floating point is involved.
 */
module Countdown {
  import opened Wrappers

  const MicrosPerSecond: nat := 1_000_000
  const SecondsPerDay: nat := 86400
  const SecondsPerHour: nat := 3600
  const SecondsPerMinute: nat := 60

  /** The text shown once the target instant has been reached. */
  const ReachedText: string := "\U{1F38A} 00:00:00"
  /** What separates the unpadded day count from the clock fields. */
  const DaysSeparator: string := "d Days "

  // ---------------------------------------------------------------------
  // Truncation to whole seconds

  /** Whole seconds of a microsecond count, truncated toward zero as an
      integer conversion of the (signed) number of seconds does. */
  function WholeSeconds(us: int): (s: int)
    ensures 0 <= us ==> 0 <= s && s * MicrosPerSecond <= us < s * MicrosPerSecond + MicrosPerSecond
    ensures us < 0 ==> s <= 0 && s * MicrosPerSecond - MicrosPerSecond < us <= s * MicrosPerSecond
  {
    if us >= 0 then us / MicrosPerSecond else -((-us) / MicrosPerSecond)
  }

  // ---------------------------------------------------------------------
  // Days / hours / minutes / seconds

  datatype Duration = Duration(days: nat, hours: nat, minutes: nat, seconds: nat)

  /** A duration whose clock fields are within their ranges. */
  predicate Canonical(d: Duration) {
    d.hours < 24 && d.minutes < 60 && d.seconds < 60
  }

  /** The number of seconds a duration stands for. */
  function Compose(d: Duration): nat {
    d.days * SecondsPerDay + d.hours * SecondsPerHour + d.minutes * SecondsPerMinute + d.seconds
  }

  /** Splits whole seconds by successive floor division and remainder:
      the parts add back up to the total, and each clock field is in range. */
  function Decompose(total: nat): (d: Duration)
    ensures Canonical(d)
    ensures Compose(d) == total
  {
    var remainder := total % SecondsPerDay;
    var d := Duration(total / SecondsPerDay, remainder / SecondsPerHour,
                      (remainder % SecondsPerHour) / SecondsPerMinute, remainder % SecondsPerMinute);
    assert remainder == (remainder / 3600) * 3600 + ((remainder % 3600) / 60) * 60 + remainder % 60 by {
      ClockSplit(remainder);
    }
    d
  }

  lemma ClockSplit(r: nat)
    ensures r == (r / 3600) * 3600 + ((r % 3600) / 60) * 60 + r % 60
  {
    var q, r2 := r / 3600, r % 3600;
    assert r == q * 3600 + r2;
    assert r2 == (r2 / 60) * 60 + r2 % 60;
    assert r % 60 == r2 % 60 by {
      assert r == (q * 60 + r2 / 60) * 60 + r2 % 60;
      DivModUnique(r, q * 60 + r2 / 60, r2 % 60, 60);
    }
  }

  /** Euclidean division is determined by its quotient and remainder. */
  lemma DivModUnique(a: nat, q: nat, r: nat, b: nat)
    requires 0 <= r < b
    requires a == q * b + r
    ensures a / b == q && a % b == r
  {
    var q', r' := a / b, a % b;
    assert a == q' * b + r';
    if q' < q {
      assert (q - q') * b == r' - r;
      assert (q - q') * b >= b by { MulAtLeast(q - q', b); }
    } else if q < q' {
      assert (q' - q) * b == r - r';
      assert (q' - q) * b >= b by { MulAtLeast(q' - q, b); }
    }
  }

  lemma MulAtLeast(k: nat, b: nat)
    requires k >= 1
    ensures k * b >= b
  {
  }

  /** Decomposition inverts composition on canonical durations, so a
      canonical duration and its number of seconds determine each other. */
  lemma DecomposeCompose(d: Duration)
    requires Canonical(d)
    ensures Decompose(Compose(d)) == d
  {
    var total := Compose(d);
    var r := d.hours * 3600 + d.minutes * 60 + d.seconds;
    assert r < SecondsPerDay;
    DivModUnique(total, d.days, r, SecondsPerDay);
    var r2 := d.minutes * 60 + d.seconds;
    DivModUnique(r, d.hours, r2, 3600);
    DivModUnique(r2, d.minutes, d.seconds, 60);
    assert r == (d.hours * 60 + d.minutes) * 60 + d.seconds;
    DivModUnique(r, d.hours * 60 + d.minutes, d.seconds, 60);
  }

  // ---------------------------------------------------------------------
  // Decimal digits

  predicate IsDigit(c: char) {
    '0' <= c <= '9'
  }

  predicate AllDigits(s: string) {
    forall i :: 0 <= i < |s| ==> IsDigit(s[i])
  }

  function DigitValue(c: char): (v: nat)
    requires IsDigit(c)
    ensures v < 10
  {
    c as int - '0' as int
  }

  function DigitChar(v: nat): (c: char)
    requires v < 10
    ensures IsDigit(c) && DigitValue(c) == v
  {
    ('0' as int + v) as char
  }

  /** The decimal text of a natural number, as an unformatted integer is
      printed: digits only, at least one, no leading zero. */
  function DecimalDigits(n: nat): (s: string)
    ensures |s| >= 1 && AllDigits(s)
    ensures |s| == 1 <==> n < 10
    ensures s[0] == '0' <==> n == 0
    decreases n
  {
    if n < 10 then [DigitChar(n)] else DecimalDigits(n / 10) + [DigitChar(n % 10)]
  }

  /** The value of a string of decimal digits (the reference reading). */
  function ParseDecimal(s: string): nat
    requires AllDigits(s)
  {
    if s == [] then 0 else 10 * ParseDecimal(s[..|s| - 1]) + DigitValue(s[|s| - 1])
  }

  /** Reading back the decimal text of a number gives the number. */
  lemma {:induction false} DecimalRoundTrip(n: nat)
    ensures ParseDecimal(DecimalDigits(n)) == n
    decreases n
  {
    var s := DecimalDigits(n);
    if n >= 10 {
      assert s[..|s| - 1] == DecimalDigits(n / 10);
      DecimalRoundTrip(n / 10);
    }
  }

  /** Conversely, every digit string without a leading zero is the decimal
      text of its value. */
  lemma {:induction false} ParseDecimalRoundTrip(s: string)
    requires |s| >= 1 && AllDigits(s)
    requires s[0] == '0' ==> |s| == 1
    ensures DecimalDigits(ParseDecimal(s)) == s
    decreases |s|
  {
    if |s| == 1 {
      assert s == [DigitChar(DigitValue(s[0]))];
    } else {
      var p := s[..|s| - 1];
      ParseDecimalRoundTrip(p);
      var q := ParseDecimal(p);
      assert q != 0 by {
        assert DecimalDigits(q)[0] == s[0];
      }
      var n := ParseDecimal(s);
      var v := DigitValue(s[|s| - 1]);
      assert n == 10 * q + v;
      DivModUnique(n, q, v, 10);
      assert s == p + [DigitChar(v)];
    }
  }

  /** A number zero-padded to at least two digits, as the format "02d"
      renders it. */
  function Pad2(n: nat): (s: string)
    ensures |s| >= 2 && AllDigits(s)
    ensures |s| == 2 <==> n < 100
    ensures s[0] == '0' <==> n < 10
    ensures ParseDecimal(s) == n
  {
    DecimalRoundTrip(n);
    if n < 10 then
      ['0'] + DecimalDigits(n)
    else
      assert n < 100 ==> |DecimalDigits(n / 10)| == 1;
      assert n >= 100 ==> |DecimalDigits(n / 10)| >= 2;
      DecimalDigits(n)
  }

  // ---------------------------------------------------------------------
  // Rendering

  /** The counting text for a whole number of seconds. */
  function CountingText(total: nat): (t: string)
    ensures |t| == |DecimalDigits(total / SecondsPerDay)| + 15
  {
    var d := Decompose(total);
    DecimalDigits(d.days) + DaysSeparator + Pad2(d.hours) + ":" + Pad2(d.minutes) + ":" + Pad2(d.seconds)
  }

  /** Reads the four fields of a counting text: days without a leading
      zero, then hours, minutes and seconds in range (hours below 24,
      minutes and seconds below 60). */
  function ReadFields(days: string, hh: string, mm: string, ss: string): Option<nat> {
    if && |days| >= 1 && AllDigits(days) && (days[0] == '0' ==> |days| == 1)
       && AllDigits(hh) && AllDigits(mm) && AllDigits(ss)
       && Canonical(Duration(ParseDecimal(days), ParseDecimal(hh), ParseDecimal(mm), ParseDecimal(ss)))
    then Some(Compose(Duration(ParseDecimal(days), ParseDecimal(hh), ParseDecimal(mm), ParseDecimal(ss))))
    else None
  }

  /** Reads a counting text back into the number of seconds it shows: the
      fields, the separator after the days and the two colons, in their
      places. Anything else is not a counting text. */
  function ParseCountingText(t: string): Option<nat> {
    if |t| < 16 then None
    else
      var n := |t|;
      if t[n - 15..n - 8] == DaysSeparator && t[n - 6] == ':' && t[n - 3] == ':'
      then ReadFields(t[..n - 15], t[n - 8..n - 6], t[n - 5..n - 3], t[n - 2..])
      else None
  }

  /** Any text splits at the counting-text positions and joins back. */
  lemma CountingSplit(t: string)
    requires |t| >= 16
    ensures var n := |t|;
      t == t[..n - 15] + t[n - 15..n - 8] + t[n - 8..n - 6] + [t[n - 6]] + t[n - 5..n - 3] + [t[n - 3]] + t[n - 2..]
  {
    var n := |t|;
    var u := t[..n - 15] + t[n - 15..n - 8] + t[n - 8..n - 6] + [t[n - 6]] + t[n - 5..n - 3] + [t[n - 3]] + t[n - 2..];
    assert |u| == n;
    forall i | 0 <= i < n
      ensures u[i] == t[i]
    {
    }
  }

  /** A two-digit field reads back to a value whose two-digit rendering is
      the field itself. */
  lemma {:induction false} Pad2Inverse(s: string)
    requires |s| == 2 && AllDigits(s)
    ensures Pad2(ParseDecimal(s)) == s
  {
    var v := ParseDecimal(s);
    assert ParseDecimal(s[..1]) == DigitValue(s[0]) by {
      assert s[..1][..0] == [];
    }
    if s[0] == '0' {
      assert [s[1]] == DecimalDigits(v);
      assert s == ['0'] + [s[1]];
    } else {
      ParseDecimalRoundTrip(s);
    }
  }

  /** Where the parts of a counting-text layout sit, whatever the parts are. */
  lemma CountingLayout(ds: string, h: string, m: string, s: string)
    requires |h| == 2 && |m| == 2 && |s| == 2
    ensures var t := ds + DaysSeparator + h + ":" + m + ":" + s;
      var n := |t|;
      && n == |ds| + 15
      && t[..n - 15] == ds && t[n - 15..n - 8] == DaysSeparator
      && t[n - 8..n - 6] == h && t[n - 6] == ':' && t[n - 5..n - 3] == m
      && t[n - 3] == ':' && t[n - 2..] == s
  {
    var clock := h + ":" + m + ":" + s;
    var t := ds + DaysSeparator + h + ":" + m + ":" + s;
    assert t == (ds + DaysSeparator) + clock;
    var n := |t|;
    assert t[..n - 8] == ds + DaysSeparator;
    assert t[n - 8..] == clock;
    assert clock[..2] == h && clock[3..5] == m && clock[6..] == s;
  }

  /** The rendered fields of a total read back to that total. */
  lemma ReadRenderedFields(total: nat)
    ensures var d := Decompose(total);
      ReadFields(DecimalDigits(d.days), Pad2(d.hours), Pad2(d.minutes), Pad2(d.seconds)) == Some(total)
  {
    var d := Decompose(total);
    DecimalRoundTrip(d.days);
    var ds, h, m, s := DecimalDigits(d.days), Pad2(d.hours), Pad2(d.minutes), Pad2(d.seconds);
    assert Duration(ParseDecimal(ds), ParseDecimal(h), ParseDecimal(m), ParseDecimal(s)) == d;
  }

  /** The counting text determines the whole seconds it was rendered from:
      no two totals share a text. */
  lemma CountingTextRoundTrip(total: nat)
    ensures ParseCountingText(CountingText(total)) == Some(total)
  {
    var d := Decompose(total);
    var ds, h, m, s := DecimalDigits(d.days), Pad2(d.hours), Pad2(d.minutes), Pad2(d.seconds);
    var t := ds + DaysSeparator + h + ":" + m + ":" + s;
    assert CountingText(total) == t;
    var n := |t|;
    assert t[..n - 15] == ds && t[n - 8..n - 6] == h && t[n - 5..n - 3] == m && t[n - 2..] == s
        && t[n - 15..n - 8] == DaysSeparator && t[n - 6] == ':' && t[n - 3] == ':' by {
      CountingLayout(ds, h, m, s);
    }
    assert ReadFields(ds, h, m, s) == Some(total) by {
      ReadRenderedFields(total);
    }
  }

  /** Conversely, every text the reader accepts is the counting text of the
      number it reads: the reader accepts nothing else. */
  lemma ParseCountingTextRoundTrip(t: string)
    requires ParseCountingText(t).Some?
    ensures CountingText(ParseCountingText(t).value) == t
  {
    var n := |t|;
    var days, hh, mm, ss := t[..n - 15], t[n - 8..n - 6], t[n - 5..n - 3], t[n - 2..];
    var d := Duration(ParseDecimal(days), ParseDecimal(hh), ParseDecimal(mm), ParseDecimal(ss));
    DecomposeCompose(d);
    ParseDecimalRoundTrip(days);
    Pad2Inverse(hh);
    Pad2Inverse(mm);
    Pad2Inverse(ss);
    CountingSplit(t);
    assert [t[n - 6]] == ":" && [t[n - 3]] == ":";
  }

  /** Rendering and reading are inverse: a text is the counting text of `total`
      exactly when the reader reads `total` from it. */
  lemma CountingTextExactly(total: nat, t: string)
    ensures CountingText(total) == t <==> ParseCountingText(t) == Some(total)
  {
    CountingTextRoundTrip(total);
    if ParseCountingText(t) == Some(total) {
      ParseCountingTextRoundTrip(t);
    }
  }

  /** The time label's text for a tick with the given remaining time: the
      reached text exactly when nothing remains, otherwise the counting text
      of the truncated whole seconds. */
  function CountdownText(remainingUs: int): (t: string)
    ensures t == ReachedText <==> remainingUs <= 0
  {
    if remainingUs <= 0 then
      ReachedText
    else
      var total := WholeSeconds(remainingUs);
      assert |CountingText(total)| >= 16;
      CountingText(total)
  }

  /** The time label's text says whether the target is reached and, if not,
      exactly how many whole seconds remain. */
  lemma CountdownTextReadsBack(remainingUs: int)
    ensures ParseCountingText(CountdownText(remainingUs))
            == if remainingUs > 0 then Some(WholeSeconds(remainingUs)) else None
  {
    if remainingUs > 0 {
      CountingTextRoundTrip(WholeSeconds(remainingUs));
    }
  }

  /** Ten seconds remaining. */
  lemma ExampleTenSeconds()
    ensures CountdownText(10 * MicrosPerSecond) == "0d Days 00:00:10"
  {
    assert WholeSeconds(10 * MicrosPerSecond) == 10;
    assert Decompose(10) == Duration(0, 0, 0, 10);
    assert DecimalDigits(0) == "0" && DecimalDigits(1) == "1";
    assert DecimalDigits(10) == "10";
    assert Pad2(0) == "00" && Pad2(10) == "10";
    assert CountingText(10) == "0d Days 00:00:10";
  }

  /** Less than one second remaining truncates to zero seconds, which is
      still the counting text and not the reached text. */
  lemma ExampleUnderOneSecond()
    ensures CountdownText(400_000) == "0d Days 00:00:00"
  {
    assert WholeSeconds(400_000) == 0;
    assert Decompose(0) == Duration(0, 0, 0, 0);
    assert DecimalDigits(0) == "0";
  }

  /** One day, two hours, three minutes and four seconds and a fraction. */
  lemma ExampleOneDay()
    ensures CountdownText(93784 * MicrosPerSecond + 999_999) == "1d Days 02:03:04"
  {
    assert WholeSeconds(93784 * MicrosPerSecond + 999_999) == 93784;
    assert Decompose(93784) == Duration(1, 2, 3, 4) by {
      DecomposeCompose(Duration(1, 2, 3, 4));
    }
    assert DecimalDigits(1) == "1" && DecimalDigits(2) == "2";
    assert DecimalDigits(3) == "3" && DecimalDigits(4) == "4";
  }

  /** The day count is not padded. */
  lemma ExampleManyDays()
    ensures CountdownText(1234 * SecondsPerDay * MicrosPerSecond) == "1234d Days 00:00:00"
  {
    assert WholeSeconds(1234 * SecondsPerDay * MicrosPerSecond) == 1234 * SecondsPerDay;
    assert Decompose(1234 * SecondsPerDay) == Duration(1234, 0, 0, 0) by {
      DecomposeCompose(Duration(1234, 0, 0, 0));
    }
    assert DecimalDigits(0) == "0" && Pad2(0) == "00";
    assert DecimalDigits(12) == "12";
    assert DecimalDigits(123) == "123";
    assert DecimalDigits(1234) == "1234";
    assert CountingText(1234 * SecondsPerDay) == "1234d Days 00:00:00";
  }
}
