/** The pure part of the exam screen: the mm:ss rendering of the remaining
    time. The answer handler itself updates the shared session state and is
    modelled as methods of `App.ExamSession`. */
module ExamScreen {
  import opened Text

  /** JavaScript's `%` on integers: the remainder takes the sign of the dividend. */
  function JsRemainder(a: int, b: int): (r: int)
    requires b > 0
    ensures a >= 0 ==> 0 <= r < b && (a / b) * b + r == a
  {
    if a >= 0 then a % b else -((-a) % b)
  }

  /** `Math.floor(seconds / 60)`; Dafny's division by a positive divisor floors. */
  function WholeMinutes(seconds: int): int
  {
    seconds / 60
  }

  /** `formatTime`: minutes and seconds, each left-padded with '0' to two
      characters, joined by ':'. The clock is never shorter than "mm:ss". */
  function FormatTime(seconds: int): (r: string)
    ensures |r| >= 5
  {
    PadStart(IntToString(WholeMinutes(seconds)), 2, '0') + ":"
      + PadStart(IntToString(JsRemainder(seconds, 60)), 2, '0')
  }

  /** Reads an "mm:ss" clock back into seconds. */
  function ParseClock(t: string): int
    requires |t| == 5
  {
    (DigitValue(t[0]) * 10 + DigitValue(t[1])) * 60 + DigitValue(t[3]) * 10 + DigitValue(t[4])
  }

  /** Below 100 minutes the clock is exactly two minute digits, ':', and two
      second digits, with the seconds below 60. */
  lemma FormatTimeShape(seconds: int)
    requires 0 <= seconds < 6000
    ensures var t, m, s := FormatTime(seconds), seconds / 60, seconds % 60;
      s < 60 && m * 60 + s == seconds
      && t == [DigitChar(m / 10), DigitChar(m % 10), ':', DigitChar(s / 10), DigitChar(s % 10)]
  {
    var m, s := seconds / 60, seconds % 60;
    assert m * 60 + s == seconds && 0 <= m < 100 && 0 <= s < 60;
    var mm := PaddedField(m);
    var ss := PaddedField(s);
    calc {
      FormatTime(seconds);
      mm + ":" + ss;
      [DigitChar(m / 10), DigitChar(m % 10)] + [':'] + [DigitChar(s / 10), DigitChar(s % 10)];
      [DigitChar(m / 10), DigitChar(m % 10), ':', DigitChar(s / 10), DigitChar(s % 10)];
    }
  }

  /** One field of the clock: a number below 100 as two digits. */
  lemma PaddedField(n: int) returns (field: string)
    requires 0 <= n < 100
    ensures field == PadStart(IntToString(n), 2, '0') == [DigitChar(n / 10), DigitChar(n % 10)]
  {
    TwoDigits(n);
    field := PadStart(IntToString(n), 2, '0');
  }

  /** For 0 <= seconds < 6000 the clock has five characters and reads back as
      the same number of seconds. */
  lemma FormatTimeRoundTrip(seconds: int)
    requires 0 <= seconds < 6000
    ensures |FormatTime(seconds)| == 5
    ensures ParseClock(FormatTime(seconds)) == seconds
  {
    FormatTimeShape(seconds);
    ParseClockDigits(seconds / 60, seconds % 60);
  }

  /** The clock digits of m minutes and s seconds read back as m * 60 + s. */
  lemma ParseClockDigits(m: int, s: int)
    requires 0 <= m < 100 && 0 <= s < 60
    ensures ParseClock([DigitChar(m / 10), DigitChar(m % 10), ':', DigitChar(s / 10), DigitChar(s % 10)])
            == m * 60 + s
  {
    ParseDigits(m / 10, m % 10, s / 10, s % 10);
    assert m / 10 * 10 + m % 10 == m;
    assert s / 10 * 10 + s % 10 == s;
  }

  lemma ParseDigits(m1: int, m0: int, s1: int, s0: int)
    requires 0 <= m1 < 10 && 0 <= m0 < 10 && 0 <= s1 < 10 && 0 <= s0 < 10
    ensures ParseClock([DigitChar(m1), DigitChar(m0), ':', DigitChar(s1), DigitChar(s0)])
            == (m1 * 10 + m0) * 60 + s1 * 10 + s0
  {
  }

  /** From 100 minutes on, the minutes part outgrows two digits. */
  lemma FormatTimeLongExam(seconds: int)
    requires seconds >= 6000
    ensures |FormatTime(seconds)| > 5
  {
    var m := seconds / 60;
    assert m >= 100 && m / 10 >= 10;
    assert |Decimal(m / 10)| >= 2;
    assert Decimal(m) == Decimal(m / 10) + [DigitChar(m % 10)];
    var mm := PadStart(IntToString(WholeMinutes(seconds)), 2, '0');
    assert |mm| >= 3;
    assert FormatTime(seconds) == mm + ":" + PadStart(IntToString(JsRemainder(seconds, 60)), 2, '0');
  }
}
