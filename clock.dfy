/**
 * Twelve-hour clock formatting of a local time of day, as the job renders it
 * with `strftime("%I:%M %p").lstrip("0")` (lambda_function.py lines 34 and 45).
 *
 * The conversion of epoch seconds to Toronto wall-clock time is not modelled:
 * it is a parameter of type `LocalTimeFn`, about which nothing is known except
 * that it yields an hour in 0..23 and a minute in 0..59.
 */
module Clock {
  import opened Wrappers

  type Hour = h: int | 0 <= h < 24
  type Minute = m: int | 0 <= m < 60

  datatype TimeOfDay = TimeOfDay(hour: Hour, minute: Minute)

  /** Epoch seconds to local time of day in the fixed zone America/Toronto. */
  type LocalTimeFn = int -> TimeOfDay

  predicate IsDigit(c: char) {
    '0' <= c <= '9'
  }

  function DigitValue(c: char): int {
    c as int - '0' as int
  }

  function DigitChar(d: int): (c: char)
    requires 0 <= d <= 9
    ensures IsDigit(c) && DigitValue(c) == d
  {
    ('0' as int + d) as char
  }

  /** A zero-padded two-digit decimal, as `%I` and `%M` produce. */
  function TwoDigits(n: int): (s: string)
    requires 0 <= n < 100
    ensures |s| == 2 && IsDigit(s[0]) && IsDigit(s[1])
    ensures 10 * DigitValue(s[0]) + DigitValue(s[1]) == n
  {
    [DigitChar(n / 10), DigitChar(n % 10)]
  }

  /** The hour on the twelve-hour dial (`%I` before padding). */
  function Hour12(h: Hour): (r: int)
    ensures 1 <= r <= 12
    ensures r % 12 == h % 12
  {
    if h == 0 then 12 else if h <= 12 then h else h - 12
  }

  /** `%p` in the C locale. */
  function Meridiem(h: Hour): (s: string)
    ensures s == "AM" <==> h < 12
    ensures s == "AM" || s == "PM"
  {
    if h < 12 then "AM" else "PM"
  }

  /** `strftime("%I:%M %p")`. */
  function Strftime12(t: TimeOfDay): string {
    TwoDigits(Hour12(t.hour)) + ":" + TwoDigits(t.minute) + " " + Meridiem(t.hour)
  }

  /** Python's `s.lstrip("0")`: drops every leading '0' and nothing else. */
  function LStripZeros(s: string): string {
    if |s| > 0 && s[0] == '0' then LStripZeros(s[1..]) else s
  }

  /** What `lstrip("0")` leaves: a suffix, not starting with '0', after a run of zeros only. */
  lemma {:induction false} LStripZerosSuffix(s: string)
    ensures var r := LStripZeros(s);
      |r| <= |s| && r == s[|s| - |r|..] &&
      (forall i :: 0 <= i < |s| - |r| ==> s[i] == '0') &&
      (r == [] || r[0] != '0')
  {
    if |s| > 0 && s[0] == '0' {
      LStripZerosSuffix(s[1..]);
    }
  }

  /** The job's rendering of a local time: `strftime("%I:%M %p").lstrip("0")`. */
  function FormatTime(t: TimeOfDay): string {
    LStripZeros(Strftime12(t))
  }

  /** A decimal numeral for 1..12 without a leading zero. */
  function Decimal(n: int): (s: string)
    requires 1 <= n <= 12
    ensures 1 <= |s| <= 2 && s[0] != '0'
    ensures forall i :: 0 <= i < |s| ==> IsDigit(s[i])
    ensures |s| == 1 ==> DigitValue(s[0]) == n
    ensures |s| == 2 ==> 10 * DigitValue(s[0]) + DigitValue(s[1]) == n
  {
    if n < 10 then [DigitChar(n)] else TwoDigits(n)
  }

  /** Stripping stops at the first character that is not '0'. */
  lemma LStripZerosAt(zeros: nat, rest: string)
    requires rest == [] || rest[0] != '0'
    ensures LStripZeros(seq(zeros, _ => '0') + rest) == rest
  {
    if zeros > 0 {
      var s := seq(zeros, _ => '0') + rest;
      assert s[1..] == seq(zeros - 1, _ => '0') + rest;
      LStripZerosAt(zeros - 1, rest);
    } else {
      assert seq(zeros, _ => '0') + rest == rest;
    }
  }

  /** Stripping the zeros leaves exactly the unpadded hour in front of ":MM AM" or ":MM PM". */
  lemma FormatTimeShape(t: TimeOfDay)
    ensures FormatTime(t) == Decimal(Hour12(t.hour)) + ":" + TwoDigits(t.minute) + " " + Meridiem(t.hour)
  {
    var h := Hour12(t.hour);
    var rest := Decimal(h) + ":" + TwoDigits(t.minute) + " " + Meridiem(t.hour);
    if h < 10 {
      assert Strftime12(t) == seq(1, _ => '0') + rest;
      LStripZerosAt(1, rest);
    } else {
      assert Strftime12(t) == seq(0, _ => '0') + rest;
      LStripZerosAt(0, rest);
    }
  }

  /** Midnight hour: shown as 12, in the morning. */
  lemma FormatTimeMidnight(t: TimeOfDay)
    requires t.hour == 0
    ensures FormatTime(t) == "12:" + TwoDigits(t.minute) + " AM"
  {
    FormatTimeShape(t);
    assert Decimal(Hour12(t.hour)) == "12";
  }

  /** Hours 1 to 11: the hour itself, unpadded, in the morning. */
  lemma FormatTimeMorning(t: TimeOfDay)
    requires 1 <= t.hour <= 11
    ensures FormatTime(t) == Decimal(t.hour) + ":" + TwoDigits(t.minute) + " AM"
  {
    FormatTimeShape(t);
  }

  /** Noon hour: shown as 12, in the afternoon. */
  lemma FormatTimeNoon(t: TimeOfDay)
    requires t.hour == 12
    ensures FormatTime(t) == "12:" + TwoDigits(t.minute) + " PM"
  {
    FormatTimeShape(t);
    assert Decimal(Hour12(t.hour)) == "12";
  }

  /** Hours 13 to 23: the hour less twelve, in the afternoon. */
  lemma FormatTimeAfternoon(t: TimeOfDay)
    requires 13 <= t.hour
    ensures FormatTime(t) == Decimal(t.hour - 12) + ":" + TwoDigits(t.minute) + " PM"
  {
    FormatTimeShape(t);
    assert Hour12(t.hour) == t.hour - 12;
    assert Meridiem(t.hour) == "PM";
  }

  /** `H:MM AM` or `H:MM PM` with H in 1..12 unpadded and MM two digits. */
  predicate IsClockText(s: string) {
    (|s| == 7 || |s| == 8) &&
    var n := |s| - 6;
    s[0] != '0' &&
    (forall i :: 0 <= i < n ==> IsDigit(s[i])) &&
    1 <= HourValue(s[..n]) <= 12 &&
    s[n] == ':' && IsDigit(s[n + 1]) && IsDigit(s[n + 2]) &&
    10 * DigitValue(s[n + 1]) + DigitValue(s[n + 2]) < 60 &&
    s[n + 3] == ' ' && (s[n + 4] == 'A' || s[n + 4] == 'P') && s[n + 5] == 'M'
  }

  /** The value of a one- or two-digit numeral. */
  function HourValue(d: string): int
    requires 1 <= |d| <= 2
  {
    if |d| == 1 then DigitValue(d[0]) else 10 * DigitValue(d[0]) + DigitValue(d[1])
  }

  lemma FormatTimeIsClockText(t: TimeOfDay)
    ensures IsClockText(FormatTime(t))
  {
    FormatTimeShape(t);
    var d := Decimal(Hour12(t.hour));
    var mm := TwoDigits(t.minute);
    var ap := Meridiem(t.hour);
    var s := d + ":" + mm + " " + ap;
    var n := |d|;
    assert |s| == n + 6;
    assert s[..n] == d;
    assert s[n] == ':' && s[n + 1] == mm[0] && s[n + 2] == mm[1];
    assert s[n + 3] == ' ' && s[n + 4] == ap[0] && s[n + 5] == ap[1];
    assert HourValue(s[..n]) == Hour12(t.hour);
  }

  /** A formatted time is a single line. */
  lemma FormatTimeSingleLine(t: TimeOfDay)
    ensures '\n' !in FormatTime(t)
  {
    var s := FormatTime(t);
    FormatTimeIsClockText(t);
    var n := |s| - 6;
    forall i | 0 <= i < |s| ensures s[i] != '\n' {
      if i < n {
        assert IsDigit(s[i]);
      }
    }
  }

  /** Reads a clock text back to the 24-hour time of day it denotes. */
  function ParseTime(s: string): (r: Option<TimeOfDay>)
    ensures r.Some? <==> IsClockText(s)
  {
    if !IsClockText(s) then None
    else
      var n := |s| - 6;
      var h12 := HourValue(s[..n]);
      var minute := 10 * DigitValue(s[n + 1]) + DigitValue(s[n + 2]);
      var hour := h12 % 12 + (if s[n + 4] == 'P' then 12 else 0);
      Some(TimeOfDay(hour, minute))
  }

  /** Formatting loses nothing: the rendered text determines the time of day. */
  lemma {:induction false} ParseFormatTime(t: TimeOfDay)
    ensures ParseTime(FormatTime(t)) == Some(t)
  {
    FormatTimeShape(t);
    FormatTimeIsClockText(t);
    var s := FormatTime(t);
    var d := Decimal(Hour12(t.hour));
    var n := |s| - 6;
    assert n == |d|;
    assert s[..n] == d;
    assert HourValue(s[..n]) == Hour12(t.hour);
    assert s[n + 1..n + 3] == TwoDigits(t.minute);
    assert s[n + 4] == Meridiem(t.hour)[0];
  }

  lemma FormatTimeInjective(t1: TimeOfDay, t2: TimeOfDay)
    requires FormatTime(t1) == FormatTime(t2)
    ensures t1 == t2
  {
    ParseFormatTime(t1);
    ParseFormatTime(t2);
  }
}
