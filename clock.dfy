/**
  Wall-clock instants to the minute, moving an instant by a number of
  minutes (`datetime + timedelta`), and the 12-hour label that
  `strftime("%-I:%M %p")` prints for it (C locale: "AM"/"PM").
*/
module Clock {
  import opened Wrappers
  import opened Calendar

  /** An instant: a calendar date and the minute of that day (0 .. 1439). */
  datatype DateTime = DateTime(date: Date, minute: int)

  predicate ValidDateTime(t: DateTime) {
    Valid(t.date) && 0 <= t.minute < 1440
  }

  /** Minutes elapsed since 0001-01-01 00:00: the instant's position on the time line. */
  function Timeline(t: DateTime): int
    requires Valid(t.date)
  {
    (ToOrdinal(t.date) - 1) * 1440 + t.minute
  }

  /** `t + timedelta(minutes = delta)`: the minute of day wraps and the date carries. */
  function Shift(t: DateTime, delta: int): (r: DateTime)
    requires ValidDateTime(t)
    ensures ValidDateTime(r)
  {
    var total := t.minute + delta;
    DateTime(AddDays(t.date, total / 1440), total % 1440)
  }

  /** Shifting moves the instant exactly `delta` minutes along the time line. */
  lemma ShiftTimeline(t: DateTime, delta: int)
    requires ValidDateTime(t)
    ensures Timeline(Shift(t, delta)) == Timeline(t) + delta
  {
    AddDaysOrdinal(t.date, (t.minute + delta) / 1440);
  }

  /** Two valid instants at the same point of the time line are the same instant. */
  lemma TimelineInjective(t1: DateTime, t2: DateTime)
    requires ValidDateTime(t1) && ValidDateTime(t2)
    requires Timeline(t1) == Timeline(t2)
    ensures t1 == t2
  {
    assert ToOrdinal(t1.date) == ToOrdinal(t2.date);
    OrdinalInjective(t1.date, t2.date);
  }

  /** Shifting by a then by b is shifting by a + b. */
  lemma ShiftShift(t: DateTime, a: int, b: int)
    requires ValidDateTime(t)
    ensures Shift(Shift(t, a), b) == Shift(t, a + b)
  {
    ShiftTimeline(t, a);
    ShiftTimeline(Shift(t, a), b);
    ShiftTimeline(t, a + b);
    TimelineInjective(Shift(Shift(t, a), b), Shift(t, a + b));
  }

  // ---------------------------------------------------------------------
  // The 12-hour label
  // ---------------------------------------------------------------------

  /** `%I` as a number: hours 0 and 12 read 12, the others their value modulo 12. */
  function Hour12(h: int): (r: int)
    requires 0 <= h < 24
    ensures 1 <= r <= 12
    ensures r % 12 == h % 12
  {
    if h % 12 == 0 then 12 else h % 12
  }

  function DigitChar(n: int): (c: char)
    requires 0 <= n <= 9
    ensures '0' <= c <= '9'
  {
    ('0' as int + n) as char
  }

  /** `%-I`: the 12-hour number with no leading zero. */
  function HourText(n: int): string
    requires 1 <= n <= 12
  {
    if n < 10 then [DigitChar(n)] else [DigitChar(n / 10), DigitChar(n % 10)]
  }

  /** `%-I:%M %p` for the minute of day `m`. */
  function Label(m: int): string
    requires 0 <= m < 1440
  {
    var h, mm := m / 60, m % 60;
    HourText(Hour12(h))
      + [':', DigitChar(mm / 10), DigitChar(mm % 10), ' ', if h < 12 then 'A' else 'P', 'M']
  }

  // ---------------------------------------------------------------------
  // Reading a label back: the inverse of Label
  // ---------------------------------------------------------------------

  predicate IsDigit(c: char) {
    '0' <= c <= '9'
  }

  function DigitValue(c: char): (n: int)
    requires IsDigit(c)
    ensures 0 <= n <= 9 && DigitChar(n) == c
  {
    c as int - '0' as int
  }

  /** The 12-hour number written by `%-I`: "1" .. "9", "10", "11" or "12". */
  function ParseHour12(t: string): (r: Option<int>)
    ensures r.Some? ==> 1 <= r.value <= 12
  {
    if |t| == 1 && '1' <= t[0] <= '9' then Some(DigitValue(t[0]))
    else if |t| == 2 && t[0] == '1' && '0' <= t[1] <= '2' then Some(10 + DigitValue(t[1]))
    else None
  }

  /** The minute of day a 12-hour label names, or None when the text is not such a label. */
  function ParseLabel(s: string): (r: Option<int>)
    ensures r.Some? ==> 0 <= r.value < 1440
  {
    if |s| < 7 || |s| > 8 then None
    else
      var n := |s|;
      var suffix := s[n - 2..];
      if s[n - 6] != ':' || s[n - 3] != ' ' || !IsDigit(s[n - 5]) || !IsDigit(s[n - 4])
         || (suffix != "AM" && suffix != "PM") then None
      else
        var mm := 10 * DigitValue(s[n - 5]) + DigitValue(s[n - 4]);
        match ParseHour12(s[..n - 6])
        case None => None
        case Some(h12) =>
          if mm >= 60 then None
          else Some(((h12 % 12) + (if suffix == "PM" then 12 else 0)) * 60 + mm)
  }

  lemma HourTextRoundTrip(n: int)
    requires 1 <= n <= 12
    ensures ParseHour12(HourText(n)) == Some(n)
  {
  }

  /** Every label reads back as the minute of day it was printed from. */
  lemma LabelRoundTrip(m: int)
    requires 0 <= m < 1440
    ensures ParseLabel(Label(m)) == Some(m)
  {
    var h, mm := m / 60, m % 60;
    var ht := HourText(Hour12(h));
    var s := Label(m);
    HourTextRoundTrip(Hour12(h));
    assert s[..|s| - 6] == ht;
    assert s[|s| - 2..] == if h < 12 then "AM" else "PM";
  }

  lemma HourTextCanonical(t: string, n: int)
    requires ParseHour12(t) == Some(n)
    ensures HourText(n) == t
  {
  }

  /** Labels are canonical: a text that reads as minute m is exactly m's label. */
  lemma LabelCanonical(s: string, m: int)
    requires ParseLabel(s) == Some(m)
    ensures 0 <= m < 1440 && Label(m) == s
  {
    var n := |s|;
    var t := s[..n - 6];
    var h12 := ParseHour12(t).value;
    var mm := 10 * DigitValue(s[n - 5]) + DigitValue(s[n - 4]);
    var h := (h12 % 12) + (if s[n - 2..] == "PM" then 12 else 0);
    assert m == h * 60 + mm && 0 <= mm < 60;
    assert m / 60 == h && m % 60 == mm;
    assert Hour12(h) == h12;
    HourTextCanonical(t, h12);
    assert DigitChar(mm / 10) == s[n - 5] && DigitChar(mm % 10) == s[n - 4];
    assert s[n - 2..] == [if h < 12 then 'A' else 'P', 'M'];
    assert s == t + [s[n - 6], s[n - 5], s[n - 4], s[n - 3]] + s[n - 2..];
  }

  /** Different minutes of the day get different labels. */
  lemma LabelInjective(m1: int, m2: int)
    requires 0 <= m1 < 1440 && 0 <= m2 < 1440
    requires Label(m1) == Label(m2)
    ensures m1 == m2
  {
    LabelRoundTrip(m1);
    LabelRoundTrip(m2);
  }
}
