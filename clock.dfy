/** datetime.time and datetime.date values and the strftime/str renderings main.py stores. */
module Clock {
  import opened Text

  /** A datetime.time: hour, minute, second and microsecond. */
  datatype TimeOfDay = TimeOfDay(hour: nat, minute: nat, second: nat, microsecond: nat)

  /** The ranges the datetime.time constructor enforces (it raises ValueError otherwise). */
  predicate ValidTime(t: TimeOfDay) {
    t.hour < 24 && t.minute < 60 && t.second < 60 && t.microsecond < 1000000
  }

  type Time = t: TimeOfDay | ValidTime(t) witness TimeOfDay(0, 0, 0, 0)

  /** A datetime.date: year, month and day. */
  datatype CalendarDate = CalendarDate(year: nat, month: nat, day: nat)

  predicate IsLeapYear(y: nat) {
    y % 4 == 0 && (y % 100 != 0 || y % 400 == 0)
  }

  function DaysInMonth(y: nat, m: nat): nat {
    if m == 2 then (if IsLeapYear(y) then 29 else 28)
    else if m == 4 || m == 6 || m == 9 || m == 11 then 30
    else 31
  }

  /** The ranges the datetime.date constructor enforces. */
  predicate ValidDate(d: CalendarDate) {
    1 <= d.year <= 9999 && 1 <= d.month <= 12 && 1 <= d.day <= DaysInMonth(d.year, d.month)
  }

  type Date = d: CalendarDate | ValidDate(d) witness CalendarDate(1, 1, 1)

  /** `t.strftime("%H:%M")`: the time with its seconds and microseconds dropped. */
  function FormatHourMinute(t: Time): string {
    Padded(t.hour, 2) + ":" + Padded(t.minute, 2)
  }

  /** `d.strftime("%Y-%m-%d")`, and also `str(d)`. */
  function FormatDate(d: Date): string {
    Padded(d.year, 4) + "-" + Padded(d.month, 2) + "-" + Padded(d.day, 2)
  }

  /** The rendered date is "YYYY-MM-DD" and its three numerals read back as the date. */
  lemma FormatDateReadsBack(d: Date)
    ensures var s := FormatDate(d);
      && |s| == 10 && s[4] == '-' && s[7] == '-'
      && AllDigits(s[..4]) && AllDigits(s[5..7]) && AllDigits(s[8..])
      && DigitsValue(s[..4]) == d.year
      && DigitsValue(s[5..7]) == d.month
      && DigitsValue(s[8..]) == d.day
  {
    var s := FormatDate(d);
    assert s[..4] == Padded(d.year, 4);
    assert s[5..7] == Padded(d.month, 2);
    assert s[8..] == Padded(d.day, 2);
    PaddedValue(d.year, 4);
    PaddedValue(d.month, 2);
    PaddedValue(d.day, 2);
  }

  /** Different dates are stored as different strings. */
  lemma FormatDateInjective(d1: Date, d2: Date)
    requires FormatDate(d1) == FormatDate(d2)
    ensures d1 == d2
  {
    FormatDateReadsBack(d1);
    FormatDateReadsBack(d2);
  }

  /** The rendered time is "HH:MM" and its two numerals read back as hour and minute. */
  lemma FormatHourMinuteReadsBack(t: Time)
    ensures var s := FormatHourMinute(t);
      && |s| == 5 && s[2] == ':'
      && AllDigits(s[..2]) && AllDigits(s[3..])
      && DigitsValue(s[..2]) == t.hour
      && DigitsValue(s[3..]) == t.minute
  {
    var s := FormatHourMinute(t);
    assert s[..2] == Padded(t.hour, 2);
    assert s[3..] == Padded(t.minute, 2);
    PaddedValue(t.hour, 2);
    PaddedValue(t.minute, 2);
  }
}
