/**
 * Calendar dates, clock times and millisecond instants.
 *
 * Both the booking handler and the appointment list build a JavaScript `Date`
 * from a `YYYY-MM-DD` date and an `HH:MM` time.  Here those strings are taken
 * as already parsed into integer fields, and a `Date` built from them is the
 * number of milliseconds since 1970-01-01 00:00 of the same wall clock (the
 * host's time zone is taken to be UTC).
 */
module Calendar {
  import opened Wrappers

  const MinuteMs: int := 60_000
  const HourMs: int := 3_600_000
  const DayMs: int := 86_400_000
  /** The fixed clinic offset of 5 h 30 min that the booking handler adds to every end time. */
  const ClinicOffsetMs: int := 19_800_000

  datatype CalendarDate = CalendarDate(year: int, month: int, day: int)
  datatype ClockTime = ClockTime(hour: int, minute: int)

  predicate IsLeapYear(y: int) {
    y % 4 == 0 && (y % 100 != 0 || y % 400 == 0)
  }

  function DaysInMonth(y: int, m: int): int {
    if m == 2 then (if IsLeapYear(y) then 29 else 28)
    else if m == 4 || m == 6 || m == 9 || m == 11 then 30
    else 31
  }

  /** A date that the four-digit `YYYY-MM-DD` form can write. */
  predicate ValidDate(d: CalendarDate) {
    0 <= d.year <= 9999 && 1 <= d.month <= 12 && 1 <= d.day <= DaysInMonth(d.year, d.month)
  }

  predicate ValidTime(t: ClockTime) {
    0 <= t.hour < 24 && 0 <= t.minute < 60
  }

  /** A parsed `YYYY-MM-DD` field. */
  type Date = d: CalendarDate | ValidDate(d) witness CalendarDate(1970, 1, 1)

  /** A parsed `HH:MM` field. */
  type Time = t: ClockTime | ValidTime(t) witness ClockTime(0, 0)

  /** Days from 1970-01-01 to `d` in the proleptic Gregorian calendar. */
  function DayNumber(d: CalendarDate): int {
    var y := if d.month <= 2 then d.year - 1 else d.year;
    var era := y / 400;
    var yoe := y - era * 400;
    var mp := if d.month > 2 then d.month - 3 else d.month + 9;
    var doy := (153 * mp + 2) / 5 + d.day - 1;
    var doe := yoe * 365 + yoe / 4 - yoe / 100 + doy;
    era * 146097 + doe - 719468
  }

  function TimeOfDayMs(t: ClockTime): int {
    t.hour * HourMs + t.minute * MinuteMs
  }

  /** The instant a date and time denote on the wall clock, seconds being zero. */
  function LocalInstant(d: CalendarDate, t: ClockTime): int {
    DayNumber(d) * DayMs + TimeOfDayMs(t)
  }

  /** The calendar day an instant falls on (what `toDateString` tells apart). */
  function DayOf(ms: int): int {
    ms / DayMs
  }

  /** The hour of the day of an instant (`getHours`). */
  function HourOf(ms: int): int {
    (ms % DayMs) / HourMs
  }

  /** The minute of the hour of an instant (`getMinutes`). */
  function MinuteOf(ms: int): int {
    (ms % HourMs) / MinuteMs
  }

  /** An instant built from a date and a time gives back that day, hour and minute. */
  lemma LocalInstantDecodes(d: CalendarDate, t: Time)
    ensures DayOf(LocalInstant(d, t)) == DayNumber(d)
    ensures HourOf(LocalInstant(d, t)) == t.hour
    ensures MinuteOf(LocalInstant(d, t)) == t.minute
  {
    InstantParts(DayNumber(d), t.hour, t.minute);
  }

  lemma InstantParts(k: int, h: int, m: int)
    requires 0 <= h < 24 && 0 <= m < 60
    ensures var ms := k * DayMs + h * HourMs + m * MinuteMs;
            ms / DayMs == k && (ms % DayMs) / HourMs == h && (ms % HourMs) / MinuteMs == m
  {
    var ms := k * DayMs + h * HourMs + m * MinuteMs;
    var within := m * MinuteMs;
    assert 0 <= within < HourMs;
    var r := h * HourMs + within;
    assert 0 <= r < DayMs;
    DivModUnique(k, r, DayMs);
    DivModUnique(h, within, HourMs);
    assert ms == (k * 24 + h) * HourMs + within;
    DivModUnique(k * 24 + h, within, HourMs);
    DivModUnique(m, 0, MinuteMs);
  }

  /** Quotient and remainder are unique: `q * n + r` with `0 <= r < n` divides back into `q` and `r`. */
  lemma DivModUnique(q: int, r: int, n: int)
    requires 0 < n && 0 <= r < n
    ensures (q * n + r) / n == q && (q * n + r) % n == r
  {
    var a, b := (q * n + r) / n, (q * n + r) % n;
    assert a * n + b == q * n + r;
    assert (a - q) * n == r - b;
    MulAwayFromZero(a - q, n);
  }

  lemma {:induction false} MulAwayFromZero(x: int, n: int)
    requires 0 < n
    ensures x >= 1 ==> x * n >= n
    ensures x <= -1 ==> x * n <= -n
    decreases if x < 0 then -x else x
  {
    if x > 1 {
      MulAwayFromZero(x - 1, n);
      assert x * n == (x - 1) * n + n;
    } else if x < -1 {
      MulAwayFromZero(x + 1, n);
      assert x * n == (x + 1) * n - n;
    }
  }

  // ---------------------------------------------------------------------
  // The `YYYY-MM-DD` and `HH:MM` text forms
  // ---------------------------------------------------------------------

  predicate IsDigit(c: char) {
    '0' <= c <= '9'
  }

  predicate AllDigits(s: string) {
    forall i :: 0 <= i < |s| ==> IsDigit(s[i])
  }

  function Pow10(w: nat): nat {
    if w == 0 then 1 else 10 * Pow10(w - 1)
  }

  /** The last `width` decimal digits of `n`, zero-padded. */
  function Digits(n: nat, width: nat): (s: string)
    ensures |s| == width && AllDigits(s)
  {
    if width == 0 then ""
    else Digits(n / 10, width - 1) + [('0' as int + n % 10) as char]
  }

  /** The number a string of decimal digits stands for. */
  function DigitsValue(s: string): nat
    requires AllDigits(s)
  {
    if s == [] then 0
    else DigitsValue(s[..|s| - 1]) * 10 + (s[|s| - 1] as int - '0' as int)
  }

  lemma {:induction false} DigitsRoundTrip(n: nat, width: nat)
    requires n < Pow10(width)
    ensures DigitsValue(Digits(n, width)) == n
  {
    if width > 0 {
      var s := Digits(n, width);
      assert s[..|s| - 1] == Digits(n / 10, width - 1);
      DigitsRoundTrip(n / 10, width - 1);
    }
  }

  lemma {:induction false} DigitsValueRoundTrip(s: string)
    requires AllDigits(s)
    ensures DigitsValue(s) < Pow10(|s|)
    ensures Digits(DigitsValue(s), |s|) == s
  {
    if s != [] {
      var p := s[..|s| - 1];
      DigitsValueRoundTrip(p);
      var v := DigitsValue(s);
      assert v / 10 == DigitsValue(p) && v % 10 == s[|s| - 1] as int - '0' as int;
      assert s == p + [s[|s| - 1]];
    }
  }

  /** The date as the client writes it, `YYYY-MM-DD`. */
  function FormatDate(d: Date): string {
    Digits(d.year, 4) + "-" + Digits(d.month, 2) + "-" + Digits(d.day, 2)
  }

  /** The time as the client writes it, `HH:MM`. */
  function FormatTime(t: Time): string {
    Digits(t.hour, 2) + ":" + Digits(t.minute, 2)
  }

  function ParseDate(s: string): Option<Date> {
    if |s| == 10 && s[4] == '-' && s[7] == '-'
       && AllDigits(s[..4]) && AllDigits(s[5..7]) && AllDigits(s[8..])
    then
      var d := CalendarDate(DigitsValue(s[..4]), DigitsValue(s[5..7]), DigitsValue(s[8..]));
      if ValidDate(d) then Some(d) else None
    else None
  }

  function ParseTime(s: string): Option<Time> {
    if |s| == 5 && s[2] == ':' && AllDigits(s[..2]) && AllDigits(s[3..]) then
      var t := ClockTime(DigitsValue(s[..2]), DigitsValue(s[3..]));
      if ValidTime(t) then Some(t) else None
    else None
  }

  /** Reading a formatted date gives the date back ... */
  lemma ParseFormatDate(d: Date)
    ensures ParseDate(FormatDate(d)) == Some(d)
  {
    var s := FormatDate(d);
    assert s[..4] == Digits(d.year, 4);
    assert s[5..7] == Digits(d.month, 2);
    assert s[8..] == Digits(d.day, 2);
    DigitsRoundTrip(d.year, 4);
    DigitsRoundTrip(d.month, 2);
    DigitsRoundTrip(d.day, 2);
  }

  /** ... and every string that reads as a date is that date's one written form. */
  lemma FormatParseDate(s: string)
    requires ParseDate(s).Some?
    ensures FormatDate(ParseDate(s).value) == s
  {
    DigitsValueRoundTrip(s[..4]);
    DigitsValueRoundTrip(s[5..7]);
    DigitsValueRoundTrip(s[8..]);
    assert s == s[..4] + "-" + s[5..7] + "-" + s[8..];
  }

  lemma ParseFormatTime(t: Time)
    ensures ParseTime(FormatTime(t)) == Some(t)
  {
    var s := FormatTime(t);
    assert s[..2] == Digits(t.hour, 2);
    assert s[3..] == Digits(t.minute, 2);
    DigitsRoundTrip(t.hour, 2);
    DigitsRoundTrip(t.minute, 2);
  }

  lemma FormatParseTime(s: string)
    requires ParseTime(s).Some?
    ensures FormatTime(ParseTime(s).value) == s
  {
    DigitsValueRoundTrip(s[..2]);
    DigitsValueRoundTrip(s[3..]);
    assert s == s[..2] + ":" + s[3..];
  }
}
