/** The date and date-time texts of `<dateTime.iso8601>`: the `full-date` and
    `date-time` forms of section 5.6 of RFC 3339 that `build_value` writes with
    `strftime`, and the reading of those forms that `DateTime.parse` performs. */
module Dates {
  import opened Wrappers
  import Text

  /** A calendar day (Ruby `Date`). */
  datatype CalendarDate = CalendarDate(year: nat, month: nat, day: nat)

  /** A time of day. */
  datatype ClockTime = ClockTime(hour: nat, minute: nat, second: nat)

  /** A point in time with its offset from UTC in minutes (Ruby `DateTime`). */
  datatype Timestamp = Timestamp(date: CalendarDate, time: ClockTime, offset: int)

  const Midnight := ClockTime(0, 0, 0)

  predicate LeapYear(y: nat) {
    y % 4 == 0 && (y % 100 != 0 || y % 400 == 0)
  }

  function DaysInMonth(y: nat, m: nat): nat
    requires 1 <= m <= 12
  {
    if m == 2 then (if LeapYear(y) then 29 else 28)
    else if m == 4 || m == 6 || m == 9 || m == 11 then 30
    else 31
  }

  /** A day of the proleptic Gregorian calendar with a four-digit year. */
  predicate ValidDate(d: CalendarDate) {
    d.year <= 9999 && 1 <= d.month <= 12 && 1 <= d.day <= DaysInMonth(d.year, d.month)
  }

  predicate ValidTime(t: ClockTime) {
    t.hour < 24 && t.minute < 60 && t.second < 60
  }

  predicate ValidTimestamp(s: Timestamp) {
    ValidDate(s.date) && ValidTime(s.time) && -1440 < s.offset < 1440
  }

  /** `strftime`'s `%m`, `%d`, `%H`, `%M`, `%S`: at least two digits. */
  function Two(n: nat): string {
    if n < 100 then [Text.DigitChar(n / 10), Text.DigitChar(n % 10)] else Text.ShowNat(n)
  }

  /** `strftime`'s `%Y`: at least four digits. */
  function Four(n: nat): string {
    if n < 10000 then
      [Text.DigitChar(n / 1000), Text.DigitChar(n / 100 % 10), Text.DigitChar(n / 10 % 10), Text.DigitChar(n % 10)]
    else Text.ShowNat(n)
  }

  /** `strftime("%Y-%m-%d")` */
  function FormatDate(d: CalendarDate): string {
    Four(d.year) + "-" + Two(d.month) + "-" + Two(d.day)
  }

  /** `Z` for a zero offset, otherwise `%Z`, the offset as `+HH:MM` or `-HH:MM`. */
  function FormatZone(offset: int): string {
    if offset == 0 then "Z"
    else
      var a: nat := if offset < 0 then -offset else offset;
      (if offset < 0 then "-" else "+") + Two(a / 60) + ":" + Two(a % 60)
  }

  /** `strftime("%H:%M:%S")` */
  function FormatClock(t: ClockTime): string {
    Two(t.hour) + ":" + Two(t.minute) + ":" + Two(t.second)
  }

  /** `strftime("%Y-%m-%dT%H:%M:%S")` followed by the zone. */
  function FormatTimestamp(s: Timestamp): string {
    FormatDate(s.date) + ("T" + (FormatClock(s.time) + FormatZone(s.offset)))
  }

  /** `DateTime#to_s`: like the written form, but a zero offset shows as `+00:00`. */
  function ShowTimestamp(s: Timestamp): string {
    FormatDate(s.date) + ("T" + (FormatClock(s.time) + (if s.offset == 0 then "+00:00" else FormatZone(s.offset))))
  }

  /** The number written by a non-empty run of digits. */
  function Field(s: string): Option<nat> {
    if s != [] && forall i :: 0 <= i < |s| ==> Text.IsDigit(s[i]) then Some(Text.DigitsValue(s)) else None
  }

  /** `YYYY-MM-DD` */
  function ParseDate(s: string): Option<CalendarDate>
    requires |s| == 10
  {
    if s[4] == '-' && s[7] == '-' then
      var y :- Field(s[..4]);
      var m :- Field(s[5..7]);
      var d :- Field(s[8..10]);
      Some(CalendarDate(y, m, d))
    else None
  }

  /** `HH:MM` or `HH:MM:SS` at the front of `r`, with what follows it. */
  function ParseClock(r: string): Option<(ClockTime, string)> {
    if |r| >= 5 && r[2] == ':' then
      var h :- Field(r[..2]);
      var mi :- Field(r[3..5]);
      var tail := r[5..];
      if |tail| >= 3 && tail[0] == ':' && Field(tail[1..3]).Some? then
        Some((ClockTime(h, mi, Field(tail[1..3]).value), tail[3..]))
      else Some((ClockTime(h, mi, 0), tail))
    else None
  }

  /** Nothing or `Z` (UTC), or `+HH:MM` / `-HH:MM`; the offset in minutes. */
  function ParseZone(z: string): Option<int> {
    if z == "" || z == "Z" then Some(0)
    else if |z| == 6 && (z[0] == '+' || z[0] == '-') && z[3] == ':' then
      var h :- Field(z[1..3]);
      var m :- Field(z[4..6]);
      Some(if z[0] == '-' then -(h * 60 + m) else h * 60 + m)
    else None
  }

  function ParseStamp(s: string): Option<Timestamp> {
    if |s| < 10 then None
    else
      var date :- ParseDate(s[..10]);
      var rest := s[10..];
      if rest == [] then Some(Timestamp(date, Midnight, 0))
      else if rest[0] == 'T' then
        var clock :- ParseClock(rest[1..]);
        var offset :- ParseZone(clock.1);
        Some(Timestamp(date, clock.0, offset))
      else None
  }

  /** `DateTime.parse(text)` on the forms above: a date alone is midnight UTC, a
      time without seconds has 0 seconds, a time without zone is UTC. A `nil`
      text raises a TypeError and any other text, or a day, time or offset out
      of range, an ArgumentError. */
  function ParseTimestamp(t: Option<string>): Result<Timestamp, Error> {
    match t
    case None => Failure(OtherError("no implicit conversion of nil into String"))
    case Some(s) =>
      var p := ParseStamp(s);
      if p.Some? && ValidTimestamp(p.value) then Success(p.value) else Failure(OtherError("invalid date"))
  }

  /** One more digit on the right multiplies by ten and adds it. */
  lemma DigitsSnoc(s: string, c: char)
    requires forall i :: 0 <= i < |s| ==> Text.IsDigit(s[i])
    requires Text.IsDigit(c)
    ensures Text.DigitsValue(s + [c]) == Text.DigitsValue(s) * 10 + Text.DigitValue(c)
  {
    assert (s + [c])[..|s + [c]| - 1] == s;
  }

  /** Splitting `n` into its last digit and the rest, twice over. */
  lemma TensSplit(n: nat)
    ensures n == (n / 10) * 10 + n % 10
    ensures n / 10 / 10 == n / 100 && n / 10 % 10 == n / 10 % 10
    ensures n / 100 / 10 == n / 1000
  {
  }

  lemma FieldTwo(n: nat)
    requires n < 100
    ensures Field(Two(n)) == Some(n)
  {
    var s := Two(n);
    assert s == [s[0]] + [s[1]];
    DigitsSnoc([], s[0]);
    assert [] + [s[0]] == [s[0]];
    DigitsSnoc([s[0]], s[1]);
  }

  lemma FieldFour(n: nat)
    requires n < 10000
    ensures Field(Four(n)) == Some(n)
  {
    var s := Four(n);
    assert s == [s[0]] + [s[1]] + [s[2]] + [s[3]];
    assert [] + [s[0]] == [s[0]];
    DigitsSnoc([], s[0]);
    DigitsSnoc([s[0]], s[1]);
    DigitsSnoc([s[0]] + [s[1]], s[2]);
    DigitsSnoc([s[0]] + [s[1]] + [s[2]], s[3]);
    assert Text.DigitsValue(s) == (((n / 1000) * 10 + n / 100 % 10) * 10 + n / 10 % 10) * 10 + n % 10;
    TensSplit(n);
    TensSplit(n / 10);
    TensSplit(n / 100);
  }

  lemma ParseFormattedDate(d: CalendarDate)
    requires ValidDate(d)
    ensures |FormatDate(d)| == 10 && ParseDate(FormatDate(d)) == Some(d)
  {
    var s := FormatDate(d);
    FieldFour(d.year);
    FieldTwo(d.month);
    FieldTwo(d.day);
    assert s[..4] == Four(d.year);
    assert s[5..7] == Two(d.month);
    assert s[8..10] == Two(d.day);
  }

  /** A date alone reads back as midnight UTC of that day. */
  lemma ParseFormatDate(d: CalendarDate)
    requires ValidDate(d)
    ensures ParseTimestamp(Some(FormatDate(d))) == Success(Timestamp(d, Midnight, 0))
  {
    var s := FormatDate(d);
    ParseFormattedDate(d);
    assert s[..10] == s;
  }

  lemma ParseFormatZone(offset: int)
    requires -1440 < offset < 1440
    ensures ParseZone(FormatZone(offset)) == Some(offset)
  {
    if offset != 0 {
      var a: nat := if offset < 0 then -offset else offset;
      var z := FormatZone(offset);
      FieldTwo(a / 60);
      FieldTwo(a % 60);
      assert z[1..3] == Two(a / 60);
      assert z[4..6] == Two(a % 60);
    }
  }

  /** The written time of day, followed by anything, reads back as that
      time with the rest left over. */
  lemma ParseFormattedClock(t: ClockTime, z: string)
    requires ValidTime(t)
    ensures ParseClock(FormatClock(t) + z) == Some((t, z))
  {
    var hh, mm, ss := Two(t.hour), Two(t.minute), Two(t.second);
    var c := FormatClock(t);
    var r := c + z;
    FieldTwo(t.hour);
    FieldTwo(t.minute);
    FieldTwo(t.second);
    assert |c| == 8;
    assert r[..2] == c[..2] == hh;
    assert r[3..5] == c[3..5] == mm;
    var tail := r[5..];
    assert tail[1..3] == c[6..8] == ss;
    assert tail[3..] == z;
  }

  /** A time of day written without seconds reads back with 0 seconds and
      nothing after it. */
  lemma ParseShortClock(h: nat, m: nat)
    requires h < 24 && m < 60
    ensures ParseClock(Two(h) + ":" + Two(m)) == Some((ClockTime(h, m, 0), ""))
  {
    var r := Two(h) + ":" + Two(m);
    FieldTwo(h);
    FieldTwo(m);
    assert |r| == 5;
    assert r[..2] == Two(h);
    assert r[3..5] == Two(m);
    assert r[5..] == "";
  }

  /** Every timestamp `build_value` writes reads back as the same timestamp,
      date, time of day and offset. */
  lemma ParseFormatTimestamp(s: Timestamp)
    requires ValidTimestamp(s)
    ensures ParseTimestamp(Some(FormatTimestamp(s))) == Success(s)
  {
    var z := FormatZone(s.offset);
    var clock := FormatClock(s.time) + z;
    var text := FormatTimestamp(s);
    ParseFormattedDate(s.date);
    assert text[..10] == FormatDate(s.date);
    assert text[10..] == "T" + clock;
    assert text[10..][1..] == clock;
    ParseFormattedClock(s.time, z);
    ParseFormatZone(s.offset);
  }
}
