/**
 * The logger's time stamp ("HH:MM:SS", or "HH:MM:SS AM"/"HH:MM:SS PM" in
 * 12-hour mode) and date ("MM/DD/YYYY" with a zero-based month), rendered
 * from the broken-down local time instead of read from the clock.
 */
module ClockText {
  import opened Decimal

  /** The fields of a broken-down local time the logger reads: month is zero-based, year counts from 1900. */
  datatype Clock = Clock(hour: nat, minute: nat, second: nat, month: nat, day: nat, yearsSince1900: nat)

  /** The ranges the C library guarantees for a broken-down local time. */
  predicate ValidClock(c: Clock) {
    c.hour < 24 && c.minute < 60 && c.second <= 60 && c.month < 12 && 1 <= c.day <= 31
  }

  /** The time format "%02i:%02i:%02i". */
  function Hms(h: nat, m: nat, s: nat): string {
    ZeroPad(h, 2) + ":" + ZeroPad(m, 2) + ":" + ZeroPad(s, 2)
  }

  /**
   * The current time as the logger renders it. In 12-hour mode only hours
   * above 12 are shifted and marked " PM"; every other hour, noon and
   * midnight included, is printed as it is and marked " AM".
   */
  function TimeText(use24Hour: bool, c: Clock): (r: string)
    ensures '\0' !in r && '\n' !in r
    ensures ValidClock(c) ==> |r| == if use24Hour then 8 else 11
  {
    TwoDigitsNoNul(c.minute);
    TwoDigitsNoNul(c.second);
    if use24Hour then
      TwoDigitsNoNul(c.hour);
      Hms(c.hour, c.minute, c.second)
    else if c.hour > 12 then
      TwoDigitsNoNul(c.hour - 12);
      Hms(c.hour - 12, c.minute, c.second) + " PM"
    else
      TwoDigitsNoNul(c.hour);
      Hms(c.hour, c.minute, c.second) + " AM"
  }

  /** The current date as the logger renders it: "%02i/%02i/%04i" of month, day and year. */
  function DateText(c: Clock): (r: string)
    ensures '\0' !in r && '\n' !in r
    ensures ValidClock(c) && c.yearsSince1900 + 1900 < 10000 ==> |r| == 10
  {
    TwoDigitsNoNul(c.month);
    TwoDigitsNoNul(c.day);
    var y := c.yearsSince1900 + 1900;
    assert '\0' !in ZeroPad(y, 4) && '\n' !in ZeroPad(y, 4) by { DigitsNoNul(ZeroPad(y, 4)); }
    ZeroPad(c.month, 2) + "/" + ZeroPad(c.day, 2) + "/" + ZeroPad(y, 4)
  }

  lemma DigitsNoNul(s: string)
    requires AllDigits(s)
    ensures '\0' !in s && '\n' !in s
  {
  }

  lemma TwoDigitsNoNul(n: nat)
    ensures '\0' !in ZeroPad(n, 2) && '\n' !in ZeroPad(n, 2)
    ensures n < 100 ==> |ZeroPad(n, 2)| == 2
  {
  }

  /** Reads the three numeric fields of an "HH:MM:SS" prefix back. */
  function ReadHms(r: string): (nat, nat, nat)
    requires |r| >= 8 && AllDigits(r[0..2]) && AllDigits(r[3..5]) && AllDigits(r[6..8])
  {
    (Value(r[0..2]), Value(r[3..5]), Value(r[6..8]))
  }

  lemma HmsFields(h: nat, m: nat, s: nat)
    requires h < 100 && m < 100 && s < 100
    ensures var r := Hms(h, m, s);
      |r| == 8 && r[2] == ':' && r[5] == ':' &&
      r[0..2] == ZeroPad(h, 2) && r[3..5] == ZeroPad(m, 2) && r[6..8] == ZeroPad(s, 2) &&
      ReadHms(r) == (h, m, s)
  {
    TwoDigitField(h);
    TwoDigitField(m);
    TwoDigitField(s);
    var r := Hms(h, m, s);
    assert r[0..2] == ZeroPad(h, 2);
    assert r[3..5] == ZeroPad(m, 2);
    assert r[6..8] == ZeroPad(s, 2);
  }

  /** Round trip of the 24-hour time: hour, minute and second read back from the text. */
  lemma Time24RoundTrip(c: Clock)
    requires ValidClock(c)
    ensures var r := TimeText(true, c);
      |r| == 8 && r[2] == ':' && r[5] == ':' && ReadHms(r) == (c.hour, c.minute, c.second)
  {
    HmsFields(c.hour, c.minute, c.second);
  }

  /**
   * The 12-hour time: an hour above 12 shows as hour - 12 with " PM"; any
   * other hour, 0 and 12 included, shows unchanged with " AM".
   */
  lemma Time12Fields(c: Clock)
    requires ValidClock(c)
    ensures var r := TimeText(false, c);
      |r| == 11 && r[2] == ':' && r[5] == ':' &&
      r[8..] == (if c.hour > 12 then " PM" else " AM") &&
      AllDigits(r[0..8][0..2]) && AllDigits(r[0..8][3..5]) && AllDigits(r[0..8][6..8]) &&
      ReadHms(r[0..8]) == (if c.hour > 12 then c.hour - 12 else c.hour, c.minute, c.second)
  {
    var h := if c.hour > 12 then c.hour - 12 else c.hour;
    HmsFields(h, c.minute, c.second);
    var r := TimeText(false, c);
    assert r[0..8] == Hms(h, c.minute, c.second);
  }

  /** The 12-hour text still determines the hour: "12 AM" is noon and "00 AM" is midnight. */
  lemma Time12DeterminesHour(c: Clock, d: Clock)
    requires ValidClock(c) && ValidClock(d)
    requires TimeText(false, c) == TimeText(false, d)
    ensures c.hour == d.hour && c.minute == d.minute && c.second == d.second
  {
    Time12Fields(c);
    Time12Fields(d);
  }

  /** Noon renders as "12:MM:SS AM", not as a PM time. */
  lemma NoonIsAm(c: Clock)
    requires ValidClock(c) && c.hour == 12
    ensures TimeText(false, c)[0..2] == "12" && TimeText(false, c)[8..] == " AM"
  {
  }

  /** Round trip of the date: month (zero-based), day and full year read back from the text. */
  lemma DateRoundTrip(c: Clock)
    requires ValidClock(c) && c.yearsSince1900 + 1900 < 10000
    ensures var r := DateText(c);
      |r| == 10 && r[2] == '/' && r[5] == '/' &&
      AllDigits(r[0..2]) && AllDigits(r[3..5]) && AllDigits(r[6..10]) &&
      Value(r[0..2]) == c.month && Value(r[3..5]) == c.day && Value(r[6..10]) == c.yearsSince1900 + 1900
  {
    TwoDigitField(c.month);
    TwoDigitField(c.day);
    FourDigitField(c.yearsSince1900 + 1900);
    var r := DateText(c);
    assert r[0..2] == ZeroPad(c.month, 2);
    assert r[3..5] == ZeroPad(c.day, 2);
    assert r[6..10] == ZeroPad(c.yearsSince1900 + 1900, 4);
  }

  /** January is month 0 of the broken-down time and renders as "00". */
  lemma JanuaryIsZero(c: Clock)
    requires ValidClock(c) && c.month == 0
    ensures DateText(c)[0..2] == "00"
  {
  }
}
