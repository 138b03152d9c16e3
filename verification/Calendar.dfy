/**
 The Gregorian calendar: ngx_gmtime and the day formula of ngx_parse_http_time, against a count of
 days that only knows the lengths of years and months.
 */
module Calendar {

  // ---------------------------------------------------------------- the calendar itself

  predicate Leap(year: int) {
    year % 4 == 0 && (year % 100 != 0 || year % 400 == 0)
  }

  function YearLength(year: int): int { if Leap(year) then 366 else 365 }

  /** Months are 1..12. */
  function MonthLength(year: int, mon: int): int {
    if mon == 2 then (if Leap(year) then 29 else 28)
    else if mon == 4 || mon == 6 || mon == 9 || mon == 11 then 30
    else 31
  }

  /** Days from January 1 of year 0 to January 1 of `year`. */
  function YearStart(year: nat): int {
    if year == 0 then 0 else YearStart(year - 1) + YearLength(year - 1)
  }

  /** Days from January 1 to the first of the month. */
  function MonthStart(year: int, mon: nat): int {
    if mon <= 1 then 0 else MonthStart(year, mon - 1) + MonthLength(year, mon - 1)
  }

  const EPOCH: int := 719528

  /** Days from January 1, 1970. */
  function DayCount(year: nat, mon: nat, mday: int): int {
    YearStart(year) + MonthStart(year, mon) + mday - 1 - EPOCH
  }

  predicate ValidDate(year: int, mon: int, mday: int) {
    1 <= mon <= 12 && 1 <= mday <= MonthLength(year, mon)
  }

  /** The epoch is January 1, 1970. */
  lemma EpochIsDayZero()
    ensures DayCount(1970, 1, 1) == 0
  {
    YearStartFormula(1970);
  }

  // ---------------------------------------------------------------- Gauss' formula

  /** Days from March 1 of year 0 to March 1 of `year`. */
  function Gauss(year: nat): int {
    365 * year + year / 4 - year / 100 + year / 400
  }

  lemma GaussStep(year: nat)
    ensures Gauss(year + 1) == Gauss(year) + YearLength(year + 1)
  {
    assert (year + 1) / 4 - year / 4 == if (year + 1) % 4 == 0 then 1 else 0;
    assert (year + 1) / 100 - year / 100 == if (year + 1) % 100 == 0 then 1 else 0;
    assert (year + 1) / 400 - year / 400 == if (year + 1) % 400 == 0 then 1 else 0;
    Multiples(year + 1);
  }

  lemma Multiples(year: nat)
    ensures year % 400 == 0 ==> year % 100 == 0
    ensures year % 100 == 0 ==> year % 4 == 0
  {
    Multiple400(year);
    Multiple100(year);
  }

  lemma Multiple400(year: nat)
    ensures year % 400 == 0 ==> year % 100 == 0
  {
    if year % 400 == 0 { Hundreds(4 * (year / 400)); }
  }

  lemma Multiple100(year: nat)
    ensures year % 100 == 0 ==> year % 4 == 0
  {
    if year % 100 == 0 { Fours(25 * (year / 100)); }
  }

  lemma Hundreds(q: nat)
    ensures 100 * q % 100 == 0
  {
  }

  lemma Fours(q: nat)
    ensures 4 * q % 4 == 0
  {
  }

  lemma {:induction false} YearStartFormula(year: nat)
    ensures YearStart(year) + MonthStart(year, 3) == Gauss(year) + 60
  {
    MonthStarts(year);
    if year > 0 {
      YearStartFormula(year - 1);
      MonthStarts(year - 1);
      GaussStep(year - 1);
    }
  }

  lemma MonthStarts(year: int)
    ensures MonthStart(year, 1) == 0 && MonthStart(year, 2) == 31
    ensures MonthStart(year, 3) == 59 + (if Leap(year) then 1 else 0)
    ensures var m := MonthStart(year, 3);
            && MonthStart(year, 4) == m + 31 && MonthStart(year, 5) == m + 61 && MonthStart(year, 6) == m + 92
            && MonthStart(year, 7) == m + 122 && MonthStart(year, 8) == m + 153 && MonthStart(year, 9) == m + 184
            && MonthStart(year, 10) == m + 214 && MonthStart(year, 11) == m + 245 && MonthStart(year, 12) == m + 275
  {
    assert MonthStart(year, 2) == 31;
    assert MonthStart(year, 3) == MonthStart(year, 2) + MonthLength(year, 2);
    assert MonthStart(year, 4) == MonthStart(year, 3) + 31;
    assert MonthStart(year, 5) == MonthStart(year, 4) + 30;
    assert MonthStart(year, 6) == MonthStart(year, 5) + 31;
    assert MonthStart(year, 7) == MonthStart(year, 6) + 30;
    assert MonthStart(year, 8) == MonthStart(year, 7) + 31;
    assert MonthStart(year, 9) == MonthStart(year, 8) + 31;
    assert MonthStart(year, 10) == MonthStart(year, 9) + 30;
    assert MonthStart(year, 11) == MonthStart(year, 10) + 31;
    assert MonthStart(year, 12) == MonthStart(year, 11) + 30;
  }

  /** The formula with the year starting in March: month 1 is March, month 12 is February. */
  function GaussDays(year: nat, month: int, mday: int): int {
    Gauss(year) + (367 * month / 12 - 30) + mday - 1 - 719527 + 31 + 28
  }

  /** Months counted from March. */
  lemma MonthFormula(year: int, month: int)
    requires 1 <= month <= 10
    ensures MonthStart(year, month + 2) == MonthStart(year, 3) + 367 * month / 12 - 30
  {
    MonthStarts(year);
  }

  /** The formula counts days. */
  lemma GaussCounts(year: nat, mon: nat, mday: int)
    requires 1 <= mon <= 12 && (mon >= 3 || year >= 1)
    ensures DayCount(year, mon, mday)
            == if mon >= 3 then GaussDays(year, mon - 2, mday) else GaussDays(year - 1, mon + 10, mday)
  {
    YearStartFormula(year);
    MonthStarts(year);
    if mon >= 3 {
      MonthFormula(year, mon - 2);
    } else {
      YearStartFormula(year - 1);
      MonthStarts(year - 1);
    }
  }

  // ---------------------------------------------------------------- ngx_gmtime

  datatype Tm = Tm(sec: nat, min: nat, hour: nat, mday: int, mon: int, year: int, wday: nat)

  /** The first guess of the year, from the days since March 1 of year 0. */
  function YearGuess(days: nat): nat {
    (days + 2) * 400 / (365 * 400 + 100 - 4 + 1)
  }

  /** The year that begins in March, and the day of that year. */
  function YearAndDay(days: nat): (nat, int) {
    var year := YearGuess(days);
    var yday := days - Gauss(year);
    if yday < 0 then
      var leap := if year % 4 == 0 && (year % 100 != 0 || year % 400 == 0) then 1 else 0;
      (if year == 0 then 0 else year - 1, 365 + leap + yday)
    else (year, yday)
  }

  function Gmtime(t: nat): Tm {
    var days := t / 86400;
    var (year, yday) := YearAndDay(days - (31 + 28) + 719527);
    DateAndTime(t % 86400, days, year, yday)
  }

  /** Month and day from the day of the year that begins in March; time of day from the seconds. */
  function DateAndTime(n: nat, days: nat, year: nat, yday: int): Tm {
    var month := (yday + 31) * 10 / 306;
    var mday := yday - (367 * month / 12 - 30) + 1;
    if yday >= 306 then
      Tm(n % 3600 % 60, n % 3600 / 60, n / 3600, mday, month - 10, year + 1, (4 + days) % 7)
    else
      Tm(n % 3600 % 60, n % 3600 / 60, n / 3600, mday, month + 2, year, (4 + days) % 7)
  }

  /** The guess is at most two days late. */
  lemma GuessError(days: nat)
    ensures -2 <= days - Gauss(YearGuess(days)) <= 364
  {
    var q, e := days / 146097, days % 146097;
    var year := YearGuess(days);
    assert 146097 * year <= (days + 2) * 400 < 146097 * (year + 1);
    GuessInCentury(year, days);
  }

  lemma GuessInCentury(year: nat, days: nat)
    requires 146097 * year <= (days + 2) * 400 < 146097 * (year + 1)
    ensures -2 <= days - Gauss(year) <= 364
  {
    var a, b, c := year / 4, year / 100, year / 400;
    var v, s, w := year % 4, year % 100, year % 400;
    assert year == 4 * a + v && year == 100 * b + s && year == 400 * c + w;
    assert 0 <= v <= 3 && 0 <= s <= 99 && 0 <= w <= 399;
    var u := s / 4;
    assert a == 25 * b + u && s == 4 * u + v && 0 <= u <= 24;
    var k := w / 100;
    assert b == 4 * c + k && 0 <= k <= 3;
  }

  lemma YearAndDayOk(days: nat)
    requires days >= 60
    ensures var (year, yday) := YearAndDay(days);
            days == Gauss(year) + yday && 0 <= yday < YearLength(year + 1) && (year >= 1 || yday >= 60)
  {
    GuessError(days);
    var year := YearGuess(days);
    if days < Gauss(year) { GaussStep(year - 1); }
  }

  /** The month formulas. */
  lemma MonthOfDay(yday: int)
    requires 0 <= yday <= 365
    ensures var month := (yday + 31) * 10 / 306; var mday := yday - (367 * month / 12 - 30) + 1;
            && 1 <= month <= 12 && (yday >= 306 <==> month >= 11)
            && 1 <= mday <= (if month == 12 then (if yday == 365 then 29 else 28)
                             else if month == 2 || month == 4 || month == 7 || month == 9 then 30 else 31)
  {
    var month := (yday + 31) * 10 / 306;
    assert 306 * month <= (yday + 31) * 10 < 306 * (month + 1);
  }

  /** The broken-down time tm is the moment t. */
  ghost predicate IsTime(tm: Tm, t: int) {
    && tm.year >= 0 && ValidDate(tm.year, tm.mon, tm.mday)
    && tm.hour <= 23 && tm.min <= 59 && tm.sec <= 59
    && t == 86400 * DayCount(tm.year, tm.mon, tm.mday) + 3600 * tm.hour + 60 * tm.min + tm.sec
    && tm.wday == Weekday(tm.year, tm.mon, tm.mday)
  }

  /** January 1, 1970 was a Thursday (4). */
  function Weekday(year: nat, mon: nat, mday: int): nat {
    (DayCount(year, mon, mday) + 4) % 7
  }

  /** ngx_gmtime gives a valid date and time of day with this number of seconds. */
  lemma GmtimeOk(t: nat)
    ensures IsTime(Gmtime(t), t) && Gmtime(t).year >= 1970
  {
    var days := t / 86400;
    var d := days - (31 + 28) + 719527;
    YearAndDayOk(d);
    var p := YearAndDay(d);
    assert Gmtime(t) == DateAndTime(t % 86400, days, p.0, p.1);
    DateAndTimeOk(t, t % 86400, days, p.0, p.1);
  }

  lemma DateAndTimeOk(t: nat, n: nat, days: nat, year: nat, yday: int)
    requires n < 86400 && t == 86400 * days + n
    requires days + 719468 == Gauss(year) + yday && 0 <= yday < YearLength(year + 1)
    ensures IsTime(DateAndTime(n, days, year, yday), t) && DateAndTime(n, days, year, yday).year >= 1970
  {
    MonthOfDay(yday);
    ModernYear(year, yday);
    var month := (yday + 31) * 10 / 306;
    DateOfDay(year, yday, month, yday - (367 * month / 12 - 30) + 1);
    TimeOfDay(n);
  }

  lemma ModernYear(year: nat, yday: int)
    requires 0 <= yday <= 365 && Gauss(year) + yday >= 719468
    ensures year >= 1970 || (year == 1969 && yday >= 306)
  {
  }

  lemma TimeOfDay(n: nat)
    requires n < 86400
    ensures n == 3600 * (n / 3600) + 60 * (n % 3600 / 60) + n % 3600 % 60 && n / 3600 <= 23 && n % 3600 / 60 <= 59
  {
  }

  /** Day and month within the year that begins in March. */
  lemma DateOfDay(year: nat, yday: int, month: int, mday: int)
    requires 0 <= yday < YearLength(year + 1) && 1 <= month <= 12 && (yday >= 306 <==> month >= 11)
    requires mday == yday - (367 * month / 12 - 30) + 1
    requires 1 <= mday <= (if month == 12 then (if yday == 365 then 29 else 28)
                           else if month == 2 || month == 4 || month == 7 || month == 9 then 30 else 31)
    ensures var (y, m) := if yday >= 306 then (year + 1, month - 10) else (year, month + 2);
            ValidDate(y, m, mday) && DayCount(y, m, mday) == Gauss(year) + yday - 719468
  {
    if yday >= 306 {
      GaussCounts(year + 1, month - 10, mday);
    } else {
      GaussCounts(year, month + 2, mday);
    }
  }

  // ---------------------------------------------------------------- one date per day

  lemma InYear(year: int, mon: int, mday: int)
    requires ValidDate(year, mon, mday)
    ensures 0 <= MonthStart(year, mon) + mday - 1 < YearLength(year)
    ensures mon < 12 ==> MonthStart(year, mon) + mday - 1 < MonthStart(year, mon + 1)
  {
    MonthStarts(year);
  }

  lemma {:induction false} YearStartMono(a: nat, b: nat)
    requires a < b
    ensures YearStart(a) + YearLength(a) <= YearStart(b)
  {
    if b > a + 1 { YearStartMono(a, b - 1); }
  }

  lemma {:induction false} MonthStartMono(year: int, a: nat, b: nat)
    requires 1 <= a <= b
    ensures MonthStart(year, a) <= MonthStart(year, b)
    decreases b
  {
    if a < b { MonthStartMono(year, a, b - 1); }
  }

  /** A day has one date. */
  lemma DateUnique(y: nat, m: nat, d: int, y': nat, m': nat, d': int)
    requires ValidDate(y, m, d) && ValidDate(y', m', d') && DayCount(y, m, d) == DayCount(y', m', d')
    ensures y == y' && m == m' && d == d'
  {
    InYear(y, m, d);
    InYear(y', m', d');
    if y < y' { YearStartMono(y, y'); }
    if y' < y { YearStartMono(y', y); }
    if m < m' { MonthStartMono(y, m + 1, m'); }
    if m' < m { MonthStartMono(y, m' + 1, m); }
  }

  lemma ClockUnique(c: int, h: nat, m: nat, s: nat, c': int, h': nat, m': nat, s': nat)
    requires h <= 23 && m <= 59 && s <= 59 && h' <= 23 && m' <= 59 && s' <= 59
    requires 86400 * c + 3600 * h + 60 * m + s == 86400 * c' + 3600 * h' + 60 * m' + s'
    ensures c == c' && h == h' && m == m' && s == s'
  {
  }

  /** A moment has one broken-down time. */
  lemma TimeUnique(a: Tm, b: Tm, t: int)
    requires IsTime(a, t) && IsTime(b, t)
    ensures a == b
  {
    ClockUnique(DayCount(a.year, a.mon, a.mday), a.hour, a.min, a.sec, DayCount(b.year, b.mon, b.mday), b.hour, b.min, b.sec);
    DateUnique(a.year, a.mon, a.mday, b.year, b.mon, b.mday);
  }
}
