/**
 HTTP and cookie dates: how ngx_times.c prints them and how ngx_parse_time.c reads them back.
 */
module HttpDate {
  import opened Calendar

  // ---------------------------------------------------------------- printing

  function Digit(n: nat): char
    requires n < 10
  {
    '0' + n as char
  }

  function WeekDay(wday: nat): (s: string)
    ensures |s| == 3 && forall i :: 0 <= i < 3 ==> s[i] != ',' && s[i] != ' '
  {
    match wday
    case 0 => "Sun" case 1 => "Mon" case 2 => "Tue" case 3 => "Wed" case 4 => "Thu" case 5 => "Fri" case _ => "Sat"
  }

  /** months[mon - 1] */
  function MonthName(mon: int): (s: string)
    ensures |s| == 3
  {
    match mon
    case 1 => "Jan" case 2 => "Feb" case 3 => "Mar" case 4 => "Apr" case 5 => "May" case 6 => "Jun"
    case 7 => "Jul" case 8 => "Aug" case 9 => "Sep" case 10 => "Oct" case 11 => "Nov" case _ => "Dec"
  }

  predicate Printable(tm: Tm) {
    1970 <= tm.year <= 9999 && ValidDate(tm.year, tm.mon, tm.mday) && tm.hour <= 23 && tm.min <= 59 && tm.sec <= 59
  }

  lemma DayInTwoDigits(year: int, mon: int)
    ensures MonthLength(year, mon) <= 31
  {
  }

  /** " hh:mm:ss GMT" */
  function Clock(tm: Tm): string
    requires Printable(tm)
  {
    [' ', Digit(tm.hour / 10), Digit(tm.hour % 10), ':', Digit(tm.min / 10), Digit(tm.min % 10), ':',
     Digit(tm.sec / 10), Digit(tm.sec % 10), ' ', 'G', 'M', 'T']
  }

  /** ngx_http_time: "%s, %02d %s %4d %02d:%02d:%02d GMT" */
  function HttpText(tm: Tm): string
    requires Printable(tm)
  {
    var w, m := WeekDay(tm.wday), MonthName(tm.mon);
    [w[0], w[1], w[2], ',', ' ', Digit(tm.mday / 10), Digit(tm.mday % 10), ' ', m[0], m[1], m[2], ' ',
     Digit(tm.year / 1000), Digit(tm.year / 100 % 10), Digit(tm.year / 10 % 10), Digit(tm.year % 10)]
    + Clock(tm)
  }

  /** ngx_http_cookie_time: two digits of the year up to 2037, all of them after. */
  function CookieText(tm: Tm): string
    requires Printable(tm)
  {
    var w, m := WeekDay(tm.wday), MonthName(tm.mon);
    [w[0], w[1], w[2], ',', ' ', Digit(tm.mday / 10), Digit(tm.mday % 10), '-', m[0], m[1], m[2], '-']
    + (if tm.year > 2037
       then [Digit(tm.year / 1000), Digit(tm.year / 100 % 10), Digit(tm.year / 10 % 10), Digit(tm.year % 10)]
       else [Digit(tm.year % 100 / 10), Digit(tm.year % 100 % 10)])
    + Clock(tm)
  }

  // ---------------------------------------------------------------- reading

  /** NGX_ERROR, which is also a time: one second before the epoch. */
  const ERROR: int := -1

  /** The fields of a date; months are 0..11. */
  datatype Date = Date(day: int, month: int, year: nat, hour: int, min: int, sec: int)

  datatype Reading = Unreadable | Read(date: Date)

  /** What two digits, or four for the year, can say. */
  predicate InDigits(d: Date) {
    0 <= d.day <= 99 && 0 <= d.month <= 11 && d.year <= 9999 && 0 <= d.hour <= 99 && 0 <= d.min <= 99 && 0 <= d.sec <= 99
  }

  predicate IsDigit(c: char) { '0' <= c <= '9' }

  function Value(c: char): int { c as int - '0' as int }

  predicate TwoDigits(s: string, p: nat)
    requires p + 2 <= |s|
  {
    IsDigit(s[p]) && IsDigit(s[p + 1])
  }

  function Two(s: string, p: nat): int
    requires p + 2 <= |s|
  {
    Value(s[p]) * 10 + Value(s[p + 1])
  }

  /** The first comma or space from p on, or the end. */
  function Stop(s: string, p: nat): (q: nat)
    requires p <= |s|
    ensures p <= q <= |s|
    decreases |s| - p
  {
    if p == |s| || s[p] == ',' || s[p] == ' ' then p else Stop(s, p + 1)
  }

  function SkipSpaces(s: string, p: nat): (q: nat)
    ensures p <= q && (p <= |s| ==> q <= |s|)
    decreases |s| - p
  {
    if p >= |s| || s[p] != ' ' then p else SkipSpaces(s, p + 1)
  }

  /** The switch on the name of the month: 0..11, or -1. */
  function MonthIndex(s: string, p: nat): (m: int)
    requires p + 3 <= |s|
    ensures -1 <= m <= 11
  {
    match s[p]
    case 'J' => if s[p + 1] == 'a' then 0 else if s[p + 2] == 'n' then 5 else 6
    case 'F' => 1
    case 'M' => if s[p + 2] == 'r' then 2 else 4
    case 'A' => if s[p + 1] == 'p' then 3 else 7
    case 'S' => 8
    case 'O' => 9
    case 'N' => 10
    case 'D' => 11
    case _ => -1
  }

  const MDAY: seq<int> := [31, 28, 31, 30, 31, 30, 31, 31, 30, 31, 30, 31]

  const WORD: int := 0x1_0000_0000_0000_0000

  /** (time_t) of an unsigned 64-bit value */
  function Signed(w: int): int { if w < WORD / 2 then w else w - WORD }

  /** The checks at the end of ngx_parse_http_time. */
  predicate Refused(day: int, month: int, year: nat, hour: int, min: int, sec: int)
    requires 0 <= month <= 11
  {
    hour > 23 || min > 59 || sec > 59
    || if day == 29 && month == 1 then year % 4 != 0 || (year % 100 == 0 && year % 400 != 0) else day > MDAY[month]
  }

  /** The formula at the end of ngx_parse_http_time, in unsigned 64-bit arithmetic. */
  function Stamp(day: int, month: int, year: nat, hour: int, min: int, sec: int): int {
    var m := if month - 1 <= 0 then month + 11 else month - 1;
    var y := if month - 1 <= 0 then (if year == 0 then WORD - 1 else year - 1) else year;
    Signed((GaussDays(y, m, day) * 86400 + hour * 3600 + min * 60 + sec) % WORD)
  }

  /** The end of ngx_parse_http_time. */
  function Finish(d: Date): int
    requires 0 <= d.month <= 11
  {
    if Refused(d.day, d.month, d.year, d.hour, d.min, d.sec) then ERROR else Stamp(d.day, d.month, d.year, d.hour, d.min, d.sec)
  }

  /** " hh:mm:ss" at p, for a date that is complete. */
  function ReadClock(s: string, p: nat, day: int, month: int, year: nat): (r: Reading)
    requires p + 9 <= |s| && 0 <= day <= 99 && 0 <= month <= 11 && year <= 9999
    ensures r.Read? ==> InDigits(r.date)
  {
    if s[p] != ' ' || !TwoDigits(s, p + 1) || s[p + 3] != ':' || !TwoDigits(s, p + 4) || s[p + 6] != ':' || !TwoDigits(s, p + 7)
    then Unreadable
    else Read(Date(day, month, year, Two(s, p + 1), Two(s, p + 4), Two(s, p + 7)))
  }

  /** "10 Nov 2002 23:50:13" or "10-Dec-02 23:50:13" at p */
  function ReadDay(s: string, p: nat): (r: Reading)
    requires p + 18 <= |s|
    ensures r.Read? ==> InDigits(r.date)
  {
    if !TwoDigits(s, p) then Unreadable
    else if s[p + 2] == ' ' then
      if |s| - (p + 2) < 18 then Unreadable
      else
        var month := MonthIndex(s, p + 3);
        if month < 0 || s[p + 6] != ' ' || !TwoDigits(s, p + 7) || !TwoDigits(s, p + 9) then Unreadable
        else ReadClock(s, p + 11, Two(s, p), month, Two(s, p + 7) * 100 + Two(s, p + 9))
    else if s[p + 2] == '-' then
      var month := MonthIndex(s, p + 3);
      if month < 0 || s[p + 6] != '-' || !TwoDigits(s, p + 7) then Unreadable
      else
        var y := Two(s, p + 7);
        ReadClock(s, p + 9, Two(s, p), month, y + if y < 70 then 2000 else 1900)
    else Unreadable
  }

  /** "Dec 10 23:50:13 2002" at p */
  function ReadIsoc(s: string, p: nat): (r: Reading)
    requires p + 18 <= |s|
    ensures r.Read? ==> InDigits(r.date)
  {
    var month := MonthIndex(s, p);
    var q := if s[p + 4] == ' ' then p + 5 else p + 4;
    if month < 0 || !IsDigit(s[q]) || (s[q + 1] != ' ' && !IsDigit(s[q + 1])) then Unreadable
    else
      var day := if s[q + 1] == ' ' then Value(s[q]) else Two(s, q);
      var e := if s[q + 1] == ' ' then q + 1 else q + 2;
      if |s| - e < 14 || s[e + 9] != ' ' || !TwoDigits(s, e + 10) || !TwoDigits(s, e + 12) then Unreadable
      else ReadClock(s, e, day, month, Two(s, e + 10) * 100 + Two(s, e + 12))
  }

  /** The fields that ngx_parse_http_time finds in the text. */
  function Fields(s: string): (r: Reading)
    ensures r.Read? ==> InDigits(r.date)
  {
    var q := Stop(s, 0);
    var p := SkipSpaces(s, q + 1);
    if |s| - p < 18 then Unreadable
    else if s[q] == ' ' then ReadIsoc(s, p)
    else ReadDay(s, p)
  }

  /** ngx_parse_http_time, as a function of the text */
  function Parsed(s: string): int {
    match Fields(s)
    case Unreadable => ERROR
    case Read(d) => Finish(d)
  }

  /** ngx_parse_http_time */
  method ParseHttpTime(value: string) returns (r: int)
    ensures r == Parsed(value)
  {
    var p, isoc := 0, false;
    while p < |value|
      invariant p <= |value| && !isoc && Stop(value, 0) == Stop(value, p)
    {
      if value[p] == ',' {
        break;
      }
      if value[p] == ' ' {
        isoc := true;
        break;
      }
      p := p + 1;
    }
    p := p + 1;
    ghost var p0 := p;
    while p < |value|
      invariant p0 <= p && SkipSpaces(value, p0) == SkipSpaces(value, p)
    {
      if value[p] != ' ' {
        break;
      }
      p := p + 1;
    }
    if |value| - p < 18 {
      return ERROR;
    }
    var fields := if isoc then ReadIsoc(value, p) else ReadDay(value, p);
    if fields.Unreadable? {
      return ERROR;
    }
    r := Finish(fields.date);
  }

  // ---------------------------------------------------------------- the last checks are the calendar's

  lemma TableIsCalendar(year: nat, month: int)
    requires 0 <= month <= 11
    ensures MonthLength(year, month + 1) == if month == 1 && Leap(year) then 29 else MDAY[month]
  {
  }

  /** The day or the time of day is too large. */
  predicate TooLarge(d: Date) {
    d.hour > 23 || d.min > 59 || d.sec > 59 || d.day > MonthLength(d.year, d.month + 1)
  }

  /** Seconds from the epoch to the date, by the lengths of years and months. */
  function Moment(d: Date): int
    requires 0 <= d.month <= 11
  {
    86400 * DayCount(d.year, d.month + 1, d.day) + 3600 * d.hour + 60 * d.min + d.sec
  }

  /** January and February of the year 0. */
  predicate BeforeMarchZero(d: Date) { d.year == 0 && d.month <= 1 }

  /** A date whose day or time of day is too large is refused; else the seconds since 1970 are counted.
      The day 0 is let through, as the day before the first. */
  lemma FinishOk(d: Date)
    requires InDigits(d)
    ensures TooLarge(d) ==> Finish(d) == ERROR
    ensures !TooLarge(d) ==> (Finish(d) == Moment(d) <==> !BeforeMarchZero(d))
  {
    RefusedOk(d.day, d.month, d.year, d.hour, d.min, d.sec);
    if !TooLarge(d) {
      DayInTwoDigits(d.year, d.month + 1);
      if BeforeMarchZero(d) {
        YearZeroWrong(d.day, d.month, d.hour, d.min, d.sec);
      } else {
        StampOk(d.day, d.month, d.year, d.hour, d.min, d.sec);
      }
    }
  }

  /** 31 Dec 1969 23:59:59, or the same as the day 0 of January 1970. */
  predicate LastSecond(d: Date) {
    (d == Date(31, 11, 1969, 23, 59, 59)) || d == Date(0, 0, 1970, 23, 59, 59)
  }

  /** Which moment is -1. */
  lemma MinusOne(d: Date)
    requires InDigits(d) && !TooLarge(d)
    ensures Moment(d) == -1 <==> LastSecond(d)
  {
    EpochIsDayZero();
    MonthStarts(1969);
    YearStartFormula(1969);
    assert DayCount(1969, 12, 31) == -1;
    if Moment(d) == -1 {
      ClockUnique(DayCount(d.year, d.month + 1, d.day), d.hour, d.min, d.sec, -1, 23, 59, 59);
      if d.day == 0 {
        DateUnique(d.year, d.month + 1, 1, 1970, 1, 1);
      } else {
        DateUnique(d.year, d.month + 1, d.day, 1969, 12, 31);
      }
    }
  }

  /** The result is the error value exactly for a text that cannot be read, a date that is too large, and the last
      second before the epoch. */
  lemma ErrorIff(s: string)
    ensures Parsed(s) == ERROR <==> Fields(s).Unreadable? || TooLarge(Fields(s).date) || LastSecond(Fields(s).date)
  {
    if Fields(s).Read? {
      var d := Fields(s).date;
      FinishOk(d);
      if !TooLarge(d) {
        MinusOne(d);
        if BeforeMarchZero(d) {
          RefusedOk(d.day, d.month, d.year, d.hour, d.min, d.sec);
          YearZeroStamp(d.day, d.month, d.hour, d.min, d.sec);
        }
      }
    }
  }

  /** "Wed, 31 Dec 1969 23:59:59 GMT" */
  ghost predicate SpellsLastSecond(s: string) {
    && |s| == 29 && s[0] == 'W' && s[1] == 'e' && s[2] == 'd' && s[3] == ',' && s[4] == ' ' && s[5] == '3' && s[6] == '1' && s[7] == ' '
    && s[8] == 'D' && s[9] == 'e' && s[10] == 'c' && s[11] == ' ' && s[12] == '1' && s[13] == '9' && s[14] == '6' && s[15] == '9'
    && s[16] == ' ' && s[17] == '2' && s[18] == '3' && s[19] == ':' && s[20] == '5' && s[21] == '9' && s[22] == ':' && s[23] == '5'
    && s[24] == '9' && s[25] == ' ' && s[26] == 'G' && s[27] == 'M' && s[28] == 'T'
  }

  /** A correct date that is answered like an error. */
  lemma LastSecondCollides(s: string)
    requires SpellsLastSecond(s)
    ensures Fields(s) == Read(Date(31, 11, 1969, 23, 59, 59)) && !TooLarge(Fields(s).date) && Parsed(s) == ERROR
  {
    CommaStart(s);
    LongYear(s, 31, 11, 1969);
    ErrorIff(s);
  }

  /** A text that starts like "Sun, 06" has its day at 5. */
  lemma CommaStart(s: string)
    requires |s| >= 27 && s[3] == ',' && s[4] == ' ' && s[5] != ' '
    requires forall i :: 0 <= i < 3 ==> s[i] != ',' && s[i] != ' '
    ensures Fields(s) == ReadDay(s, 5)
  {
    assert Stop(s, 0) == Stop(s, 1) == Stop(s, 2) == Stop(s, 3) == 3;
    assert SkipSpaces(s, 4) == SkipSpaces(s, 5) == 5;
  }

  lemma RefusedOk(day: int, month: int, year: nat, hour: int, min: int, sec: int)
    requires 0 <= month <= 11
    ensures Refused(day, month, year, hour, min, sec)
            <==> !(hour <= 23 && min <= 59 && sec <= 59 && day <= MonthLength(year, month + 1))
  {
    TableIsCalendar(year, month);
  }

  lemma StampOk(day: int, month: int, year: nat, hour: int, min: int, sec: int)
    requires 0 <= day <= 31 && 0 <= month <= 11 && 0 <= year <= 9999 && 0 <= hour <= 23 && 0 <= min <= 59 && 0 <= sec <= 59
    requires month >= 2 || year >= 1
    ensures Stamp(day, month, year, hour, min, sec) == 86400 * DayCount(year, month + 1, day) + 3600 * hour + 60 * min + sec
  {
    GaussCounts(year, month + 1, day);
    var m := if month - 1 <= 0 then month + 11 else month - 1;
    var y := if month - 1 <= 0 then year - 1 else year;
    GaussRange(y, m, day);
    WrapSmall(GaussDays(y, m, day) * 86400 + hour * 3600 + min * 60 + sec);
  }

  lemma GaussRange(y: nat, m: int, day: int)
    requires y <= 9999 && 1 <= m <= 12 && 0 <= day <= 31
    ensures -1000000 <= GaussDays(y, m, day) <= 4000000
  {
  }

  /** January and February of the year 0 wrap around below the year 0 and come out wrong, all of them. */
  lemma YearZeroWrong(day: int, month: int, hour: int, min: int, sec: int)
    requires 0 <= day <= 31 && 0 <= month <= 1 && 0 <= hour <= 23 && 0 <= min <= 59 && 0 <= sec <= 59
    ensures Stamp(day, month, 0, hour, min, sec) != 86400 * DayCount(0, month + 1, day) + 3600 * hour + 60 * min + sec
  {
    MonthStarts(0);
    YearZeroStamp(day, month, hour, min, sec);
  }

  /** They are 10368 seconds late. */
  lemma YearZeroStamp(day: int, month: int, hour: int, min: int, sec: int)
    requires 0 <= day <= 31 && 0 <= month <= 1 && 0 <= hour <= 23 && 0 <= min <= 59 && 0 <= sec <= 59
    ensures Stamp(day, month, 0, hour, min, sec) == 86400 * DayCount(0, month + 1, day) + 3600 * hour + 60 * min + sec + 10368 < -1
  {
    var actual := 86400 * DayCount(0, month + 1, day) + 3600 * hour + 60 * min + sec;
    var used := GaussDays(WORD - 1, month + 11, day) * 86400 + hour * 3600 + min * 60 + sec;
    MonthStarts(0);
    var off := Gauss(WORD - 1) + 366;
    assert used == actual + off * 86400;
    assert off * 86400 == WORD * 31556952 + 10368;
    WrapShift(actual + 10368, 31556952);
  }

  lemma WrapShift(t: int, k: int)
    requires 0 - WORD / 2 <= t < WORD / 2
    ensures Signed((t + WORD * k) % WORD) == t
  {
    assert (t + WORD * k) % WORD == t % WORD;
    WrapSmall(t);
  }

  lemma WrapSmall(t: int)
    requires 0 - WORD / 2 <= t < WORD / 2
    ensures Signed(t % WORD) == t
  {
  }

  // ---------------------------------------------------------------- round trips

  lemma DigitValue(n: nat)
    requires n < 10
    ensures IsDigit(Digit(n)) && Value(Digit(n)) == n
  {
  }

  lemma MonthReadBack(s: string, p: nat, mon: int)
    requires 1 <= mon <= 12 && p + 3 <= |s| && s[p] == MonthName(mon)[0] && s[p + 1] == MonthName(mon)[1] && s[p + 2] == MonthName(mon)[2]
    ensures MonthIndex(s, p) == mon - 1
  {
  }

  /** Two digits written at p read back. */
  lemma TwoReadBack(s: string, p: nat, n: nat)
    requires n < 100 && p + 2 <= |s| && s[p] == Digit(n / 10) && s[p + 1] == Digit(n % 10)
    ensures TwoDigits(s, p) && Two(s, p) == n
  {
    DigitValue(n / 10);
    DigitValue(n % 10);
  }

  /** The fields of tm. */
  function DateOf(tm: Tm): Date
    requires Printable(tm)
  {
    Date(tm.mday, tm.mon - 1, tm.year, tm.hour, tm.min, tm.sec)
  }

  /** " hh:mm:ss" at p. */
  ghost predicate ClockAt(s: string, p: nat, tm: Tm)
    requires Printable(tm)
  {
    && p + 9 <= |s| && s[p] == ' ' && s[p + 3] == ':' && s[p + 6] == ':'
    && s[p + 1] == Digit(tm.hour / 10) && s[p + 2] == Digit(tm.hour % 10)
    && s[p + 4] == Digit(tm.min / 10) && s[p + 5] == Digit(tm.min % 10)
    && s[p + 7] == Digit(tm.sec / 10) && s[p + 8] == Digit(tm.sec % 10)
  }

  lemma ClockIsAt(s: string, p: nat, tm: Tm)
    requires Printable(tm) && p + 13 == |s| && s[p..] == Clock(tm)
    ensures ClockAt(s, p, tm)
  {
    forall k | 0 <= k < 13 ensures s[p + k] == Clock(tm)[k] {
      assert s[p..][k] == s[p + k];
    }
  }

  lemma ClockReadBack(s: string, p: nat, tm: Tm)
    requires Printable(tm) && ClockAt(s, p, tm) && tm.mday <= 31
    ensures ReadClock(s, p, tm.mday, tm.mon - 1, tm.year) == Read(DateOf(tm))
  {
    TwoReadBack(s, p + 1, tm.hour);
    TwoReadBack(s, p + 4, tm.min);
    TwoReadBack(s, p + 7, tm.sec);
  }

  /** The fields of a valid date from 1970 on count its seconds. */
  lemma MomentReadBack(s: string, tm: Tm)
    requires Printable(tm) && Fields(s) == Read(DateOf(tm))
    ensures Parsed(s) == Seconds(tm) >= 0
  {
    DayInTwoDigits(tm.year, tm.mon);
    FinishOk(DateOf(tm));
    NotBeforeEpoch(tm);
  }

  /** "Sun, 06" and the name of the month, with `sep` around it. */
  ghost predicate Head(s: string, tm: Tm, sep: char)
    requires Printable(tm)
  {
    var w, m := WeekDay(tm.wday), MonthName(tm.mon);
    && |s| >= 27 && s[0] == w[0] && s[1] == w[1] && s[2] == w[2] && s[3] == ',' && s[4] == ' '
    && tm.mday <= 31 && s[5] == Digit(tm.mday / 10) && s[6] == Digit(tm.mday % 10) && s[7] == sep
    && s[8] == m[0] && s[9] == m[1] && s[10] == m[2] && s[11] == sep
  }

  /** The start of a printed date. */
  lemma HeadReadBack(s: string, tm: Tm, sep: char)
    requires Printable(tm) && Head(s, tm, sep)
    ensures Fields(s) == ReadDay(s, 5) && TwoDigits(s, 5) && Two(s, 5) == tm.mday && MonthIndex(s, 8) == tm.mon - 1
  {
    TwoReadBack(s, 5, tm.mday);
    CommaStart(s);
    MonthReadBack(s, 8, tm.mon);
  }

  ghost function Seconds(tm: Tm): int
    requires Printable(tm)
  {
    86400 * DayCount(tm.year, tm.mon, tm.mday) + 3600 * tm.hour + 60 * tm.min + tm.sec
  }

  /** Reading a printed HTTP date gives the moment it was printed for. */
  lemma HttpRoundTrip(tm: Tm)
    requires Printable(tm)
    ensures Parsed(HttpText(tm)) == Seconds(tm) >= 0
  {
    var s := HttpText(tm);
    DayInTwoDigits(tm.year, tm.mon);
    assert s[16..] == Clock(tm);
    ClockIsAt(s, 16, tm);
    HttpDateRead(s, tm);
    ClockReadBack(s, 16, tm);
    MomentReadBack(s, tm);
  }

  lemma HttpDateRead(s: string, tm: Tm)
    requires Printable(tm) && Head(s, tm, ' ') && |s| == 29
    requires s[12] == Digit(tm.year / 1000) && s[13] == Digit(tm.year / 100 % 10)
    requires s[14] == Digit(tm.year / 10 % 10) && s[15] == Digit(tm.year % 10)
    ensures Fields(s) == ReadClock(s, 16, tm.mday, tm.mon - 1, tm.year)
  {
    HeadReadBack(s, tm, ' ');
    YearDigits(tm.year);
    TwoReadBack(s, 12, tm.year / 100);
    TwoReadBack(s, 14, tm.year % 100);
    LongYear(s, tm.mday, tm.mon - 1, tm.year);
  }

  lemma YearDigits(y: nat)
    ensures y / 100 / 10 == y / 1000 && y % 100 / 10 == y / 10 % 10 && y % 100 % 10 == y % 10
  {
    var h, t := y / 100, y % 100;
    Thousands(y, h / 10, 100 * (h % 10) + t);
    Tens(y, 10 * h + t / 10, t % 10);
    Tens(10 * h + t / 10, h, t / 10);
  }

  lemma Thousands(x: nat, q: nat, r: nat)
    requires r < 1000 && x == 1000 * q + r
    ensures x / 1000 == q
  {
  }

  lemma Tens(x: nat, q: nat, r: nat)
    requires r < 10 && x == 10 * q + r
    ensures x / 10 == q && x % 10 == r
  {
  }

  /** A day and a month followed by a year of four digits. */
  lemma LongYear(s: string, day: int, month: int, year: nat)
    requires |s| == 29 && TwoDigits(s, 5) && Two(s, 5) == day && s[7] == ' ' && s[11] == ' '
    requires year <= 9999 && 0 <= month <= 11 && MonthIndex(s, 8) == month && TwoDigits(s, 12) && TwoDigits(s, 14)
    requires Two(s, 12) == year / 100 && Two(s, 14) == year % 100
    ensures ReadDay(s, 5) == ReadClock(s, 16, day, month, year)
  {
    assert year == year / 100 * 100 + year % 100;
  }

  /** A day and a month followed by a year of two digits. */
  lemma ShortYear(s: string, day: int, month: int, year: nat)
    requires |s| == 27 && TwoDigits(s, 5) && Two(s, 5) == day && s[7] == '-' && s[11] == '-'
    requires 0 <= month <= 11 && MonthIndex(s, 8) == month && TwoDigits(s, 12)
    requires Two(s, 12) == year % 100 && 1970 <= year <= 2037
    ensures ReadDay(s, 5) == ReadClock(s, 14, day, month, year)
  {
    var y := year % 100;
    assert year == y + if y < 70 then 2000 else 1900;
  }

  /** A cookie date reads back up to the year 2037 and is refused after it. */
  lemma CookieRoundTrip(tm: Tm)
    requires Printable(tm)
    ensures Parsed(CookieText(tm)) == (if tm.year <= 2037 then Seconds(tm) else ERROR) && Seconds(tm) >= 0
    ensures tm.year > 2037 ==> Fields(CookieText(tm)).Unreadable?
  {
    var s := CookieText(tm);
    DayInTwoDigits(tm.year, tm.mon);
    if tm.year <= 2037 {
      assert s[14..] == Clock(tm);
      ClockIsAt(s, 14, tm);
      CookieDateRead(s, tm);
      ClockReadBack(s, 14, tm);
      MomentReadBack(s, tm);
    } else {
      CookieRefused(s, tm);
      NotBeforeEpoch(tm);
    }
  }

  lemma CookieDateRead(s: string, tm: Tm)
    requires Printable(tm) && tm.year <= 2037 && Head(s, tm, '-') && |s| == 27
    requires s[12] == Digit(tm.year % 100 / 10) && s[13] == Digit(tm.year % 100 % 10)
    ensures Fields(s) == ReadClock(s, 14, tm.mday, tm.mon - 1, tm.year)
  {
    HeadReadBack(s, tm, '-');
    TwoReadBack(s, 12, tm.year % 100);
    ShortYear(s, tm.mday, tm.mon - 1, tm.year);
  }

  lemma CookieRefused(s: string, tm: Tm)
    requires Printable(tm) && Head(s, tm, '-') && |s| == 29
    requires s[12] == Digit(tm.year / 1000) && s[13] == Digit(tm.year / 100 % 10) && s[14] == Digit(tm.year / 10 % 10)
    ensures Fields(s).Unreadable?
  {
    HeadReadBack(s, tm, '-');
    DigitValue(tm.year / 10 % 10);
  }

  // ---------------------------------------------------------------- the second format, and any weekday

  /** A weekday in any spelling. */
  ghost predicate Word(w: string) {
    forall i :: 0 <= i < |w| ==> w[i] != ',' && w[i] != ' '
  }

  lemma {:induction false} StopAt(s: string, p: nat, q: nat)
    requires p <= q < |s| && (s[q] == ',' || s[q] == ' ') && forall i :: p <= i < q ==> s[i] != ',' && s[i] != ' '
    ensures Stop(s, p) == q
    decreases q - p
  {
    if p < q { StopAt(s, p + 1, q); }
  }

  lemma {:induction false} SkipTo(s: string, p: nat, q: nat)
    requires p <= q < |s| && s[q] != ' ' && forall i :: p <= i < q ==> s[i] == ' '
    ensures SkipSpaces(s, p) == q
    decreases q - p
  {
    if p < q { SkipTo(s, p + 1, q); }
  }

  /** "06-Nov-94 08:49:37" or "06 Nov 1994 08:49:37" */
  function DayText(tm: Tm, long: bool): string
    requires Printable(tm) && tm.mday <= 31
  {
    var m, sep := MonthName(tm.mon), if long then ' ' else '-';
    [Digit(tm.mday / 10), Digit(tm.mday % 10), sep, m[0], m[1], m[2], sep]
    + (if long then [Digit(tm.year / 1000), Digit(tm.year / 100 % 10), Digit(tm.year / 10 % 10), Digit(tm.year % 10)]
       else [Digit(tm.year % 100 / 10), Digit(tm.year % 100 % 10)])
    + Clock(tm)[..9]
  }

  lemma DayTextRead(s: string, p: nat, tm: Tm, long: bool)
    requires Printable(tm) && tm.mday <= 31 && (long || tm.year <= 2069)
    requires |s| >= p + |DayText(tm, long)| && forall k :: 0 <= k < |DayText(tm, long)| ==> s[p + k] == DayText(tm, long)[k]
    ensures ReadDay(s, p) == Read(DateOf(tm))
  {
    var d := DayText(tm, long);
    assert s[p] == d[0] && s[p + 1] == d[1] && s[p + 2] == d[2] && s[p + 3] == d[3] && s[p + 4] == d[4] && s[p + 5] == d[5] && s[p + 6] == d[6];
    TwoReadBack(s, p, tm.mday);
    MonthReadBack(s, p + 3, tm.mon);
    if long {
      LongRead(s, p, tm);
    } else {
      ShortRead(s, p, tm);
    }
  }

  lemma LongRead(s: string, p: nat, tm: Tm)
    requires Printable(tm) && tm.mday <= 31
    requires |s| >= p + |DayText(tm, true)| && forall k :: 0 <= k < |DayText(tm, true)| ==> s[p + k] == DayText(tm, true)[k]
    requires TwoDigits(s, p) && Two(s, p) == tm.mday && s[p + 2] == ' ' && s[p + 6] == ' ' && MonthIndex(s, p + 3) == tm.mon - 1
    ensures ReadDay(s, p) == Read(DateOf(tm))
  {
    var d := DayText(tm, true);
    assert s[p + 7] == d[7] && s[p + 8] == d[8] && s[p + 9] == d[9] && s[p + 10] == d[10];
    YearDigits(tm.year);
    TwoReadBack(s, p + 7, tm.year / 100);
    TwoReadBack(s, p + 9, tm.year % 100);
    assert tm.year == tm.year / 100 * 100 + tm.year % 100;
    forall k | 0 <= k < 9 ensures s[p + 11 + k] == Clock(tm)[k] {
      assert s[p + (11 + k)] == d[11 + k];
    }
    ClockHere(s, p + 11, tm);
    ClockReadBack(s, p + 11, tm);
  }

  lemma ShortRead(s: string, p: nat, tm: Tm)
    requires Printable(tm) && tm.mday <= 31 && tm.year <= 2069
    requires |s| >= p + |DayText(tm, false)| && forall k :: 0 <= k < |DayText(tm, false)| ==> s[p + k] == DayText(tm, false)[k]
    requires TwoDigits(s, p) && Two(s, p) == tm.mday && s[p + 2] == '-' && s[p + 6] == '-' && MonthIndex(s, p + 3) == tm.mon - 1
    ensures ReadDay(s, p) == Read(DateOf(tm))
  {
    var d := DayText(tm, false);
    assert s[p + 7] == d[7] && s[p + 8] == d[8];
    TwoReadBack(s, p + 7, tm.year % 100);
    var y := tm.year % 100;
    assert tm.year == y + if y < 70 then 2000 else 1900;
    forall k | 0 <= k < 9 ensures s[p + 9 + k] == Clock(tm)[k] {
      assert s[p + (9 + k)] == d[9 + k];
    }
    ClockHere(s, p + 9, tm);
    ClockReadBack(s, p + 9, tm);
  }

  lemma ClockHere(s: string, p: nat, tm: Tm)
    requires Printable(tm) && p + 9 <= |s| && forall k :: 0 <= k < 9 ==> s[p + k] == Clock(tm)[k]
    ensures ClockAt(s, p, tm)
  {
    var c := Clock(tm);
    assert c[0] == ' ' && c[3] == ':' && c[6] == ':';
    assert s[p + 0] == c[0] && s[p + 1] == c[1] && s[p + 2] == c[2] && s[p + 3] == c[3] && s[p + 4] == c[4];
    assert s[p + 5] == c[5] && s[p + 6] == c[6] && s[p + 7] == c[7] && s[p + 8] == c[8];
  }

  /** With any weekday before it, the first format reads back for every year, and the second, which has two digits for it,
      for the years from 1970 to 2069, however many spaces come
      first and whatever follows, "GMT" or nothing. */
  lemma WeekdayRoundTrip(w: string, gap: string, tm: Tm, long: bool, zone: string)
    requires Printable(tm) && tm.mday <= 31 && Word(w) && (forall i :: 0 <= i < |gap| ==> gap[i] == ' ') && (long || tm.year <= 2069)
    ensures Parsed(w + "," + gap + DayText(tm, long) + zone) == Seconds(tm) >= 0
  {
    var s, d, p := w + "," + gap + DayText(tm, long) + zone, DayText(tm, long), |w| + 1 + |gap|;
    assert s[|w|] == ',' && forall i :: 0 <= i < |w| ==> s[i] == w[i];
    assert forall i :: |w| + 1 <= i < p ==> s[i] == gap[i - |w| - 1];
    forall k | 0 <= k < |d| ensures s[p + k] == d[k] {
    }
    assert s[p + 0] == d[0] == Digit(tm.mday / 10);
    DigitValue(tm.mday / 10);
    StopAt(s, 0, |w|);
    SkipTo(s, |w| + 1, p);
    DayTextRead(s, p, tm, long);
    MomentReadBack(s, tm);
  }

  // ---------------------------------------------------------------- the third format

  /** "Tue Dec 10 23:50:13 2002", as asctime prints it; a day of one digit with a space before it if `pad`. */
  function AscText(tm: Tm, pad: bool): string
    requires Printable(tm)
  {
    var w, m := WeekDay(tm.wday), MonthName(tm.mon);
    [w[0], w[1], w[2], ' ', m[0], m[1], m[2], ' '] + AscDay(tm, pad) + Clock(tm)[..9]
    + [' ', Digit(tm.year / 1000), Digit(tm.year / 100 % 10), Digit(tm.year / 10 % 10), Digit(tm.year % 10)]
  }

  function AscDay(tm: Tm, pad: bool): string
    requires Printable(tm)
  {
    if tm.mday >= 10 then [Digit(tm.mday / 10), Digit(tm.mday % 10)]
    else if pad then [' ', Digit(tm.mday)]
    else [Digit(tm.mday)]
  }

  /** What follows the day, from e on. */
  ghost predicate AscTail(s: string, e: nat, tm: Tm)
    requires Printable(tm)
  {
    && |s| == e + 14 && ClockAt(s, e, tm) && s[e + 9] == ' '
    && s[e + 10] == Digit(tm.year / 1000) && s[e + 11] == Digit(tm.year / 100 % 10)
    && s[e + 12] == Digit(tm.year / 10 % 10) && s[e + 13] == Digit(tm.year % 10)
  }

  /** The day at q ends at e. */
  ghost predicate AscDayAt(s: string, q: nat, e: nat, tm: Tm)
    requires Printable(tm)
  {
    && q < e < |s|
    && if tm.mday >= 10 then e == q + 2 && s[q] == Digit(tm.mday / 10) && s[q + 1] == Digit(tm.mday % 10)
       else e == q + 1 && s[q] == Digit(tm.mday)
  }

  lemma AscRead(s: string, q: nat, e: nat, tm: Tm)
    requires Printable(tm) && |s| >= 22 && tm.mday <= 31
    requires (q == 8 || (q == 9 && s[8] == ' ')) && AscDayAt(s, q, e, tm) && AscTail(s, e, tm)
    requires MonthIndex(s, 4) == tm.mon - 1
    ensures ReadIsoc(s, 4) == Read(DateOf(tm))
  {
    AscDayRead(s, q, e, tm);
    YearDigits(tm.year);
    TwoReadBack(s, e + 10, tm.year / 100);
    TwoReadBack(s, e + 12, tm.year % 100);
    assert tm.year == tm.year / 100 * 100 + tm.year % 100;
    ClockReadBack(s, e, tm);
  }

  lemma AscDayRead(s: string, q: nat, e: nat, tm: Tm)
    requires Printable(tm) && AscDayAt(s, q, e, tm) && s[e] == ' ' && tm.mday <= 31
    ensures IsDigit(s[q]) && q + 1 < |s|
    ensures if s[q + 1] == ' ' then Value(s[q]) == tm.mday && e == q + 1 else TwoDigits(s, q) && Two(s, q) == tm.mday && e == q + 2
  {
    if tm.mday >= 10 { TwoReadBack(s, q, tm.mday); } else { DigitValue(tm.mday); }
  }

  /** Where the parts of the text are. */
  lemma AscParts(tm: Tm, pad: bool) returns (q: nat, e: nat)
    requires Printable(tm) && tm.mday <= 31
    ensures var s := AscText(tm, pad);
            (q == 8 || (q == 9 && |s| >= 9 && s[8] == ' ')) && AscDayAt(s, q, e, tm) && AscTail(s, e, tm)
  {
    var s := AscText(tm, pad);
    q := if tm.mday < 10 && pad then 9 else 8;
    e := 8 + |AscDay(tm, pad)|;
    forall k | 0 <= k < 9 ensures s[e + k] == Clock(tm)[k] {
    }
  }

  /** Both forms of the third format read back. */
  lemma AscRoundTrip(tm: Tm, pad: bool)
    requires Printable(tm)
    ensures Parsed(AscText(tm, pad)) == Seconds(tm) >= 0
  {
    var s := AscText(tm, pad);
    DayInTwoDigits(tm.year, tm.mon);
    var q, e := AscParts(tm, pad);
    MonthReadBack(s, 4, tm.mon);
    AscStart(s, tm);
    AscRead(s, q, e, tm);
    MomentReadBack(s, tm);
  }

  lemma AscStart(s: string, tm: Tm)
    requires |s| >= 22 && s[0] == WeekDay(tm.wday)[0] && s[1] == WeekDay(tm.wday)[1] && s[2] == WeekDay(tm.wday)[2]
    requires s[3] == ' ' && s[4] != ' '
    ensures Fields(s) == ReadIsoc(s, 4)
  {
    assert Stop(s, 0) == Stop(s, 1) == Stop(s, 2) == Stop(s, 3) == 3;
    assert SkipSpaces(s, 4) == 4;
  }

  // ---------------------------------------------------------------- moments

  /** For every moment up to the end of the year 9999, printing and reading are inverse. */
  lemma TimeRoundTrip(t: nat)
    requires Gmtime(t).year <= 9999
    ensures Printable(Gmtime(t))
    ensures Parsed(HttpText(Gmtime(t))) == t
    ensures forall pad :: Parsed(AscText(Gmtime(t), pad)) == t
    ensures Parsed(CookieText(Gmtime(t))) == if Gmtime(t).year <= 2037 then t else ERROR
  {
    GmtimeOk(t);
    HttpRoundTrip(Gmtime(t));
    CookieRoundTrip(Gmtime(t));
    forall pad ensures Parsed(AscText(Gmtime(t), pad)) == t {
      AscRoundTrip(Gmtime(t), pad);
    }
  }

  /** For every date from 1970 to 9999, breaking down what was read gives the date back. */
  lemma DateRoundTrip(tm: Tm)
    requires Printable(tm)
    ensures Parsed(HttpText(tm)) >= 0 && Gmtime(Parsed(HttpText(tm))).(wday := tm.wday) == tm
    ensures tm.wday == Weekday(tm.year, tm.mon, tm.mday) ==> Gmtime(Parsed(HttpText(tm))) == tm
  {
    HttpRoundTrip(tm);
    var t := Parsed(HttpText(tm));
    GmtimeOk(t);
    TimeUnique(Gmtime(t), tm.(wday := Weekday(tm.year, tm.mon, tm.mday)), t);
  }

  lemma NotBeforeEpoch(tm: Tm)
    requires Printable(tm)
    ensures DayCount(tm.year, tm.mon, tm.mday) >= 0
  {
    EpochIsDayZero();
    InYear(tm.year, tm.mon, tm.mday);
    if tm.year > 1970 { YearStartMono(1970, tm.year); }
  }
}
