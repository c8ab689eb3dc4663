/** Calendar conversion (src/kernel/time/time.c). */
module Calendar {

  /** The fields of tm that the conversions use. */
  datatype Tm = Tm(sec: int, min: int, hour: int, mday: int, mon: int, year: int, wday: int, yday: int)

  const DAY: int := 86400

  predicate IsLeapYear(year: int) {
    (year % 4 == 0 && year % 100 != 0) || year % 400 == 0
  }

  function DaysInYear(year: int): int {
    if IsLeapYear(year) then 366 else 365
  }

  /** The table month[]. */
  function TableDays(mon: int): int {
    match mon
    case 2 => 28
    case 4 => 30
    case 6 => 30
    case 9 => 30
    case 11 => 30
    case _ => 31
  }

  function DaysInMonth(mon: int, year: int): int {
    if mon == 2 && IsLeapYear(year) then 29 else TableDays(mon)
  }

  function TableDaysBefore(mon: int): int
    decreases mon
  {
    if mon <= 1 then 0 else TableDaysBefore(mon - 1) + TableDays(mon - 1)
  }

  /** get_yday */
  function DayOfYear(t: Tm): int {
    TableDaysBefore(t.mon) + t.mday + if IsLeapYear(t.year + 1900) && t.mon > 2 then 1 else 0
  }

  /** Integer division of C. */
  function Quotient(a: int, b: int): int
    requires b > 0
  {
    if a >= 0 then a / b else -((-a) / b)
  }

  function ElapsedLeapYears(year: int): int {
    Quotient(year - 1, 4) - Quotient(year - 1, 100) + Quotient(year - 1, 400) - (1969 / 4 - 1969 / 100 + 1969 / 400)
  }

  /** mktime */
  function Mktime(t: Tm): int {
    var year := t.year + 1900;
    (year - 1970) * 365 * DAY + ElapsedLeapYears(year) * DAY
    + TableDaysBefore(t.mon) * DAY + (if t.mon > 2 && IsLeapYear(year) then DAY else 0)
    + DAY * (t.mday - 1) + 3600 * t.hour + 60 * t.min + t.sec
  }

  function YearAt(days: nat, year: int): (r: (int, nat))
    ensures r.1 < DaysInYear(r.0)
  {
    if days < DaysInYear(year) then (year, days) else YearAt(days - DaysInYear(year), year + 1)
  }

  function MonthAt(days: nat, mon: nat, year: int): (nat, nat)
    decreases 13 - mon
  {
    if mon > 12 || days < DaysInMonth(mon, year) then (mon, days)
    else MonthAt(days - DaysInMonth(mon, year), mon + 1, year)
  }

  /** localtime */
  function Localtime(stamp: nat): Tm {
    var days := stamp / 60 / 60 / 24;
    var (year, yday) := YearAt(days, 1970);
    var (mon, mday) := MonthAt(yday, 1, year);
    Tm(stamp % 60, stamp / 60 % 60, stamp / 60 / 60 % 24, mday + 1, mon, year - 1900, (days + 4) % 7, yday + 1)
  }

  // The Gregorian calendar, counted day by day and year by year.

  function DaysBeforeYear(year: int): nat
    decreases year
  {
    if year <= 1970 then 0 else DaysBeforeYear(year - 1) + DaysInYear(year - 1)
  }

  function DaysBeforeMonth(mon: int, year: int): nat
    decreases mon
  {
    if mon <= 1 then 0 else DaysBeforeMonth(mon - 1, year) + DaysInMonth(mon - 1, year)
  }

  function DayNumber(t: Tm): int {
    DaysBeforeYear(t.year + 1900) + DaysBeforeMonth(t.mon, t.year + 1900) + t.mday - 1
  }

  predicate ValidDate(t: Tm) {
    && t.year + 1900 >= 1970 && 1 <= t.mon <= 12 && 1 <= t.mday <= DaysInMonth(t.mon, t.year + 1900)
    && t.wday == (DayNumber(t) + 4) % 7
    && t.yday == DaysBeforeMonth(t.mon, t.year + 1900) + t.mday
  }

  predicate Valid(t: Tm) {
    0 <= t.sec < 60 && 0 <= t.min < 60 && 0 <= t.hour < 24 && ValidDate(t)
  }

  function NextDay(t: Tm): Tm {
    var wday := (t.wday + 1) % 7;
    if t.mday < DaysInMonth(t.mon, t.year + 1900) then t.(mday := t.mday + 1, wday := wday, yday := t.yday + 1)
    else if t.mon < 12 then t.(mday := 1, mon := t.mon + 1, wday := wday, yday := t.yday + 1)
    else t.(mday := 1, mon := 1, year := t.year + 1, wday := wday, yday := 1)
  }

  /** What a clock on the wall shows one second later. */
  function NextSecond(t: Tm): Tm {
    if t.sec < 59 then t.(sec := t.sec + 1)
    else if t.min < 59 then t.(sec := 0, min := t.min + 1)
    else if t.hour < 23 then t.(sec := 0, min := 0, hour := t.hour + 1)
    else NextDay(t.(sec := 0, min := 0, hour := 0))
  }

  // The Gregorian calendar in closed form, without a table of months.

  /** The days of the year before month `mon`; month 13 begins the next year. */
  function MonthStart(mon: int, year: int): int {
    (367 * mon - 362) / 12
    - (if mon <= 2 then 0 else if (year % 4 == 0 && year % 100 != 0) || year % 400 == 0 then 1 else 2)
  }

  function MonthLength(mon: int, year: int): int {
    MonthStart(mon + 1, year) - MonthStart(mon, year)
  }

  /** The day of a date, counted from the first of January 1970. */
  function CivilDay(year: int, mon: int, mday: int): int {
    365 * (year - 1970) + (year - 1969) / 4 - (year - 1901) / 100 + (year - 1601) / 400 + MonthStart(mon,
        year) + mday - 1
  }

  /** The fields of `t` are those of second `stamp`. */
  predicate Shows(t: Tm, stamp: nat) {
    var year, day := t.year + 1900, stamp / 86400;
    && 1970 <= year && 1 <= t.mon <= 12 && 1 <= t.mday <= MonthLength(t.mon, year)
    && CivilDay(year, t.mon, t.mday) == day && t.yday == MonthStart(t.mon, year) + t.mday && t.wday == (day + 4) % 7
    && 0 <= t.hour < 24 && 0 <= t.min < 60 && 0 <= t.sec < 60
    && 3600 * t.hour + 60 * t.min + t.sec == stamp % 86400
  }

  /** What (367 * mon - 362) / 12 is, month by month. */
  lemma StartOfMonth(mon: int, start: int)
    requires 1 <= mon <= 13
    requires start == (367 * mon - 362) / 12
    ensures start == [0, 31, 61, 92, 122, 153, 183, 214, 245, 275, 306, 336, 367][mon - 1]
  {
    assert 12 * start <= 367 * mon - 362 < 12 * start + 12;
  }

  lemma LengthOfMonth(mon: int, year: int)
    requires 1 <= mon <= 12
    ensures MonthLength(mon, year) == DaysInMonth(mon, year) && MonthStart(1, year) == 0
  {
    StartOfMonth(mon, (367 * mon - 362) / 12);
    StartOfMonth(mon + 1, (367 * (mon + 1) - 362) / 12);
  }

  lemma {:induction false} MonthStarts(mon: int, year: int)
    requires 1 <= mon <= 13
    ensures DaysBeforeMonth(mon, year) == MonthStart(mon, year)
    ensures mon <= 12 ==> DaysInMonth(mon, year) == MonthLength(mon, year)
    decreases mon
  {
    LengthOfMonth(if mon <= 12 then mon else 12, year);
    hide DaysInMonth, MonthStart;
    if mon > 1 {
      MonthStarts(mon - 1, year);
    }
  }

  lemma YearStarts(year: int)
    requires year >= 1970
    ensures DaysBeforeYear(year) == 365 * (year - 1970) + (year - 1969) / 4 - (year - 1901) / 100 + (year - 1601) / 400
  {
    hide DaysBeforeYear;
    ElapsedIsCount(year);
    assert (year - 1969) / 4 == (year - 1) / 4 - 492;
    assert (year - 1901) / 100 == (year - 1) / 100 - 19;
    assert (year - 1601) / 400 == (year - 1) / 400 - 4;
  }

  lemma DayIsCivil(t: Tm)
    requires t.year + 1900 >= 1970 && 1 <= t.mon <= 12
    ensures DayNumber(t) == CivilDay(t.year + 1900, t.mon, t.mday)
    ensures DaysInMonth(t.mon, t.year + 1900) == MonthLength(t.mon, t.year + 1900)
    ensures DaysBeforeMonth(t.mon, t.year + 1900) == MonthStart(t.mon, t.year + 1900)
  {
    hide MonthStart, MonthLength;
    YearStarts(t.year + 1900);
    MonthStarts(t.mon, t.year + 1900);
  }

  // The closed forms of the code agree with the count.

  lemma LeapStep(year: int)
    requires year >= 1970
    ensures ElapsedLeapYears(year + 1) == ElapsedLeapYears(year) + if IsLeapYear(year) then 1 else 0
  {
    assert year / 4 == (year - 1) / 4 + if year % 4 == 0 then 1 else 0;
    assert year / 100 == (year - 1) / 100 + if year % 100 == 0 then 1 else 0;
    assert year / 400 == (year - 1) / 400 + if year % 400 == 0 then 1 else 0;
    assert year % 100 == 0 ==> year % 4 == 0;
    assert year % 400 == 0 ==> year % 100 == 0;
  }

  /** elapsed_leap_years counts the leap years from 1970 on. */
  lemma {:induction false} ElapsedIsCount(year: int)
    requires year >= 1970
    ensures DaysBeforeYear(year) == 365 * (year - 1970) + ElapsedLeapYears(year)
    decreases year
  {
    if year > 1970 {
      ElapsedIsCount(year - 1);
      LeapStep(year - 1);
    }
  }

  lemma {:induction false} MonthsAgree(mon: int, year: int)
    ensures DaysBeforeMonth(mon, year) == TableDaysBefore(mon) + if mon > 2 && IsLeapYear(year) then 1 else 0
    decreases mon
  {
    if mon > 1 {
      MonthsAgree(mon - 1, year);
    }
  }

  lemma MktimeCounts(t: Tm)
    requires t.year + 1900 >= 1970
    ensures Mktime(t) == DAY * DayNumber(t) + 3600 * t.hour + 60 * t.min + t.sec
  {
    ElapsedIsCount(t.year + 1900);
    MonthsAgree(t.mon, t.year + 1900);
    hide ElapsedLeapYears, DaysBeforeYear, DaysBeforeMonth, TableDaysBefore, IsLeapYear;
  }

  /** mktime is the day number and the time of day, for every date from 1970 on. */
  lemma MktimeIsCount(t: Tm)
    requires t.year + 1900 >= 1970
    ensures Mktime(t) == DAY * DayNumber(t) + 3600 * t.hour + 60 * t.min + t.sec
    ensures DayOfYear(t) == DaysBeforeMonth(t.mon, t.year + 1900) + t.mday
    ensures 1 <= t.mon <= 12 ==>
              && Mktime(t) == 86400 * CivilDay(t.year + 1900, t.mon, t.mday) + 3600 * t.hour + 60 * t.min + t.sec
              && DayOfYear(t) == MonthStart(t.mon, t.year + 1900) + t.mday
  {
    MktimeCounts(t);
    MonthsAgree(t.mon, t.year + 1900);
    hide Mktime, IsLeapYear, TableDaysBefore;
    if 1 <= t.mon <= 12 {
      hide CivilDay, MonthStart, DayNumber, DaysBeforeMonth;
      DayIsCivil(t);
    }
  }

  /** The leap days before a year: the quotients of C round towards zero, which shows before the year 1. */
  lemma ElapsedExactly(year: int)
    ensures ElapsedLeapYears(year) == (year - 1969) / 4 - (year - 1901) / 100 + (year - 1601) / 400 <==>
            year >= 1 || IsLeapYear(year - 1)
  {
    var a := year - 1;
    Truncates(a);
    Shifts(a);
    Hundreds(a);
    hide Quotient;
  }

  lemma Shifts(a: int)
    ensures (a - 1968) / 4 == a / 4 - 492 && (a - 1900) / 100 == a / 100 - 19 && (a - 1600) / 400 == a / 400 - 4
  {
  }

  lemma Hundreds(a: int)
    ensures (a % 400 == 0 ==> a % 100 == 0) && (a % 100 == 0 ==> a % 4 == 0)
  {
  }

  lemma Truncates(a: int)
    ensures Quotient(a, 4) == a / 4 + if a < 0 && a % 4 != 0 then 1 else 0
    ensures Quotient(a, 100) == a / 100 + if a < 0 && a % 100 != 0 then 1 else 0
    ensures Quotient(a, 400) == a / 400 + if a < 0 && a % 400 != 0 then 1 else 0
  {
  }

  /** mktime is the closed form for every year at all, exactly from the year 1 on or after a leap year. */
  lemma MktimeExactly(t: Tm)
    requires 1 <= t.mon <= 12
    ensures Mktime(t) == 86400 * CivilDay(t.year + 1900, t.mon, t.mday) + 3600 * t.hour + 60 * t.min + t.sec <==>
            t.year + 1900 >= 1 || IsLeapYear(t.year + 1899)
  {
    ElapsedExactly(t.year + 1900);
    MonthsAgree(t.mon, t.year + 1900);
    MonthStarts(t.mon, t.year + 1900);
    hide ElapsedLeapYears, MonthStart, TableDaysBefore, DaysBeforeMonth, IsLeapYear;
  }

  lemma {:induction false} YearAtFits(days: nat, year: int)
    requires year >= 1970
    ensures var (y, d) := YearAt(days, year);
            y >= year && DaysBeforeYear(y) + d == DaysBeforeYear(year) + days
    decreases days
  {
    if days >= DaysInYear(year) {
      YearAtFits(days - DaysInYear(year), year + 1);
    }
  }

  lemma {:induction false} YearAtUnique(days: nat, year: int, y: int, d: nat)
    requires 1970 <= year <= y && d < DaysInYear(y)
    requires DaysBeforeYear(y) + d == DaysBeforeYear(year) + days
    ensures YearAt(days, year) == (y, d)
    decreases y - year
  {
    if year < y {
      YearsGrow(year + 1, y);
      YearAtUnique(days - DaysInYear(year), year + 1, y, d);
    }
  }

  lemma {:induction false} YearsGrow(a: int, b: int)
    requires 1970 <= a <= b
    ensures DaysBeforeYear(a) <= DaysBeforeYear(b)
    decreases b
  {
    if a < b {
      YearsGrow(a, b - 1);
    }
  }

  lemma WholeYear(year: int)
    ensures DaysBeforeMonth(13, year) == DaysInYear(year)
  {
    MonthsAgree(13, year);
    assert TableDaysBefore(4) == 90 && TableDaysBefore(7) == 181;
    assert TableDaysBefore(10) == 273;
    assert TableDaysBefore(13) == 365;
  }

  lemma {:induction false} MonthAtFits(days: nat, mon: nat, year: int)
    requires 1 <= mon <= 13 && DaysBeforeMonth(mon, year) + days < DaysInYear(year)
    ensures var (m, d) := MonthAt(days, mon, year);
            && 1 <= m <= 12 && d < DaysInMonth(m, year)
            && DaysBeforeMonth(m, year) + d == DaysBeforeMonth(mon, year) + days
    decreases 13 - mon
  {
    hide IsLeapYear, TableDays, DaysInMonth, DaysInYear;
    WholeYear(year);
    if mon <= 12 && days >= DaysInMonth(mon, year) {
      MonthAtFits(days - DaysInMonth(mon, year), mon + 1, year);
    }
  }

  lemma {:induction false} MonthAtUnique(days: nat, mon: nat, year: int, m: nat, d: nat)
    requires 1 <= mon <= m <= 12 && d < DaysInMonth(m, year)
    requires DaysBeforeMonth(m, year) + d == DaysBeforeMonth(mon, year) + days
    ensures MonthAt(days, mon, year) == (m, d)
    decreases m - mon
  {
    hide IsLeapYear, TableDays, DaysInMonth;
    if mon < m {
      MonthsGrow(mon + 1, m, year);
      MonthAtUnique(days - DaysInMonth(mon, year), mon + 1, year, m, d);
    }
  }

  lemma {:induction false} MonthsGrow(a: int, b: int, year: int)
    requires 1 <= a <= b
    ensures DaysBeforeMonth(a, year) <= DaysBeforeMonth(b, year)
    decreases b
  {
    if a < b {
      MonthsGrow(a, b - 1, year);
    }
  }

  lemma Split(stamp: nat)
    ensures stamp == DAY * (stamp / 60 / 60 / 24) + 3600 * (stamp / 60 / 60 % 24) + 60 * (stamp / 60 % 60) + stamp % 60
  {
  }

  /** localtime yields an existing date with the right day of the week and of the year. */
  lemma LocaltimeValid(stamp: nat)
    ensures Valid(Localtime(stamp)) && DayNumber(Localtime(stamp)) == stamp / 60 / 60 / 24
    ensures Shows(Localtime(stamp), stamp)
  {
    hide IsLeapYear, TableDays, DaysInMonth, DaysInYear, YearAt, MonthAt, MonthStart, MonthLength, CivilDay;
    var days := stamp / 60 / 60 / 24;
    YearAtFits(days, 1970);
    var (year, yday) := YearAt(days, 1970);
    MonthAtFits(yday, 1, year);
    var (mon, mday) := MonthAt(yday, 1, year);
    assert DaysBeforeMonth(1, year) == 0 && DaysBeforeYear(1970) == 0;
    var t := Localtime(stamp);
    assert t.year + 1900 == year && t.mon == mon && t.mday == mday + 1;
    assert DayNumber(t) == days;
    assert t.yday == DaysBeforeMonth(t.mon, t.year + 1900) + t.mday;
    assert ValidDate(t);
    DayIsCivil(t);
    Split(stamp);
    assert stamp / 86400 == days;
  }

  /** mktime undoes localtime. */
  lemma MktimeOfLocaltime(stamp: nat)
    ensures Mktime(Localtime(stamp)) == stamp
  {
    var t := Localtime(stamp);
    LocaltimeValid(stamp);
    MktimeIsCount(t);
    Split(stamp);
  }

  lemma Join(days: nat, hour: nat, min: nat, sec: nat)
    requires sec < 60 && min < 60 && hour < 24
    ensures var s := DAY * days + 3600 * hour + 60 * min + sec;
            s % 60 == sec && s / 60 % 60 == min && s / 60 / 60 % 24 == hour && s / 60 / 60 / 24 == days
  {
    var s := DAY * days + 3600 * hour + 60 * min + sec;
    assert s == 60 * (1440 * days + 60 * hour + min) + sec;
    assert s / 60 == 1440 * days + 60 * hour + min;
    assert s / 60 / 60 == 24 * days + hour;
  }

  lemma DateFits(t: Tm)
    requires ValidDate(t)
    ensures t.yday - 1 < DaysInYear(t.year + 1900)
    ensures DaysBeforeYear(1970) == 0 && DaysBeforeMonth(1, t.year + 1900) == 0
  {
    hide IsLeapYear, TableDays, DaysInMonth, DaysInYear;
    var year := t.year + 1900;
    MonthsGrow(t.mon + 1, 13, year);
    WholeYear(year);
  }

  /** localtime undoes mktime on every date from 1970 on. */
  lemma LocaltimeOfMktime(t: Tm)
    requires Valid(t)
    ensures Mktime(t) >= 0 && Localtime(Mktime(t)) == t
  {
    hide Mktime, DayOfYear, IsLeapYear, TableDays, DaysInMonth, DaysInYear, DaysBeforeYear, YearAt, MonthAt;
    MktimeIsCount(t);
    var year, days := t.year + 1900, DayNumber(t);
    Join(days, t.hour, t.min, t.sec);
    DateFits(t);
    YearAtUnique(days, 1970, year, t.yday - 1);
    MonthAtUnique(t.yday - 1, 1, year, t.mon, t.mday - 1);
  }

  // Stamps are u32.

  const WORD: int := 0x1_0000_0000

  function Word(x: int): (w: nat)
    ensures w < WORD
  {
    x % WORD
  }

  lemma WordAdd(a: int, b: int)
    ensures Word(Word(a) + b) == Word(a + b)
  {
    var q, r := a / WORD, a % WORD;
    assert a + b == q * WORD + (r + b);
    var q2, r2 := (r + b) / WORD, (r + b) % WORD;
    assert a + b == (q + q2) * WORD + r2;
  }

  /** The date and time are no later than 7 February 2106, 06:28:15. */
  predicate Counted(t: Tm) {
    || t.year < 206
    || (t.year == 206 &&
        (|| t.mon < 2
         || (t.mon == 2 && (t.mday < 7 || (t.mday == 7 && 3600 * t.hour + 60 * t.min + t.sec <= 23295)))))
  }

  lemma LastYear()
    ensures DaysBeforeYear(2106) == 49673 && DaysBeforeYear(2107) == 50038
  {
    ElapsedIsCount(2106);
    ElapsedIsCount(2107);
    assert ElapsedLeapYears(2106) == 33 && ElapsedLeapYears(2107) == 33;
  }

  /** Where the day of a date stands to the last day that 32 bits can count to the end. */
  lemma LastDay(t: Tm)
    requires ValidDate(t)
    ensures DayNumber(t) < 49710 <==> t.year < 206 || (t.year == 206 && (t.mon < 2 || (t.mon == 2 && t.mday < 7)))
    ensures DayNumber(t) == 49710 <==> t.year == 206 && t.mon == 2 && t.mday == 7
  {
    hide DaysBeforeYear, DaysBeforeMonth;
    var year := t.year + 1900;
    LastYear();
    if year < 2106 {
      DayBeforeNextYear(t);
      YearsGrow(year + 1, 2106);
    } else if year > 2106 {
      YearsGrow(2107, year);
    } else {
      FirstMonths();
      if t.mon > 2 {
        MonthsGrow(3, t.mon, year);
      }
    }
  }

  lemma FirstMonths()
    ensures DaysBeforeMonth(1, 2106) == 0 && DaysBeforeMonth(2, 2106) == 31 && DaysBeforeMonth(3, 2106) == 59
  {
    assert DaysInMonth(1, 2106) == 31 && DaysInMonth(2, 2106) == 28;
    assert DaysBeforeMonth(2, 2106) == DaysBeforeMonth(1, 2106) + 31;
  }

  lemma DayBeforeNextYear(t: Tm)
    requires ValidDate(t)
    ensures DayNumber(t) < DaysBeforeYear(t.year + 1901)
  {
    DateFits(t);
  }

  /** In 32 bits localtime undoes mktime exactly on the dates up to the last second of the count. */
  lemma StampsExactly(t: Tm)
    requires Valid(t)
    ensures Localtime(Word(Mktime(t))) == t <==> Counted(t)
  {
    hide Localtime, Mktime, DayNumber, DaysBeforeMonth, DaysInMonth;
    LocaltimeOfMktime(t);
    MktimeOfLocaltime(Word(Mktime(t)));
    MktimeIsCount(t);
    LastDay(t);
    assert WORD == DAY * 49710 + 23296;
  }

  /** The second after the last one is taken for the first of all. */
  lemma FirstLost()
    ensures var t := Tm(16, 28, 6, 7, 2, 206, 0, 38);
            Valid(t) && !Counted(t) && Localtime(Word(Mktime(t))) == Localtime(0)
  {
    var t := Tm(16, 28, 6, 7, 2, 206, 0, 38);
    hide Localtime;
    LastYear();
    FirstMonths();
    MktimeIsCount(t);
  }

  /** The first of January 1970 was a Thursday. */
  lemma Epoch()
    ensures Localtime(0) == Tm(0, 0, 0, 1, 1, 70, 4, 1)
  {
    assert YearAt(0, 1970) == (1970, 0);
    assert MonthAt(0, 1, 1970) == (1, 0);
  }

  lemma NextMonthCounts(t: Tm)
    requires ValidDate(t) && t.mday == DaysInMonth(t.mon, t.year + 1900) && t.mon < 12
    ensures ValidDate(NextDay(t)) && DayNumber(NextDay(t)) == DayNumber(t) + 1
  {
    hide IsLeapYear, DaysInYear, DaysBeforeYear;
    var year := t.year + 1900;
    assert DaysBeforeMonth(t.mon + 1, year) == DaysBeforeMonth(t.mon, year) + t.mday;
  }

  lemma NextYearCounts(t: Tm)
    requires ValidDate(t) && t.mday == DaysInMonth(t.mon, t.year + 1900) && t.mon == 12
    ensures ValidDate(NextDay(t)) && DayNumber(NextDay(t)) == DayNumber(t) + 1
  {
    hide IsLeapYear, DaysInYear;
    var year := t.year + 1900;
    WholeYear(year);
    assert DaysBeforeMonth(13, year) == DaysBeforeMonth(12, year) + t.mday;
    assert DaysBeforeYear(year + 1) == DaysBeforeYear(year) + DaysInYear(year);
    assert DaysBeforeMonth(1, year + 1) == 0;
  }

  lemma NextDayCounts(t: Tm)
    requires ValidDate(t)
    ensures ValidDate(NextDay(t)) && DayNumber(NextDay(t)) == DayNumber(t) + 1
  {
    if t.mday < DaysInMonth(t.mon, t.year + 1900) {
      hide IsLeapYear, DaysInYear, DaysBeforeYear, DaysBeforeMonth, DaysInMonth;
    } else {
      hide *;
      if t.mon < 12 {
        NextMonthCounts(t);
      } else {
        NextYearCounts(t);
      }
    }
  }

  lemma NextSecondCounts(t: Tm)
    requires Valid(t)
    ensures Valid(NextSecond(t)) && Mktime(NextSecond(t)) == Mktime(t) + 1
  {
    var u := t.(sec := 0, min := 0, hour := 0);
    hide IsLeapYear, DaysInYear, DaysBeforeYear, DaysBeforeMonth, DaysInMonth, Mktime, NextDay;
    NextDayCounts(u);
    NextDayKeepsTime(u);
    MktimeCounts(t);
    MktimeCounts(NextSecond(t));
    assert DayNumber(u) == DayNumber(t);
    hide DayNumber;
  }

  lemma NextDayKeepsTime(t: Tm)
    ensures var n := NextDay(t); n.sec == t.sec && n.min == t.min && n.hour == t.hour
  {
  }

  /** The dates localtime gives for successive seconds follow one another as on a clock. */
  lemma LocaltimeTicks(stamp: nat)
    ensures Localtime(stamp + 1) == NextSecond(Localtime(stamp))
  {
    hide Localtime, Mktime, Valid, NextSecond;
    LocaltimeValid(stamp);
    MktimeOfLocaltime(stamp);
    NextSecondCounts(Localtime(stamp));
    LocaltimeOfMktime(NextSecond(Localtime(stamp)));
  }

  // The code.

  method GetYday(t: Tm) returns (res: int)
    requires t.mon <= 13
    ensures res == DayOfYear(t)
    ensures 1 <= t.mon <= 12 && t.year >= 70 ==> res == MonthStart(t.mon, t.year + 1900) + t.mday
  {
    hide MonthStart, CivilDay, Mktime, DayNumber, DaysBeforeMonth, IsLeapYear;
    if t.year >= 70 {
      MktimeIsCount(t);
    }
    res := 0;
    var i := 1;
    while i < t.mon
      invariant i == 1 || 1 < i <= t.mon
      invariant res == TableDaysBefore(i)
    {
      res := res + TableDays(i);
      i := i + 1;
    }
    res := res + t.mday;
    if IsLeapYear(t.year + 1900) && t.mon > 2 {
      res := res + 1;
    }
  }

  method LocaltimeLoop(stamp: nat) returns (t: Tm)
    ensures t == Localtime(stamp) && Shows(t, stamp)
  {
    hide IsLeapYear, TableDays, DaysInMonth, Shows;
    LocaltimeValid(stamp);
    var remain := stamp / 60;
    var hours := remain / 60;
    var days := hours / 24;
    var wday := (days + 4) % 7;
    var year := 1970;
    while days >= DaysInYear(year)
      invariant days >= 0 && YearAt(days, year) == YearAt(stamp / 60 / 60 / 24, 1970)
      decreases days
    {
      days := days - DaysInYear(year);
      year := year + 1;
    }
    var yday := days + 1;
    var mon := 1;
    while mon <= 12 && days >= DaysInMonth(mon, year)
      invariant 1 <= mon <= 13 && days >= 0 && MonthAt(days, mon, year) == MonthAt(yday - 1, 1, year)
    {
      days := days - DaysInMonth(mon, year);
      mon := mon + 1;
    }
    t := Tm(stamp % 60, remain % 60, hours % 24, days + 1, mon, year - 1900, wday, yday);
  }

  /** mktime; the year product overflows an int from 2039 on, and wraps. */
  method MktimeLoop(t: Tm) returns (res: nat)
    requires t.mon <= 13
    ensures res == Word(Mktime(t))
    ensures 1 <= t.mon <= 12 && t.year >= 70 ==>
              res == Word(86400 * CivilDay(t.year + 1900, t.mon, t.mday) + 3600 * t.hour + 60 * t.min + t.sec)
  {
    hide IsLeapYear, TableDays, ElapsedLeapYears, Word, CivilDay, MonthStart;
    if t.year >= 70 {
      MktimeIsCount(t);
    }
    var year := t.year + 1900;
    res := Word((year - 1970) * (365 * DAY));
    ghost var sum := (year - 1970) * (365 * DAY);
    res, sum := Add(res, ElapsedLeapYears(year) * DAY, sum);
    ghost var years := sum;
    var i := 1;
    while i < t.mon
      invariant i == 1 || 1 < i <= t.mon
      invariant sum == years + TableDaysBefore(i) * DAY && res == Word(sum)
    {
      res, sum := Add(res, TableDays(i) * DAY, sum);
      i := i + 1;
    }
    if t.mon > 2 && IsLeapYear(year) {
      res, sum := Add(res, DAY, sum);
    }
    res, sum := Add(res, DAY * (t.mday - 1), sum);
    res, sum := Add(res, 3600 * t.hour, sum);
    res, sum := Add(res, 60 * t.min, sum);
    res, sum := Add(res, t.sec, sum);
  }

  /** One += of mktime. */
  method Add(res: nat, x: int, ghost sum: int) returns (r: nat, ghost total: int)
    requires res == Word(sum)
    ensures total == sum + x && r == Word(total)
  {
    WordAdd(sum, x);
    r, total := Word(res + x), sum + x;
  }
}
