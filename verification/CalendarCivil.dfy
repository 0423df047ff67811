/** The calendar by another rule, without a table of months: years are counted from March,
    so that the leap day is the last one. */
module CalendarCivil {
  import opened Bits
  import opened Calendar

  predicate Leap(year: int) {
    year % 400 == 0 || (year % 4 == 0 && year % 100 != 0)
  }

  /** Days from January 1, 1970, to a date, in closed form. */
  function CivilDays(year: int, mon: int, mday: int): int {
    var y := if mon < 2 then year - 1 else year;
    var m := if mon < 2 then mon + 10 else mon - 2;
    365 * y + y / 4 - y / 100 + y / 400 + (153 * m + 2) / 5 + mday - 1 - 719468
  }

  function CivilSeconds(tm: Fields): int {
    86400 * CivilDays(1900 + tm.year, tm.mon, tm.mday) + 3600 * tm.hour + 60 * tm.min + tm.sec
  }

  /** A date of the calendar: the next month, or the next year, has not begun. */
  predicate CivilDate(year: int, mon: int, mday: int) {
    && 0 <= mon <= 11 && 1 <= mday
    && CivilDays(year, mon, mday) < if mon == 11 then CivilDays(year + 1, 0, 1) else CivilDays(year, mon + 1, 1)
  }

  /** All the fields of a time are those of its instant. */
  predicate CivilFields(tm: Fields) {
    && 0 <= tm.sec < 60 && 0 <= tm.min < 60 && 0 <= tm.hour < 24
    && CivilDate(1900 + tm.year, tm.mon, tm.mday)
    && tm.yday == CivilDays(1900 + tm.year, tm.mon, tm.mday) - CivilDays(1900 + tm.year, 0, 1)
    && 0 <= tm.wday < 7 && (CivilDays(1900 + tm.year, tm.mon, tm.mday) - tm.wday + 4) % 7 == 0
    && tm.isdst == 0
  }

  /** Where the months begin. */
  lemma {:induction false} MonthStarts(year: int)
    ensures DaysBefore(0, year) == 0 && DaysBefore(1, year) == 31
    ensures var d := if Leap(year) then 1 else 0;
            && DaysBefore(2, year) == 59 + d && DaysBefore(3, year) == 90 + d && DaysBefore(4, year) == 120 + d
            && DaysBefore(5, year) == 151 + d && DaysBefore(6, year) == 181 + d && DaysBefore(7, year) == 212 + d
            && DaysBefore(8, year) == 243 + d && DaysBefore(9, year) == 273 + d && DaysBefore(10, year) == 304 + d
            && DaysBefore(11, year) == 334 + d && DaysBefore(12, year) == 365 + d
  {
    assert FebDays(year) == if Leap(year) then 29 else 28;
    hide DaysBefore, FebDays, DaysYear, Leap;
    NothingBeforeJanuary(year);
    NextMonth(0, year);
    NextMonth(1, year);
    NextMonth(2, year);
    NextMonth(3, year);
    NextMonth(4, year);
    NextMonth(5, year);
    NextMonth(6, year);
    NextMonth(7, year);
    NextMonth(8, year);
    NextMonth(9, year);
    NextMonth(10, year);
    NextMonth(11, year);
  }

  lemma NothingBeforeJanuary(year: int)
    ensures DaysBefore(0, year) == 0
  {
  }

  /** Both rules give every date the same day. */
  lemma {:induction false} CivilDay(year: int, mon: int, mday: int)
    requires 0 <= mon <= 11
    ensures Day(year - 1900, mon, mday) - DayNumber(1970) == CivilDays(year, mon, mday)
  {
    MonthStarts(year);
    DivisionSteps(year, 4);
    DivisionSteps(year, 100);
    DivisionSteps(year, 400);
    MultiplesOf(year);
    hide DaysBefore;
    assert DayNumber(1970) == 719527;
  }

  lemma CivilNewYear(year: int)
    ensures CivilDays(year, 0, 1) == DayNumber(year) - DayNumber(1970)
    ensures CivilDays(year + 1, 0, 1) == DayNumber(year) + DaysBefore(12, year) - DayNumber(1970)
  {
    hide DayNumber, CivilDays;
    CivilDay(year, 0, 1);
    CivilDay(year + 1, 0, 1);
    MonthStarts(year);
    MonthStarts(year + 1);
    YearLength(year);
    DaysBeforeYear(year);
  }

  /** Canonical fields are those that this rule gives, and their instant is its count. */
  lemma {:induction false} CivilTime(tm: Fields)
    requires 0 <= tm.mon <= 11
    ensures Instant(tm) - EpochSeconds() == CivilSeconds(tm)
    ensures Canonical(tm) <==> CivilFields(tm)
  {
    hide DayNumber, CivilDays, DaysBefore, MonthDays;
    var year := 1900 + tm.year;
    InstantOfCanonical(tm);
    CivilDay(year, tm.mon, tm.mday);
    CivilNewYear(year);
    if tm.mon < 11 {
      CivilDay(year, tm.mon + 1, 1);
    }
    NextMonth(tm.mon, year);
    WeekdayMeans(CivilDays(year, tm.mon, tm.mday), tm.wday);
  }

  lemma NextMonth(mon: int, year: int)
    requires 0 <= mon <= 11
    ensures DaysBefore(mon + 1, year) == DaysBefore(mon, year) + MonthDays(mon, year)
  {
  }

  lemma WeekdayMeans(day: int, wday: int)
    ensures wday == Mod(day + 4, 7) <==> 0 <= wday < 7 && (day - wday + 4) % 7 == 0
  {
  }

  /** Months beyond the year move into other years. */
  function Monthed(tm: Fields): Fields {
    tm.(year := tm.year + tm.mon / 12, mon := tm.mon % 12)
  }

  lemma {:induction false} CivilInstant(tm: Fields)
    ensures Instant(tm) - EpochSeconds() == CivilSeconds(Monthed(tm))
    ensures DayOf(tm) - DayNumber(1970) == CivilSeconds(Monthed(tm)) / 86400
  {
    CarriedKeeps(tm);
    MonthedInstant(tm);
    hide DayNumber, CivilDays, Day, DayOf, Instant;
    CivilTime(Monthed(tm));
    DaysOfSeconds(Instant(tm), DayNumber(1970));
  }

  lemma MonthedInstant(tm: Fields)
    ensures Instant(tm) == Instant(Monthed(tm)) && 0 <= Monthed(tm).mon <= 11
  {
    InstantOfCanonical(Monthed(tm));
    hide Day;
  }

  lemma DaysOfSeconds(x: int, day: int)
    ensures Floor(x, 86400) - day == (x - 86400 * day) / 86400
  {
    ModUnique(x - 86400 * day, 86400, x / 86400 - day, x % 86400);
  }

  /** The times that `mktime` accepts, from January 1, 1900, to December 31, 9999. */
  lemma {:induction false} AcceptedExact(tm: Fields)
    ensures Accepted(tm) <==>
              && CarriesAccepted(tm) && 0 <= tm.year + tm.mon / 12 <= 8099
              && -25567 * 86400 <= CivilSeconds(Monthed(tm)) < 2932897 * 86400
  {
    CivilInstant(tm);
    assert DayNumber(1900) == 719527 - 25567 && DayNumber(1970) == 719527 && DayNumber(10000) == 719527 + 2932897;
    hide DayNumber, CivilSeconds, DayOf, CarriesAccepted;
  }
}
