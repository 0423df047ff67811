/** `mktime`, `gmtime` and their helpers, which share a table of month lengths whose
    February entry they rewrite. */
module CalendarCode {
  import opened Bits
  import opened FoldArith
  import opened Calendar
  import opened CalendarCivil

  class Tm {
    var sec: int
    var min: int
    var hour: int
    var mday: int
    var mon: int
    var year: int
    var yday: int
    var wday: int
    var isdst: int

    ghost function Value(): Fields
      reads this
    {
      Fields(sec, min, hour, mday, mon, year, yday, wday, isdst)
    }
  }

  /** One carry: `val` into the range of its field, the rest into `next`. */
  method Norm(val: int, next: int, max: int) returns (ok: bool, v: int, n: int)
    requires max > 0
    ensures ok <==> NormAccepts(val, next, max)
    ensures if ok then v == Mod(val, max) && n == next + Floor(val, max) else v == val && n == next
  {
    v, n := val, next;
    if v < 0 {
      var d := -v / max + 1;
      v := v + d * max;
      if n > INT_MAX - d {
        return false, val, next;
      }
      n := n - d;
      CarriedBelow(val, max);
    }
    if v >= max {
      var d := v / max;
      ghost var before := v;
      v := v - d * max;
      if n < INT_MIN + d {
        return false, val, next;
      }
      n := n + d;
      FloorMod(before, max);
    } else {
      FloorSmall(v, max);
    }
    if val < 0 {
      ShiftedCarry(val, -val / max + 1, max);
    }
    return true, v, n;
  }

  lemma CarriedBelow(v: int, max: int)
    requires v < 0 && max > 0
    ensures v + (-v / max + 1) * max >= 0
  {
    FloorMod(-v, max);
    assert (-v / max + 1) * max == -v / max * max + max;
  }

  lemma ShiftedCarry(v: int, d: int, max: int)
    requires max > 0
    ensures Floor(v + d * max, max) == Floor(v, max) + d && Mod(v + d * max, max) == Mod(v, max)
  {
    FloorMod(v, max);
    assert max * (Floor(v, max) + d) == Floor(v, max) * max + d * max;
    ModUnique(v + d * max, max, Floor(v, max) + d, Mod(v, max));
  }

  class TimeTable {
    const daysmon: array<int>
    const gm: Tm

    constructor ()
      ensures Valid() && fresh(daysmon) && fresh(gm)
    {
      daysmon := new int[12](i => MonthDays(i, 1970));
      gm := new Tm;
    }

    /** The table is right for all months but perhaps February. */
    ghost predicate Valid()
      reads daysmon
    {
      daysmon.Length == 12 && forall m :: 0 <= m < 12 && m != FEB ==> daysmon[m] == MonthDays(m, EPOCH)
    }

    ghost predicate TableOf(year: int)
      reads daysmon
    {
      daysmon.Length == 12 && forall m :: 0 <= m < 12 ==> daysmon[m] == MonthDays(m, year)
    }

    /** Carries every field into its range and finds the date of the day. */
    method Normalize(tm: Tm) returns (ok: bool)
      requires Valid()
      modifies tm, daysmon
      ensures Valid()
      ensures ok <==> Accepted(old(tm.Value()))
      ensures ok ==> Canonical(tm.Value()) && Instant(tm.Value()) == Instant(old(tm.Value()))
      ensures ok ==> 0 <= tm.year <= MAXYEAR - MINYEAR && TableOf(MINYEAR + tm.year)
    {
      hide NormAccepts, CarriesAccepted, Carried, Instant, Canonical, Day, DaysBefore, DayNumber, DaysYear, Floor, Mod;
      ghost var given := tm.Value();
      CarriedKeeps(given);
      ok := Carry(tm);
      if !ok || tm.year < 0 {
        return false;
      }
      var mon, day, year := tm.mon, tm.mday, MINYEAR + tm.year;
      if year > MAXYEAR {
        return false;
      }
      ok, mon, day, year := FindDate(mon, day, year);
      if ok {
        SetDate(tm, mon, day, year);
        SameInstant(Carried(given), tm.Value());
      }
    }

    /** The carries between the fields. */
    method Carry(tm: Tm) returns (ok: bool)
      modifies tm
      ensures ok <==> CarriesAccepted(old(tm.Value()))
      ensures ok ==> tm.Value() == Carried(old(tm.Value()))
    {
      hide NormAccepts, Floor, Mod;
      ok, tm.sec, tm.min := Norm(tm.sec, tm.min, 60);
      if !ok { return; }
      ok, tm.min, tm.hour := Norm(tm.min, tm.hour, 60);
      if !ok { return; }
      ok, tm.hour, tm.mday := Norm(tm.hour, tm.mday, 24);
      if !ok { return; }
      ok, tm.mon, tm.year := Norm(tm.mon, tm.year, 12);
    }

    /** Days of the year before a month, by the table. */
    method YearDay(mon: int, ghost year: int) returns (yday: int)
      requires TableOf(year) && 0 <= mon <= 12
      ensures yday == DaysBefore(mon, year)
    {
      hide DaysBefore, MonthDays;
      yday := 0;
      NothingBefore(year);
      for i := 0 to mon
        invariant yday == DaysBefore(i, year)
      {
        StepBefore(i, year);
        yday := yday + daysmon[i];
      }
    }

    /** Sets the date, and the fields that follow from it. */
    method SetDate(tm: Tm, mon: int, day: int, year: int)
      requires Valid() && Date(year - MINYEAR, mon, day) && year >= MINYEAR && TableOf(year) && Clock(tm.Value())
      modifies tm
      ensures Canonical(tm.Value()) && tm.year == year - MINYEAR && tm.mon == mon && tm.mday == day
      ensures tm.hour == old(tm.hour) && tm.min == old(tm.min) && tm.sec == old(tm.sec)
    {
      hide DaysBefore, DayNumber, DaysYear, MonthDays, Mod;
      var yday := YearDay(mon, year);
      tm.mon := mon;
      tm.year := year - MINYEAR;
      tm.mday := day;
      tm.yday := yday + day - 1;
      tm.wday := (NewYear(tm.year) + tm.yday) % 7;
      tm.isdst := 0;
      BeforeNonNegative(mon, year);
      WeekdayOf(tm.year, tm.yday);
    }

    /** Moves a day of any size to the month it falls in. */
    method FindDate(mon0: int, day0: int, year0: int) returns (ok: bool, mon: int, day: int, year: int)
      requires Valid() && 0 <= mon0 <= DEC && MINYEAR <= year0 <= MAXYEAR
      modifies daysmon
      ensures Valid()
      ensures var d := Day(year0 - MINYEAR, mon0, day0);
              ok <==> DayNumber(MINYEAR) <= d < DayNumber(MAXYEAR + 1)
      ensures ok ==>
                && Day(year - MINYEAR, mon, day) == Day(year0 - MINYEAR, mon0, day0)
                && Date(year - MINYEAR, mon, day) && MINYEAR <= year <= MAXYEAR && TableOf(year)
    {
      hide DaysBefore, DayNumber, DaysYear, MonthDays, FebDays;
      ghost var d := Day(year0 - MINYEAR, mon0, day0);
      mon, day, year := mon0, day0, year0;
      SetFebruary(year);
      while day < 1
        invariant 0 <= mon <= DEC && MINYEAR <= year <= MAXYEAR && Valid() && TableOf(year)
        invariant Day(year - MINYEAR, mon, day) == d
        decreases 1 - day
      {
        if mon == JAN {
          NothingBefore(year);
          if year == MINYEAR {
            return false, mon, day, year;
          }
          year := year - 1;
          SetFebruary(year);
          YearLength(year);
          DaysBeforeYear(year);
          mon := DEC + 1;
        }
        StepBefore(mon - 1, year);
        MonthPositive(mon - 1, year);
        day := day + daysmon[mon - 1];
        mon := mon - 1;
      }
      while day > daysmon[mon]
        invariant 0 <= mon <= DEC && MINYEAR <= year <= MAXYEAR && Valid() && TableOf(year)
        invariant Day(year - MINYEAR, mon, day) == d && day >= 1
        decreases day
      {
        MonthPositive(mon, year);
        StepBefore(mon, year);
        day := day - daysmon[mon];
        if mon == DEC {
          YearLength(year);
          DaysBeforeYear(year);
          NothingBefore(year + 1);
          if year == MAXYEAR {
            return false, mon, day, year;
          }
          year := year + 1;
          SetFebruary(year);
          mon := JAN - 1;
        }
        mon := mon + 1;
      }
      WithinYear(year - MINYEAR, mon, day);
      YearsOrdered(MINYEAR, year);
      YearsOrdered(year + 1, MAXYEAR + 1);
      return true, mon, day, year;
    }

    method SetFebruary(year: int)
      requires Valid()
      modifies daysmon
      ensures Valid() && TableOf(year)
    {
      daysmon[FEB] := FebDays(year);
    }

    /** Seconds since the epoch, counted by years and months; years before 1970 add nothing. */
    method SysTime(tm: Tm) returns (t: int)
      requires TableOf(MINYEAR + tm.year) && 0 <= tm.mon <= DEC
      ensures t == Instant(tm.Value()) - EpochSeconds() + Uncounted(MINYEAR + tm.year)
    {
      hide DayNumber, DaysYear, DaysBefore;
      t := 0;
      var year := tm.year + MINYEAR;
      var i := EPOCH;
      while i < year
        invariant EPOCH <= i && (i <= year || i == EPOCH)
        invariant t == (DayNumber(i) - DayNumber(EPOCH)) * SECDAY
      {
        YearLength(i);
        t := t + DaysYear(i) * SECDAY;
        i := i + 1;
      }
      ghost var years := t;
      NothingBefore(year);
      for m := 0 to tm.mon
        invariant t == years + DaysBefore(m, year) * SECDAY
      {
        StepBefore(m, year);
        t := t + daysmon[m] * SECDAY;
      }
      t := t + tm.sec;
      t := t + tm.min * SECMIN;
      t := t + tm.hour * SECHOUR;
      t := t + (tm.mday - 1) * SECDAY;
      InstantOfCanonical(tm.Value());
    }

    /** The seconds of a broken-down time, whose fields it normalizes, or -1. */
    method MkTime(tm: Tm) returns (t: int)
      requires Valid()
      modifies tm, daysmon
      ensures Valid() && MkTimeGives(old(tm.Value()), tm.Value(), t)
      ensures Accepted(old(tm.Value())) ==>
                && CivilFields(tm.Value()) && CivilSeconds(tm.Value()) == CivilSeconds(Monthed(old(tm.Value())))
                && (tm.year >= 70 ==> t == CivilSeconds(tm.Value()))
    {
      hide Accepted, Canonical, Instant, Uncounted, CivilFields, CivilSeconds, Monthed;
      ghost var given := tm.Value();
      var ok := Normalize(tm);
      if !ok {
        return -1;
      }
      assert tm.Value().mon == tm.mon;
      CanonicalMonth(tm.Value());
      t := SysTime(tm);
      CivilTime(tm.Value());
      CivilInstant(given);
      Counted(tm.year);
    }

    /** The broken-down time of seconds since the epoch, in a static object. */
    method GmTime(tim: int) returns (tm: Tm)
      requires Valid()
      modifies gm, daysmon
      ensures Valid() && tm == gm && GmTimeGives(tim, tm.Value())
      ensures CivilSeconds(tm.Value()) == tim && (tim >= 0 ==> CivilFields(tm.Value()))
      ensures TableOf(MINYEAR + tm.year)
    {
      hide Quot, Rem, DaysYear, DayNumber, DaysBefore, MonthDays, GmTimeGives, Mod, Floor, CivilSeconds, CivilFields;
      tm := gm;
      tm.sec := Rem(tim, SECDAY);
      tm.min := Quot(tm.sec, 60);
      tm.sec := Rem(tm.sec, 60);
      tm.hour := Quot(tm.min, 60);
      tm.min := Rem(tm.min, 60);
      var day := Quot(tim, SECDAY);
      tm.wday := Rem(day + 4, 7);
      var year, yday := FindYear(day);
      tm.year := year - 1900;
      tm.yday := yday;
      SetFebruary(year);
      var mon, left := FindMonth(yday, year);
      tm.mon := mon;
      tm.mday := left + 1;
      tm.isdst := 0;
      ClockOf(tim);
      ghost var f := tm.Value();
      if tim >= 0 {
        Truncated(day + 4, 7);
        BrokenDown(tim, day, f);
      } else {
        Before1970(tim, day, f);
      }
      GivenCivil(tim, f);
    }

    /** The year a day since the epoch falls in, and the day of that year. */
    method FindYear(day0: int) returns (year: int, day: int)
      ensures year >= EPOCH && DayNumber(year) + day == DayNumber(EPOCH) + day0 && day < DaysYear(year)
      ensures day0 >= 0 ==> day >= 0
      ensures day0 <= 0 ==> year == EPOCH && day == day0
    {
      hide DayNumber;
      year, day := EPOCH, day0;
      while day >= DaysYear(year)
        invariant year >= EPOCH && DayNumber(year) + day == DayNumber(EPOCH) + day0
        invariant day0 >= 0 ==> day >= 0
        invariant day0 <= 0 ==> year == EPOCH && day == day0
        decreases day
      {
        YearLength(year);
        YearPositive(year);
        day := day - DaysYear(year);
        year := year + 1;
      }
    }

    /** The month a day of the year falls in, and the day of that month, from 0. */
    method FindMonth(yday: int, ghost year: int) returns (mon: int, day: int)
      requires TableOf(year) && yday < DaysYear(year)
      ensures 0 <= mon <= DEC && DaysBefore(mon, year) + day == yday && day < MonthDays(mon, year)
      ensures yday >= 0 ==> day >= 0
      ensures yday <= 0 ==> mon == JAN && day == yday
    {
      hide DaysYear, DaysBefore, MonthDays;
      DaysBeforeYear(year);
      NothingBefore(year);
      mon, day := JAN, yday;
      StepBefore(DEC, year);
      while day >= daysmon[mon]
        invariant 0 <= mon <= DEC && DaysBefore(mon, year) + day == yday
        invariant yday >= 0 ==> day >= 0
        invariant yday <= 0 ==> mon == JAN && day == yday
        decreases 12 - mon
      {
        MonthPositive(mon, year);
        StepBefore(mon, year);
        day := day - daysmon[mon];
        mon := mon + 1;
      }
    }
  }

  /** The days that `_systime` leaves out, in seconds. */
  function Uncounted(year: int): int {
    if year < EPOCH then (DayNumber(EPOCH) - DayNumber(year)) * SECDAY else 0
  }

  /** What `mktime` does to fields `f`: it leaves `g` and returns `t`. */
  predicate MkTimeGives(f: Fields, g: Fields, t: int) {
    if Accepted(f) then
      && Canonical(g) && Instant(g) == Instant(f) && 0 <= g.year <= MAXYEAR - MINYEAR
      && t == Instant(f) - EpochSeconds() + Uncounted(MINYEAR + g.year)
    else t == -1
  }

  /** What `gmtime` makes of `t` seconds. */
  predicate GmTimeGives(t: int, f: Fields) {
    && Instant(f) == EpochSeconds() + t
    && (t >= 0 ==> Canonical(f) && MINYEAR + f.year >= EPOCH)
    && (t < 0 ==> f.year == EPOCH - MINYEAR && f.mon == JAN && f.mday <= 1 && -60 < f.sec <= 0 && -60 < f.min <= 0 && -24 < f.hour <= 0)
  }

  lemma Counted(year: int)
    ensures year >= 70 ==> Uncounted(MINYEAR + year) == 0
  {
  }

  lemma GivenCivil(t: int, f: Fields)
    requires GmTimeGives(t, f) && 0 <= f.mon <= 11
    ensures CivilSeconds(f) == t && (t >= 0 ==> CivilFields(f))
  {
    hide CivilSeconds, CivilFields, Instant, Canonical, DayNumber;
    CivilTime(f);
  }

  lemma StepBefore(mon: int, year: int)
    requires mon >= 0
    ensures DaysBefore(mon + 1, year) == DaysBefore(mon, year) + MonthDays(mon, year)
  {
  }

  lemma NothingBefore(year: int)
    ensures DaysBefore(JAN, year) == 0
  {
  }

  lemma YearPositive(year: int)
    ensures DaysYear(year) >= 365
  {
  }

  lemma MonthPositive(mon: int, year: int)
    ensures MonthDays(mon, year) >= 28
  {
  }

  lemma YearsOrdered(a: int, b: int)
    requires a <= b
    ensures DayNumber(a) <= DayNumber(b)
  {
    if a < b {
      YearsRise(a, b);
    }
  }

  lemma SameInstant(a: Fields, b: Fields)
    requires 0 <= a.mon <= DEC && 0 <= b.mon <= DEC && Day(a.year, a.mon, a.mday) == Day(b.year, b.mon, b.mday)
    requires a.hour == b.hour && a.min == b.min && a.sec == b.sec
    ensures Instant(a) == Instant(b)
  {
    InstantOfCanonical(a);
    InstantOfCanonical(b);
  }

  lemma CanonicalMonth(tm: Fields)
    requires Canonical(tm)
    ensures 0 <= tm.mon <= DEC
  {
  }

  /** C's division by a positive number. */
  lemma Truncated(a: int, b: int)
    requires b > 0
    ensures a == b * Quot(a, b) + Rem(a, b)
    ensures a >= 0 ==> Quot(a, b) == Floor(a, b) >= 0 && Rem(a, b) == Mod(a, b)
    ensures a < 0 ==> -b < Rem(a, b) <= 0 && a <= Quot(a, b) <= 0
  {
    if a < 0 {
      DivBounds(-a, b);
      assert b * -(-a / b) == -(b * (-a / b));
    } else {
      DivBounds(a, b);
    }
  }

  /** The clock of `gmtime`. */
  lemma ClockOf(t: int)
    ensures var s := Rem(t, SECDAY);
            var m := Quot(s, 60);
            && t == SECDAY * Quot(t, SECDAY) + Quot(m, 60) * SECHOUR + Rem(m, 60) * SECMIN + Rem(s, 60)
            && (t >= 0 ==> 0 <= Rem(s, 60) < 60 && 0 <= Rem(m, 60) < 60 && 0 <= Quot(m, 60) < 24 && Quot(t, SECDAY) >= 0)
            && (t < 0 ==> -60 < Rem(s, 60) <= 0 && -60 < Rem(m, 60) <= 0 && -24 < Quot(m, 60) <= 0 && Quot(t, SECDAY) <= 0)
  {
    var s := Rem(t, SECDAY);
    var m := Quot(s, 60);
    Truncated(t, SECDAY);
    Truncated(s, 60);
    Truncated(m, 60);
    hide Quot, Rem, Floor;
  }

  lemma BrokenDown(t: int, day: int, f: Fields)
    requires t == SECDAY * day + f.hour * SECHOUR + f.min * SECMIN + f.sec && t >= 0 && day >= 0
    requires Clock(f) && Date(f.year, f.mon, f.mday) && f.isdst == 0 && f.yday >= 0 && MINYEAR + f.year >= EPOCH
    requires f.yday == DaysBefore(f.mon, MINYEAR + f.year) + f.mday - 1 && f.wday == Mod(day + 4, 7)
    requires DayNumber(MINYEAR + f.year) + f.yday == DayNumber(EPOCH) + day
    ensures GmTimeGives(t, f)
  {
    hide DayNumber, DaysBefore, Floor, Mod;
    InstantOfCanonical(f);
  }

  lemma Before1970(t: int, day: int, f: Fields)
    requires t == SECDAY * day + f.hour * SECHOUR + f.min * SECMIN + f.sec && t < 0 && day <= 0
    requires -60 < f.sec <= 0 && -60 < f.min <= 0 && -24 < f.hour <= 0
    requires MINYEAR + f.year == EPOCH && f.mon == JAN && f.mday == day + 1
    ensures GmTimeGives(t, f)
  {
    hide DayNumber, Floor, Mod;
    InstantOfCanonical(f);
  }

  /** The first second that `gmtime` puts after the last year of `mktime`. */
  function Limit(): int {
    (DayNumber(MAXYEAR + 1) - DayNumber(EPOCH)) * SECDAY
  }

  lemma NoCarry(v: int, n: int, max: int)
    requires 0 <= v < max
    ensures NormAccepts(v, n, max)
  {
    assert v + 0 * max == v;
  }

  /** A canonical time is accepted as it is, if its year is one of the calendar's. */
  lemma CanonicalAccepted(f: Fields)
    requires Canonical(f)
    ensures Carried(f) == f && (Accepted(f) <==> 0 <= f.year <= MAXYEAR - MINYEAR)
  {
    FloorSmall(f.sec, 60);
    FloorSmall(f.min, 60);
    FloorSmall(f.hour, 24);
    FloorSmall(f.mon, 12);
    NoCarry(f.sec, f.min, 60);
    NoCarry(f.min, f.hour, 60);
    NoCarry(f.hour, f.mday, 24);
    NoCarry(f.mon, f.year, 12);
    hide Floor, Mod, DayNumber, DaysBefore, MonthDays, NormAccepts;
    WithinYear(f.year, f.mon, f.mday);
    if 0 <= f.year <= MAXYEAR - MINYEAR {
      YearsOrdered(MINYEAR, MINYEAR + f.year);
      YearsOrdered(MINYEAR + f.year + 1, MAXYEAR + 1);
    }
  }

  /** A canonical time lies between the limits of its year. */
  lemma InstantWithinYear(f: Fields)
    requires Canonical(f)
    ensures DayNumber(MINYEAR + f.year) * SECDAY <= Instant(f) < DayNumber(MINYEAR + f.year + 1) * SECDAY
  {
    hide DayNumber, Day;
    WithinYear(f.year, f.mon, f.mday);
    InstantOfCanonical(f);
  }

  /** The year of a canonical time, against a year's limit. */
  lemma YearAgainst(f: Fields, year: int)
    requires Canonical(f)
    ensures MINYEAR + f.year < year <==> Instant(f) < DayNumber(year) * SECDAY
  {
    hide DayNumber, Instant, Canonical;
    InstantWithinYear(f);
    if MINYEAR + f.year < year {
      YearsOrdered(MINYEAR + f.year + 1, year);
    } else {
      YearsOrdered(year, MINYEAR + f.year);
    }
  }

  /** `mktime` gives the seconds since the epoch exactly for the years it counts. */
  lemma {:induction false} MkTimeExact(f: Fields, g: Fields, r: int)
    requires Accepted(f) && MkTimeGives(f, g, r)
    ensures r == Instant(f) - EpochSeconds() <==> Instant(f) >= EpochSeconds()
    ensures Instant(f) >= EpochSeconds() <==> MINYEAR + g.year >= EPOCH
  {
    hide DayNumber, Instant, Canonical, Accepted;
    YearAgainst(g, EPOCH);
    if MINYEAR + g.year < EPOCH {
      YearsRise(MINYEAR + g.year, EPOCH);
    }
  }

  /** From seconds to fields and back: the same seconds, exactly from the epoch to the end
      of the last year of the calendar. */
  lemma {:induction false} SecondsRoundTrip(t: int, f: Fields, g: Fields, r: int)
    requires GmTimeGives(t, f) && MkTimeGives(f, g, r)
    ensures r == t <==> 0 <= t < 253402300800
  {
    assert Limit() == 253402300800;
    hide DayNumber, Instant, Canonical, Accepted;
    if t >= 0 {
      CanonicalAccepted(f);
      YearAgainst(f, MAXYEAR + 1);
      if Accepted(f) {
        CanonicalUnique(f, g);
      }
    } else if Accepted(f) {
      MkTimeExact(f, g, r);
      YearAgainst(g, EPOCH);
    } else if t == -1 {
      SecondBeforeEpoch(f);
    }
  }

  /** The second before the epoch is accepted, so -1 is not what `mktime` returns for it. */
  lemma SecondBeforeEpoch(f: Fields)
    requires GmTimeGives(-1, f)
    ensures Accepted(f)
  {
    InstantOfCanonical(f);
    hide DayNumber;
    assert f.mday == 1 && f.hour == 0 && f.min == 0 && f.sec == -1;
    ModUnique(-1, 60, -1, 59);
    ModUnique(-1, 24, -1, 23);
    FloorSmall(0, 12);
    assert DayOf(f) == DayNumber(EPOCH) - 1;
    YearsRise(MINYEAR, EPOCH);
    YearsRise(EPOCH, MAXYEAR + 1);
  }

  /** From any accepted fields to seconds and back: the normalized fields, every one of
      them; and normalized fields come back as they were. */
  lemma {:induction false} FieldsRoundTrip(f: Fields, g: Fields, r: int, h: Fields)
    requires Accepted(f) && MkTimeGives(f, g, r) && MINYEAR + g.year >= EPOCH && GmTimeGives(r, h)
    ensures h == g && (Canonical(f) ==> h == f)
  {
    hide DayNumber, Instant, Canonical, Accepted;
    MkTimeExact(f, g, r);
    YearAgainst(g, EPOCH);
    CanonicalUnique(g, h);
    if Canonical(f) {
      CanonicalUnique(g, f);
    }
  }
}
