/** The Gregorian calendar: days counted one year at a time and by closed forms, and when
    the fields of a broken-down time are the canonical ones of an instant. */
module Calendar {
  import opened Bits

  const SECMIN: int := 60
  const SECHOUR: int := 3600
  const SECDAY: int := 86400
  const EPOCH: int := 1970
  const MINYEAR: int := 1900
  const MAXYEAR: int := 9999
  const JAN: int := 0
  const FEB: int := 1
  const DEC: int := 11

  /** A broken-down time. */
  datatype Fields = Fields(sec: int, min: int, hour: int, mday: int, mon: int, year: int, yday: int, wday: int, isdst: int)

  function DaysYear(year: int): int {
    if year % 4 != 0 then 365 else if year % 100 == 0 && year % 400 != 0 then 365 else 366
  }

  function FebDays(year: int): int {
    if DaysYear(year) == 366 then 29 else 28
  }

  function MonthDays(mon: int, year: int): int {
    if mon == FEB then FebDays(year) else if mon in {3, 5, 8, 10} then 30 else 31
  }

  /** Days of a year before one of its months. */
  function DaysBefore(mon: int, year: int): int {
    if mon <= 0 then 0 else DaysBefore(mon - 1, year) + MonthDays(mon - 1, year)
  }

  /** Days before the first of January of a year, in closed form. */
  function DayNumber(year: int): int {
    365 * year + (year - 1) / 4 - (year - 1) / 100 + (year - 1) / 400
  }

  /** The seconds that a broken-down time denotes, its fields in any range. */
  function Instant(tm: Fields): int {
    Day(tm.year + Floor(tm.mon, 12), Mod(tm.mon, 12), tm.mday) * SECDAY + tm.hour * SECHOUR + tm.min * SECMIN + tm.sec
  }

  /** Days before a date, `year` counted from 1900. */
  function Day(year: int, mon: int, mday: int): int {
    DayNumber(MINYEAR + year) + DaysBefore(mon, MINYEAR + year) + mday - 1
  }

  function EpochSeconds(): int {
    DayNumber(EPOCH) * SECDAY
  }

  /** January 1, 1970, was a Thursday. */
  function Weekday(day: int): int {
    Mod(day - DayNumber(EPOCH) + 4, 7)
  }

  /** The closed form for the weekday of the first of January, `year` counted from 1900. */
  function NewYear(year: int): int
    requires year >= 0
  {
    var y := year + 1899;
    (1 + y + y / 4 - y / 100 + y / 400) % 7
  }

  predicate Date(year: int, mon: int, mday: int) {
    0 <= mon <= DEC && 1 <= mday <= MonthDays(mon, MINYEAR + year)
  }

  predicate Clock(tm: Fields) {
    0 <= tm.sec < 60 && 0 <= tm.min < 60 && 0 <= tm.hour < 24
  }

  /** Every field in its canonical range, the derived ones right. */
  predicate Canonical(tm: Fields) {
    && Clock(tm) && Date(tm.year, tm.mon, tm.mday)
    && tm.yday == DaysBefore(tm.mon, MINYEAR + tm.year) + tm.mday - 1
    && tm.wday == Weekday(Day(tm.year, tm.mon, tm.mday))
    && tm.isdst == 0
  }

  /** A year's length is what the closed form grows by. */
  lemma {:induction false} YearLength(year: int)
    ensures DayNumber(year + 1) - DayNumber(year) == DaysYear(year)
  {
    DivisionSteps(year, 4);
    DivisionSteps(year, 100);
    DivisionSteps(year, 400);
    MultiplesOf(year);
  }

  lemma DivisionSteps(y: int, m: int)
    requires m > 0
    ensures y / m - (y - 1) / m == if y % m == 0 then 1 else 0
  {
    var q, r := y / m, y % m;
    assert y == m * q + r;
    if r == 0 {
      assert y - 1 == m * (q - 1) + (m - 1);
      ModUnique(y - 1, m, q - 1, m - 1);
    } else {
      ModUnique(y - 1, m, q, r - 1);
    }
  }

  lemma MultiplesOf(y: int)
    ensures y % 400 == 0 ==> y % 100 == 0
    ensures y % 100 == 0 ==> y % 4 == 0
  {
  }

  lemma {:induction false} DaysBeforeYear(year: int)
    ensures DaysBefore(12, year) == DaysYear(year)
  {
    assert DaysBefore(1, year) == 31;
    assert DaysBefore(2, year) == 31 + FebDays(year);
    assert DaysBefore(4, year) == DaysBefore(2, year) + 31 + 30;
    assert DaysBefore(6, year) == DaysBefore(4, year) + 31 + 30;
    assert DaysBefore(8, year) == DaysBefore(6, year) + 31 + 31;
    assert DaysBefore(10, year) == DaysBefore(8, year) + 30 + 31;
    assert DaysBefore(12, year) == DaysBefore(10, year) + 30 + 31;
  }

  lemma {:induction false} YearsRise(a: int, b: int)
    requires a < b
    ensures DayNumber(a) + 365 <= DayNumber(b)
    decreases b - a
  {
    YearLength(b - 1);
    if a < b - 1 {
      YearsRise(a, b - 1);
    }
  }

  lemma {:induction false} MonthsRise(a: int, b: int, year: int)
    requires 0 <= a < b
    ensures DaysBefore(a, year) + MonthDays(a, year) <= DaysBefore(b, year)
    decreases b - a
  {
    if a < b - 1 {
      MonthsRise(a, b - 1, year);
    }
  }

  /** The weekday of New Year's Day by `_newyear` is the one counted from the epoch. */
  lemma {:induction false} NewYearWeekday(year: int)
    requires year >= 0
    ensures NewYear(year) == Weekday(DayNumber(MINYEAR + year))
  {
    var y := year + 1899;
    var n := 1 + y + y / 4 - y / 100 + y / 400;
    assert DayNumber(MINYEAR + year) - DayNumber(EPOCH) + 4 == n + 7 * (52 * (y + 1) - 102789) by {
      assert DayNumber(EPOCH) == 719527;
    }
    ModPlus(n, 7, 52 * (y + 1) - 102789);
  }

  /** Adding the day of the year to it gives the weekday of any date. */
  lemma WeekdayOf(year: int, yday: int)
    requires year >= 0 && yday >= 0
    ensures (NewYear(year) + yday) % 7 == Weekday(DayNumber(MINYEAR + year) + yday)
  {
    NewYearWeekday(year);
    ModAdd(DayNumber(MINYEAR + year) - DayNumber(EPOCH) + 4, yday, 7);
  }

  /** A date is known by its day. */
  lemma DateUnique(y1: int, m1: int, d1: int, y2: int, m2: int, d2: int)
    requires Date(y1, m1, d1) && Date(y2, m2, d2) && Day(y1, m1, d1) == Day(y2, m2, d2)
    ensures y1 == y2 && m1 == m2 && d1 == d2
  {
    hide DayNumber, MonthDays, DaysBefore;
    WithinYear(y1, m1, d1);
    WithinYear(y2, m2, d2);
    if y1 < y2 {
      YearsFrom(y1, y2);
    } else if y2 < y1 {
      YearsFrom(y2, y1);
    } else if m1 < m2 {
      MonthsRise(m1, m2, MINYEAR + y1);
    } else if m2 < m1 {
      MonthsRise(m2, m1, MINYEAR + y1);
    }
  }

  lemma WithinYear(year: int, mon: int, mday: int)
    requires Date(year, mon, mday)
    ensures DayNumber(MINYEAR + year) <= Day(year, mon, mday) < DayNumber(MINYEAR + year + 1)
  {
    hide DayNumber, MonthDays, DaysBefore;
    YearLength(MINYEAR + year);
    DaysBeforeYear(MINYEAR + year);
    MonthsRise(mon, 12, MINYEAR + year);
    BeforeNonNegative(mon, MINYEAR + year);
  }

  lemma {:induction false} BeforeNonNegative(mon: int, year: int)
    ensures DaysBefore(mon, year) >= 0
    decreases if mon < 0 then 0 else mon
  {
    if mon > 0 {
      BeforeNonNegative(mon - 1, year);
    }
  }

  lemma YearsFrom(a: int, b: int)
    requires a < b
    ensures DayNumber(MINYEAR + a + 1) <= DayNumber(MINYEAR + b)
  {
    if a + 1 < b {
      YearsRise(MINYEAR + a + 1, MINYEAR + b);
    }
  }

  /** Canonical fields are known by their instant. */
  lemma {:induction false} CanonicalUnique(a: Fields, b: Fields)
    requires Canonical(a) && Canonical(b) && Instant(a) == Instant(b)
    ensures a == b
  {
    InstantOfCanonical(a);
    InstantOfCanonical(b);
    hide Instant, Day, DaysBefore, Date;
    SecondsUnique(Day(a.year, a.mon, a.mday), a, Day(b.year, b.mon, b.mday), b);
    DateUnique(a.year, a.mon, a.mday, b.year, b.mon, b.mday);
  }

  lemma InstantOfCanonical(tm: Fields)
    requires 0 <= tm.mon <= DEC
    ensures Instant(tm) == Day(tm.year, tm.mon, tm.mday) * SECDAY + tm.hour * SECHOUR + tm.min * SECMIN + tm.sec
  {
    ModUnique(tm.mon, 12, 0, tm.mon);
  }

  lemma SecondsUnique(x: int, a: Fields, y: int, b: Fields)
    requires Clock(a) && Clock(b)
    requires x * SECDAY + a.hour * SECHOUR + a.min * SECMIN + a.sec == y * SECDAY + b.hour * SECHOUR + b.min * SECMIN + b.sec
    ensures x == y && a.hour == b.hour && a.min == b.min && a.sec == b.sec
  {
  }

  // Carrying the clock and the months

  const INT_MAX: int := 0x7fff_ffff
  const INT_MIN: int := -0x8000_0000

  /** When `norm` carries from a field with `max` values into the next one: its tests
      compare with the wrong end of the range. */
  predicate NormAccepts(v: int, n: int, max: int)
    requires max > 0
  {
    var d := if v < 0 then -v / max + 1 else 0;
    var v1, n1 := v + d * max, n - d;
    (v < 0 ==> n <= INT_MAX - d) && (v1 >= max ==> n1 >= INT_MIN + v1 / max)
  }

  /** The fields after their carries. */
  function Carried(tm: Fields): Fields {
    var min, hour := tm.min + Floor(tm.sec, 60), tm.hour + Floor(tm.min + Floor(tm.sec, 60), 60);
    tm.(sec := Mod(tm.sec, 60), min := Mod(min, 60), hour := Mod(hour, 24), mday := tm.mday + Floor(hour, 24),
        mon := Mod(tm.mon, 12), year := tm.year + Floor(tm.mon, 12))
  }

  predicate CarriesAccepted(tm: Fields) {
    && NormAccepts(tm.sec, tm.min, 60)
    && NormAccepts(tm.min + Floor(tm.sec, 60), tm.hour, 60)
    && NormAccepts(tm.hour + Floor(tm.min + Floor(tm.sec, 60), 60), tm.mday, 24)
    && NormAccepts(tm.mon, tm.year, 12)
  }

  /** The day on which a broken-down time falls. */
  function DayOf(tm: Fields): int {
    var c := Carried(tm);
    Day(c.year, c.mon, c.mday)
  }

  /** The times that `normalize` accepts: the carries are, the year after them is one of
      the calendar's, and so is the day. */
  predicate Accepted(tm: Fields) {
    && CarriesAccepted(tm)
    && 0 <= Carried(tm).year <= MAXYEAR - MINYEAR
    && DayNumber(MINYEAR) <= DayOf(tm) < DayNumber(MAXYEAR + 1)
  }

  lemma FloorMod(x: int, m: nat)
    requires m > 0
    ensures x == Floor(x, m) * m + Mod(x, m) && 0 <= Mod(x, m) < m
  {
  }

  lemma FloorSmall(x: int, m: nat)
    requires 0 <= x < m
    ensures Floor(x, m) == 0 && Mod(x, m) == x
  {
    ModUnique(x, m, 0, x);
  }

  /** Carries keep the instant, and put it on the day of its date. */
  lemma {:induction false} CarriedKeeps(tm: Fields)
    ensures Instant(Carried(tm)) == Instant(tm) && Clock(Carried(tm)) && 0 <= Carried(tm).mon <= DEC
    ensures Floor(Instant(tm), SECDAY) == DayOf(tm)
  {
    var c := Carried(tm);
    FloorMod(tm.sec, 60);
    FloorMod(tm.min + Floor(tm.sec, 60), 60);
    FloorMod(tm.hour + Floor(tm.min + Floor(tm.sec, 60), 60), 24);
    FloorMod(tm.mon, 12);
    FloorSmall(c.mon, 12);
    hide Floor, Mod, DaysBefore, DayNumber;
    var s := c.hour * SECHOUR + c.min * SECMIN + c.sec;
    assert Instant(c) == SECDAY * DayOf(tm) + s;
    DaySeconds(DayOf(tm), s);
  }

  lemma DaySeconds(day: int, s: int)
    requires 0 <= s < SECDAY
    ensures Floor(SECDAY * day + s, SECDAY) == day
  {
    ModUnique(SECDAY * day + s, SECDAY, day, s);
  }

  /** For a carry of magnitude `d` the tests of `norm` tell whether the next field stays in
      range exactly where both ends are at least `d` away.  Exact multiples below zero are
      carried one too far and back, so that they need more room. */
  lemma {:induction false} NormExact(v: int, n: int, max: int)
    requires 1 < max && -0x8000_0000 < v <= 0x7fff_ffff && -0x8000_0000 <= n <= 0x7fff_ffff
    ensures var carry := Floor(v, max);
            var d := if carry < 0 then -carry else carry;
            (NormAccepts(v, n, max) <==> -0x8000_0000 <= n + carry <= 0x7fff_ffff)
            <==> if v < 0 && Mod(v, max) == 0 then -0x8000_0000 + d + 2 <= n <= 0x7fff_ffff - d - 1 || n < -0x8000_0000 + d
                 else -0x8000_0000 + d <= n <= 0x7fff_ffff - d
  {
    hide NormAccepts, Floor, Mod;
    if v >= 0 {
      AcceptsAbove(v, n, max);
    } else if Mod(v, max) == 0 {
      AcceptsMultiple(v, n, max);
    } else {
      AcceptsBelow(v, n, max);
    }
  }

  lemma AcceptsMultiple(v: int, n: int, max: int)
    requires v < 0 && max > 1 && Mod(v, max) == 0
    ensures NormAccepts(v, n, max) <==> INT_MIN + 2 - Floor(v, max) <= n <= INT_MAX - 1 + Floor(v, max)
    ensures v / 2 - 1 <= Floor(v, max) < 0
  {
    var k := -Floor(v, max);
    FloorMod(v, max);
    assert -v == max * k;
    ModUnique(-v, max, k, 0);
    HalfBound(-v, max);
    assert v + (k + 1) * max == max;
    assert max / max == 1;
  }

  lemma AcceptsBelow(v: int, n: int, max: int)
    requires v < 0 && max > 1 && Mod(v, max) != 0
    ensures NormAccepts(v, n, max) <==> n <= INT_MAX + Floor(v, max)
    ensures v / 2 - 1 <= Floor(v, max) < 0
  {
    CarryBelow(v, max);
    FloorMod(v, max);
  }

  lemma AcceptsAbove(v: int, n: int, max: int)
    requires v >= 0 && max > 1 && n >= INT_MIN
    ensures NormAccepts(v, n, max) <==> n >= INT_MIN + Floor(v, max)
    ensures 0 <= Floor(v, max) <= v / 2
  {
    HalfBound(v, max);
    if v < max {
      FloorSmall(v, max);
    }
    assert v + 0 * max == v;
  }

  lemma CarryBelow(v: int, max: int)
    requires v < 0 && max > 1 && Mod(v, max) != 0
    ensures -v / max + 1 == -Floor(v, max) && 0 <= v + (-v / max + 1) * max < max
    ensures -v / max <= -v / 2
  {
    var q, r := v / max, v % max;
    assert v == max * q + r;
    assert max * (-q - 1) == -(max * q) - max;
    ModUnique(-v, max, -q - 1, max - r);
    DivBounds(-v, max);
    assert (-q) * max == -(max * q);
    HalfBound(-v, max);
  }

  lemma HalfBound(a: nat, m: nat)
    requires m >= 2
    ensures a / m <= a / 2
  {
    var q := a / m;
    assert m * q <= a by {
      assert a == m * q + a % m;
    }
    assert m * q == 2 * q + (m - 2) * q;
    assert (m - 2) * q >= 0;
  }
}
