/**
 The proleptic Gregorian calendar to the minute, and time zones over it. A civil
 minute is counted from the start of the year 1; months are counted from the
 start of the year 0, so that month 13 of a year is month 1 of the next.
 */
module Calendar {

  datatype Civil = Civil(year: int, month: int, day: int, hour: int, minute: int)

  predicate Leap(y: int)
  {
    y % 4 == 0 && (y % 100 != 0 || y % 400 == 0)
  }

  function DaysIn(y: int, m: int): (n: int)
    ensures 28 <= n <= 31
  {
    if m == 2 then (if Leap(y) then 29 else 28)
    else if m in {4, 6, 9, 11} then 30 else 31
  }

  predicate Valid(c: Civil)
  {
    1 <= c.month <= 12 && 1 <= c.day <= DaysIn(c.year, c.month) && 0 <= c.hour < 24 && 0 <= c.minute < 60
  }

  function DaysBeforeYear(y: int): int
  {
    365 * (y - 1) + (y - 1) / 4 - (y - 1) / 100 + (y - 1) / 400
  }

  function DaysBeforeMonth(y: int, m: int): int
    decreases m
  {
    if m <= 1 then 0 else DaysBeforeMonth(y, m - 1) + DaysIn(y, m - 1)
  }

  /** The day number of the first of month `k`. */
  function MonthStart(k: int): int
  {
    DaysBeforeYear(k / 12) + DaysBeforeMonth(k / 12, k % 12 + 1)
  }

  /** `time.Date`'s civil minute: fields past their range carry into the next one up. */
  function DateMinutes(y: int, m: int, d: int, h: int, mi: int): int
  {
    (MonthStart(12 * y + m - 1) + d - 1) * 1440 + h * 60 + mi
  }

  function Minutes(c: Civil): int
  {
    DateMinutes(c.year, c.month, c.day, c.hour, c.minute)
  }

  /** 0 is Sunday; 1 January of the year 1 was a Monday. */
  function Weekday(minutes: int): (d: int)
    ensures 0 <= d < 7
  {
    (minutes / 1440 + 1) % 7
  }

  lemma YearLength(y: int)
    ensures DaysBeforeYear(y + 1) == DaysBeforeYear(y) + if Leap(y) then 366 else 365
  {
    QuotientStep(y, 4);
    QuotientStep(y, 100);
    QuotientStep(y, 400);
    Centuries(y);
  }

  /** A year that 400 divides is divided by 100, and one that 100 divides by 4. */
  lemma Centuries(y: int)
    ensures y % 400 == 0 ==> y % 100 == 0
    ensures y % 100 == 0 ==> y % 4 == 0
  {}

  lemma QuotientStep(y: int, n: int)
    requires n in {4, 100, 400}
    ensures y / n == (y - 1) / n + if y % n == 0 then 1 else 0
  {}

  lemma MonthSums(y: int)
    ensures DaysBeforeMonth(y, 12) == if Leap(y) then 335 else 334
  {
    assert DaysBeforeMonth(y, 4) == if Leap(y) then 91 else 90 by {
      assert DaysBeforeMonth(y, 2) == 31;
      assert DaysBeforeMonth(y, 3) == 31 + DaysIn(y, 2);
    }
    assert DaysBeforeMonth(y, 7) == DaysBeforeMonth(y, 4) + 91 by {
      assert DaysBeforeMonth(y, 5) == DaysBeforeMonth(y, 4) + 30;
      assert DaysBeforeMonth(y, 6) == DaysBeforeMonth(y, 5) + 31;
    }
    assert DaysBeforeMonth(y, 10) == DaysBeforeMonth(y, 7) + 92 by {
      assert DaysBeforeMonth(y, 8) == DaysBeforeMonth(y, 7) + 31;
      assert DaysBeforeMonth(y, 9) == DaysBeforeMonth(y, 8) + 31;
    }
    assert DaysBeforeMonth(y, 11) == DaysBeforeMonth(y, 10) + 31;
  }

  /** Months follow one another without gap or overlap, across years too. */
  lemma MonthLength(k: int)
    ensures MonthStart(k + 1) == MonthStart(k) + DaysIn(k / 12, k % 12 + 1)
  {
    if k % 12 == 11 {
      assert (k + 1) / 12 == k / 12 + 1 && (k + 1) % 12 == 0;
      YearLength(k / 12);
      MonthSums(k / 12);
    } else {
      assert (k + 1) / 12 == k / 12 && (k + 1) % 12 == k % 12 + 1;
    }
  }

  lemma {:induction false} MonthOrder(j: int, k: int)
    requires j <= k
    ensures MonthStart(j) + 28 * (k - j) <= MonthStart(k)
    decreases k - j
  {
    if j < k {
      MonthOrder(j, k - 1);
      MonthLength(k - 1);
    }
  }

  /** The month day `n` lies in, searched for from month `k`. */
  function MonthFrom(n: int, k: int): (r: int)
    requires MonthStart(k) <= n
    ensures MonthStart(r) <= n < MonthStart(r + 1)
    decreases n - MonthStart(k)
  {
    hide MonthStart;
    MonthGrows(k);
    if n < MonthStart(k + 1) then k else MonthFrom(n, k + 1)
  }

  lemma MonthGrows(k: int)
    ensures MonthStart(k) < MonthStart(k + 1)
  {
    hide MonthStart;
    MonthLength(k);
  }

  /** The calendar's first month starts on day 0. */
  lemma FirstMonth()
    ensures MonthStart(12) == 0
  {}

  function MonthOf(n: int): (r: int)
    ensures MonthStart(r) <= n < MonthStart(r + 1)
  {
    FirstMonth();
    MonthFrom(n, if n >= 0 then 12 else FarBack(n))
  }

  /** A month long enough before day `n`. */
  function FarBack(n: int): (k: int)
    requires n < 0
    ensures MonthStart(k) <= n
  {
    assert DaysBeforeMonth(1 + n, 1) == 0;
    assert (12 * (1 + n)) / 12 == 1 + n && (12 * (1 + n)) % 12 == 0;
    12 * (1 + n)
  }

  lemma MonthFields(k: int, y: int, m: int)
    requires y == k / 12 && m == k % 12 + 1
    ensures 1 <= m <= 12 && 12 * y + m - 1 == k
    ensures MonthStart(k + 1) == MonthStart(k) + DaysIn(y, m)
  {
    MonthLength(k);
  }

  lemma CivilFields(minutes: int, k: int, c: Civil)
    requires MonthStart(k) <= minutes / 1440 < MonthStart(k + 1)
    requires c == Civil(k / 12, k % 12 + 1, minutes / 1440 - MonthStart(k) + 1, minutes % 1440 / 60, minutes % 1440 % 60)
    ensures Valid(c) && Minutes(c) == minutes
  {
    hide MonthStart, DaysIn;
    MonthFields(k, k / 12, k % 12 + 1);
  }

  /** The civil time of a civil minute. */
  function CivilOf(minutes: int): (c: Civil)
    ensures Valid(c) && Minutes(c) == minutes
  {
    hide MonthStart, DaysIn, Valid, Minutes;
    var n, rest := minutes / 1440, minutes % 1440;
    var k := MonthOf(n);
    var c := Civil(k / 12, k % 12 + 1, n - MonthStart(k) + 1, rest / 60, rest % 60);
    CivilFields(minutes, k, c);
    c
  }

  /** The month a civil time lies in. */
  function Month(c: Civil): int
  {
    12 * c.year + c.month - 1
  }

  lemma DayOf(c: Civil)
    requires Valid(c)
    ensures var k := Month(c); var n := MonthStart(k) + c.day - 1;
            && c.year == k / 12 && c.month == k % 12 + 1
            && Minutes(c) == n * 1440 + c.hour * 60 + c.minute && Minutes(c) / 1440 == n
            && MonthStart(k) <= n < MonthStart(k + 1) == MonthStart(k) + DaysIn(c.year, c.month)
  {
    hide MonthStart, DaysIn;
    assert Month(c) / 12 == c.year && Month(c) % 12 == c.month - 1;
    MonthLength(Month(c));
  }

  /** Later minutes lie in later months, or the same. */
  lemma MonthsInOrder(c: Civil, d: Civil)
    requires Valid(c) && Valid(d) && Minutes(c) <= Minutes(d)
    ensures Month(c) <= Month(d)
  {
    hide MonthStart, DaysIn, DateMinutes;
    DayOf(c);
    DayOf(d);
    if Month(d) < Month(c) { MonthOrder(Month(d) + 1, Month(c)); }
  }

  /** A civil minute has one civil time. */
  lemma CivilUnique(c: Civil)
    requires Valid(c)
    ensures CivilOf(Minutes(c)) == c
  {
    hide MonthStart, DaysIn, DateMinutes, CivilOf;
    var d := CivilOf(Minutes(c));
    MonthsInOrder(c, d);
    MonthsInOrder(d, c);
    DayOf(c);
    DayOf(d);
  }

  lemma NextMonth(c: Civil)
    ensures DateMinutes(c.year, c.month + 1, 1, 0, 0) == MonthStart(Month(c) + 1) * 1440
  {
    assert 12 * c.year + (c.month + 1) - 1 == Month(c) + 1;
  }

  /** Through the rest of a month, its year and month stay. */
  lemma SameMonth(m: int, m': int)
    requires var c := CivilOf(m); m <= m' < DateMinutes(c.year, c.month + 1, 1, 0, 0)
    ensures CivilOf(m').year == CivilOf(m).year && CivilOf(m').month == CivilOf(m).month
  {
    hide MonthStart, DaysIn, CivilOf, Minutes;
    var c, d := CivilOf(m), CivilOf(m');
    MonthsInOrder(c, d);
    NextMonth(c);
    DayOf(c);
    DayOf(d);
    if Month(c) < Month(d) { MonthOrder(Month(c) + 1, Month(d)); }
  }

  /** Through the rest of a day, its date and weekday stay. */
  lemma SameDay(m: int, m': int)
    requires var c := CivilOf(m); m <= m' < DateMinutes(c.year, c.month, c.day + 1, 0, 0)
    ensures var c, d := CivilOf(m), CivilOf(m');
            d.year == c.year && d.month == c.month && d.day == c.day && Weekday(m') == Weekday(m)
  {
    hide MonthStart, DaysIn, CivilOf;
    var c, d := CivilOf(m), CivilOf(m');
    DayOf(c);
    DayOf(d);
    NextMonth(c);
    SameMonth(m, m');
  }

  /** Through the rest of an hour, all but the minute stays. */
  lemma SameHour(m: int, m': int)
    requires var c := CivilOf(m); m <= m' < DateMinutes(c.year, c.month, c.day, c.hour + 1, 0)
    ensures var c, d := CivilOf(m), CivilOf(m');
            d == c.(minute := d.minute) && Weekday(m') == Weekday(m)
  {
    hide MonthStart, DaysIn, CivilOf;
    SameDay(m, m');
  }

  /** Every jump the search takes is a jump forward. */
  lemma JumpsAhead(m: int)
    ensures var c := CivilOf(m);
            && m < DateMinutes(c.year, c.month + 1, 1, 0, 0)
            && m < DateMinutes(c.year, c.month, c.day + 1, 0, 0)
            && m < DateMinutes(c.year, c.month, c.day, c.hour + 1, 0)
            && m < DateMinutes(c.year, c.month, c.day, c.hour, c.minute + 1) == m + 1
  {
    hide MonthStart, DaysIn, CivilOf;
    var c := CivilOf(m);
    DayOf(c);
    NextMonth(c);
  }

  /** Years pass in order. */
  lemma YearOrder(m: int, m': int)
    requires m <= m'
    ensures CivilOf(m).year <= CivilOf(m').year
  {
    hide MonthStart, DaysIn, CivilOf;
    MonthsInOrder(CivilOf(m), CivilOf(m'));
  }

  lemma KnownMonths()
    ensures MonthStart(23640) == 719162 && MonthStart(24001) == 730150
  {
    assert DaysBeforeMonth(1970, 1) == 0 && DaysBeforeMonth(2000, 2) == 31;
    assert 23640 / 12 == 1970 && 23640 % 12 == 0 && 24001 / 12 == 2000 && 24001 % 12 == 1;
  }

  /** 1 January 1970 was a Thursday, and 29 February 2000 a Tuesday; 1900 had no 29 February. */
  lemma KnownDates()
    ensures Minutes(Civil(1970, 1, 1, 0, 0)) == 719162 * 1440 && Weekday(719162 * 1440) == 4
    ensures Minutes(Civil(2000, 2, 29, 0, 0)) == 730178 * 1440 && Weekday(730178 * 1440) == 2
    ensures Valid(Civil(2000, 2, 29, 0, 0)) && !Valid(Civil(1900, 2, 29, 0, 0))
  {
    hide MonthStart;
    KnownMonths();
  }

  // ------------------------------------------------------------------ zones

  /**
   A zone, in seconds: how far its clocks are ahead at an instant, and the
   instant it names for a clock reading.
   */
  datatype Zone = Zone(offset: int -> int, resolve: int -> int)

  /** The civil minute clocks show at instant `t`. */
  function LocalMinute(z: Zone, t: int): int
  {
    (t + z.offset(t)) / 60
  }

  function Local(z: Zone, t: int): Civil
  {
    CivilOf(LocalMinute(z, t))
  }

  /** `time.Date`. */
  function Date(z: Zone, y: int, m: int, d: int, h: int, mi: int): int
  {
    z.resolve(DateMinutes(y, m, d, h, mi) * 60)
  }

  /** No clock is ever more than `most` seconds from the reference. */
  ghost predicate Bounded(z: Zone, most: nat)
  {
    forall t :: 0 - most <= z.offset(t) <= most
  }

  /** Clocks that never change. */
  ghost predicate Fixed(z: Zone, ahead: int)
  {
    && (forall t :: z.offset(t) == ahead)
    && (forall l :: z.resolve(l) == l - ahead)
  }
}
