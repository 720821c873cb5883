/** The part of the JavaScript `Date` object that the schedule code relies on,
    over whole days: a date is the number of days since 1970-01-01, the
    proleptic Gregorian calendar gives its (year, month, day), and the day of
    the week is 0 for Sunday through 6 for Saturday, as `getDay` numbers it. */
module Calendar {

  /** A calendar date as `getFullYear`, `getMonth() + 1` and `getDate` give it. */
  datatype Civil = Civil(year: int, month: int, day: int)

  predicate ValidCivil(c: Civil) {
    1 <= c.month <= 12 && 1 <= c.day <= 31
  }

  /** Days since 1970-01-01 to a civil date. Days are counted from
      0000-03-01 so that the leap day closes each year, then split into
      400-year eras (146097 days), centuries (36524 days; the fourth one takes
      the era's extra day), four-year cycles (1461 days) and years (365 days;
      the fourth one takes the cycle's leap day). */
  function CivilFromDays(z: int): (c: Civil)
    ensures ValidCivil(c)
    ensures DaysFromCivil(c) == z
  {
    var shifted := z + 719468;
    var era := shifted / 146097;
    var parts := SplitDayOfEra(shifted % 146097);
    CivilOfParts(era, parts.0, parts.1, parts.2, parts.3)
  }

  /** A day of the era (0 to 146096) as century, four-year cycle, year of
      the cycle and day of the March-based year. */
  function SplitDayOfEra(doe: int): (parts: (int, int, int, int))
    requires 0 <= doe < 146097
    ensures 0 <= parts.0 <= 3 && 0 <= parts.1 <= 24 && 0 <= parts.2 <= 3 && 0 <= parts.3 <= 365
    ensures doe == 36524 * parts.0 + 1461 * parts.1 + 365 * parts.2 + parts.3
  {
    var cen := if doe / 36524 < 3 then doe / 36524 else 3;
    var r1 := doe - 36524 * cen;
    var quad := r1 / 1461;
    var r2 := r1 % 1461;
    var yy := if r2 / 365 < 3 then r2 / 365 else 3;
    (cen, quad, yy, r2 - 365 * yy)
  }

  /** The civil date of day `doy` of year `100 * cen + 4 * quad + yy` of an era. */
  function CivilOfParts(era: int, cen: int, quad: int, yy: int, doy: int): (c: Civil)
    requires 0 <= cen <= 3 && 0 <= quad <= 24 && 0 <= yy <= 3 && 0 <= doy <= 365
    ensures ValidCivil(c)
    ensures DaysFromCivil(c) == era * 146097 + 36524 * cen + 1461 * quad + 365 * yy + doy - 719468
  {
    var yoe := 100 * cen + 4 * quad + yy;
    var md := MonthAndDay(doy);
    var c := Civil(yoe + era * 400 + (if md.0 <= 2 then 1 else 0), md.0, md.1);
    YearOfEraParts(cen, quad, yy);
    EraOfYear(era, yoe);
    DaysFromCivilOf(c, era, yoe, doy);
    c
  }

  /** Month (1 to 12) and day of month of day `doy` of the March-based year;
      January and February belong to the next calendar year. */
  function MonthAndDay(doy: int): (md: (int, int))
    requires 0 <= doy <= 365
    ensures 1 <= md.0 <= 12 && 1 <= md.1 <= 31
    ensures (153 * MarchMonth(md.0) + 2) / 5 + md.1 - 1 == doy
  {
    MonthOfYear(doy);
    var mp := (5 * doy + 2) / 153;
    (if mp < 10 then mp + 3 else mp - 9, doy - (153 * mp + 2) / 5 + 1)
  }

  /** Months counted from March: March is 0, February is 11. */
  function MarchMonth(m: int): int {
    if m > 2 then m - 3 else m + 9
  }

  lemma DaysFromCivilOf(c: Civil, era: int, yoe: int, doy: int)
    requires ValidCivil(c) && 0 <= yoe < 400
    requires c.year - (if c.month <= 2 then 1 else 0) == yoe + era * 400
    requires (yoe + era * 400) / 400 == era
    requires (153 * MarchMonth(c.month) + 2) / 5 + c.day - 1 == doy
    ensures DaysFromCivil(c) == era * 146097 + yoe * 365 + yoe / 4 - yoe / 100 + doy - 719468
  {
  }

  /** A day of the March-based year falls in month `mp` (0 = March) on a day
      of at most 31. */
  lemma MonthOfYear(doy: int)
    requires 0 <= doy <= 365
    ensures var mp := (5 * doy + 2) / 153;
            0 <= mp <= 11 && 1 <= doy - (153 * mp + 2) / 5 + 1 <= 31
  {
  }

  /** The leap-year corrections of a year of the era split into its century,
      four-year cycle and year. */
  lemma YearOfEraParts(cen: int, quad: int, yy: int)
    requires 0 <= cen <= 3 && 0 <= quad <= 24 && 0 <= yy <= 3
    ensures (100 * cen + 4 * quad + yy) / 4 == 25 * cen + quad
    ensures (100 * cen + 4 * quad + yy) / 100 == cen
  {
  }

  lemma EraOfYear(era: int, yoe: int)
    requires 0 <= yoe < 400
    ensures (yoe + era * 400) / 400 == era
  {
  }

  /** The inverse of `CivilFromDays`. */
  function DaysFromCivil(c: Civil): int
    requires ValidCivil(c)
  {
    var y := c.year - (if c.month <= 2 then 1 else 0);
    var era := y / 400;
    var yoe := y - era * 400;
    var doy := (153 * MarchMonth(c.month) + 2) / 5 + c.day - 1;
    var doe := yoe * 365 + yoe / 4 - yoe / 100 + doy;
    era * 146097 + doe - 719468
  }

  /** `getDay`: 1970-01-01 was a Thursday. */
  function Weekday(z: int): (w: int)
    ensures 0 <= w < 7
  {
    (z + 4) % 7
  }

  /** `k` days later is `k` places further round the week. */
  lemma WeekdayShift(z: int, k: int)
    requires k >= 0
    ensures Weekday(z + k) == (Weekday(z) + k) % 7
  {
    var q := (z + 4) / 7;
    var w := Weekday(z);
    assert z + 4 == 7 * q + w;
    ModAfterMultiple(q, w + k);
    assert z + k + 4 == 7 * q + (w + k);
  }

  lemma ModAfterMultiple(q: int, x: int)
    ensures (7 * q + x) % 7 == x % 7
  {
    var y := 7 * q + x;
    assert y == 7 * (q + x / 7) + x % 7;
  }

  /** Day 0 is Thursday 1 January 1970. */
  lemma EpochIsThursday()
    ensures CivilFromDays(0) == Civil(1970, 1, 1) && Weekday(0) == 4
  {
    assert SplitDayOfEra(135080) == (3, 17, 1, 306);
    assert MonthAndDay(306) == (1, 1);
  }

  /** The day before the epoch is the last day of 1969. */
  lemma DayBeforeEpoch()
    ensures CivilFromDays(-1) == Civil(1969, 12, 31)
  {
    assert -1 + 719468 == 719467 && 719467 / 146097 == 4 && 719467 % 146097 == 135079;
    assert SplitDayOfEra(135079) == (3, 17, 1, 305);
    assert MonthAndDay(305) == (12, 31);
    assert CivilOfParts(4, 3, 17, 1, 305) == Civil(1969, 12, 31);
    assert CivilFromDays(-1) == CivilOfParts(4, 3, 17, 1, 305);
  }

  /** 2000 is a leap year though a multiple of 100, being one of 400. */
  lemma LeapDay2000()
    ensures CivilFromDays(11016) == Civil(2000, 2, 29)
  {
    assert 11016 + 719468 == 730484 && 730484 / 146097 == 4 && 730484 % 146097 == 146096;
    assert SplitDayOfEra(146096) == (3, 24, 3, 365);
    assert MonthAndDay(365) == (2, 29);
    assert CivilOfParts(4, 3, 24, 3, 365) == Civil(2000, 2, 29);
    assert CivilFromDays(11016) == CivilOfParts(4, 3, 24, 3, 365);
  }

  /** 1 January 2024 is a Monday. */
  lemma NewYear2024()
    ensures CivilFromDays(19723) == Civil(2024, 1, 1) && Weekday(19723) == 1
  {
    assert 19723 + 719468 == 739191 && 739191 / 146097 == 5 && 739191 % 146097 == 8706;
    assert SplitDayOfEra(8706) == (0, 5, 3, 306);
    assert MonthAndDay(306) == (1, 1);
    assert CivilOfParts(5, 0, 5, 3, 306) == Civil(2024, 1, 1);
    assert CivilFromDays(19723) == CivilOfParts(5, 0, 5, 3, 306);
  }

  /** 2024 is a leap year: its day 59 is 29 February. */
  lemma LeapDay2024()
    ensures CivilFromDays(19782) == Civil(2024, 2, 29)
  {
    assert 19782 + 719468 == 739250 && 739250 / 146097 == 5 && 739250 % 146097 == 8765;
    assert SplitDayOfEra(8765) == (0, 5, 3, 365);
    assert MonthAndDay(365) == (2, 29);
    assert CivilOfParts(5, 0, 5, 3, 365) == Civil(2024, 2, 29);
    assert CivilFromDays(19782) == CivilOfParts(5, 0, 5, 3, 365);
  }
}
