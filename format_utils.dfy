/** `dateUtils` and `hatimUtils`: how a date is written in the tables, the days
    of a schedule's date range, and which pages each participant reads on
    which day. */
module FormatUtils {
  import opened Wrappers
  import opened Strings
  import Calendar

  /** One reader of a schedule. `pages` is None when the field is undefined;
      page counts are whole numbers. A null page count is not modelled. */
  datatype Participant = Participant(fullName: string, pages: Option<int>)

  /** `p.pages || 0`: an absent page count counts as 0. */
  function PageCount(p: Participant): int {
    if p.pages.Some? then p.pages.value else 0
  }

  /** The sum of the page counts of `ps`, absent counts as 0. */
  function TotalPages(ps: seq<Participant>): int {
    if ps == [] then 0 else PageCount(ps[0]) + TotalPages(ps[1..])
  }

  lemma {:induction false} TotalPagesAppend(ps: seq<Participant>, p: Participant)
    ensures TotalPages(ps + [p]) == TotalPages(ps) + PageCount(p)
    decreases |ps|
  {
    if ps != [] {
      assert (ps + [p])[1..] == ps[1..] + [p];
      TotalPagesAppend(ps[1..], p);
    }
  }

  predicate AllPagesNonNegative(ps: seq<Participant>) {
    forall k :: 0 <= k < |ps| ==> PageCount(ps[k]) >= 0
  }

  /** With no negative page count the total is not negative either. */
  lemma {:induction false} TotalPagesNonNegative(ps: seq<Participant>)
    requires AllPagesNonNegative(ps)
    ensures TotalPages(ps) >= 0
    decreases |ps|
  {
    if ps != [] {
      assert PageCount(ps[0]) >= 0;
      TotalPagesNonNegative(ps[1..]);
    }
  }

  predicate AllPagesPresent(ps: seq<Participant>) {
    forall k :: 0 <= k < |ps| ==> ps[k].pages.Some?
  }

  // ---------------------------------------------------------------------------
  // hatimUtils.getPersonStartPage
  // ---------------------------------------------------------------------------

  /** The 1-based page at which participant `k` begins: one past the pages of
      everyone before them. */
  function StartPage(ps: seq<Participant>, k: nat): int
    requires k <= |ps|
  {
    1 + TotalPages(ps[..k])
  }

  /** `getPersonStartPage`: the loop that adds up the page counts of the
      participants before `index`. The source reads `participants[i]` for
      every `i < index`, so `index` must not pass the end of the list. */
  method GetPersonStartPage(ps: seq<Participant>, index: nat) returns (start: int)
    requires index <= |ps|
    ensures start == 1 + TotalPages(ps[..index])
    ensures index == 0 ==> start == 1
  {
    start := 1;
    var i := 0;
    while i < index
      invariant 0 <= i <= index
      invariant start == 1 + TotalPages(ps[..i])
    {
      TotalPagesAppend(ps[..i], ps[i]);
      assert ps[..i + 1] == ps[..i] + [ps[i]];
      start := start + PageCount(ps[i]);
      i := i + 1;
    }
  }

  /** Each participant starts where the previous one's pages end. */
  lemma StartPageStep(ps: seq<Participant>, k: nat)
    requires k < |ps|
    ensures StartPage(ps, k + 1) == StartPage(ps, k) + PageCount(ps[k])
  {
    TotalPagesAppend(ps[..k], ps[k]);
    assert ps[..k + 1] == ps[..k] + [ps[k]];
  }

  /** With no negative page counts, later participants never start earlier. */
  lemma {:induction false} StartPageMonotone(ps: seq<Participant>, j: nat, k: nat)
    requires j <= k <= |ps|
    requires AllPagesNonNegative(ps)
    ensures StartPage(ps, j) <= StartPage(ps, k)
    decreases k - j
  {
    if j < k {
      StartPageStep(ps, k - 1);
      StartPageMonotone(ps, j, k - 1);
    }
  }

  // ---------------------------------------------------------------------------
  // hatimUtils.getDayRange
  // ---------------------------------------------------------------------------

  /** A participant's reading for one day, first and last page inclusive. */
  datatype Range = Range(start: int, end: int)

  /** `getDayRange`: day `d` of participant `i` moves their start page on by
      `d` times their page count; no reduction into one pass of the text is
      made. The page count here is the raw field: an undefined one makes both
      ends NaN, which is None. */
  function DayRange(ps: seq<Participant>, i: nat, d: nat): (r: Option<Range>)
    requires i < |ps|
    ensures r.Some? <==> ps[i].pages.Some?
    ensures r.Some? ==> r.value.end - r.value.start + 1 == ps[i].pages.value
  {
    match ps[i].pages
    case None => None
    case Some(pages) =>
      var start := StartPage(ps, i) + d * pages;
      Some(Range(start, start + pages - 1))
  }

  /** Day 0 starts at the participant's start page, and each next day starts
      right after the previous one ends. */
  lemma DaysAreAdjacent(ps: seq<Participant>, i: nat, d: nat)
    requires i < |ps| && ps[i].pages.Some?
    ensures DayRange(ps, i, 0).value.start == StartPage(ps, i)
    ensures DayRange(ps, i, d + 1).value.start == DayRange(ps, i, d).value.end + 1
  {
    var p := ps[i].pages.value;
    assert (d + 1) * p == d * p + p;
  }

  /** On day 0 each participant's reading ends right before the next one's
      begins. */
  lemma ParticipantsAdjacentOnDayZero(ps: seq<Participant>, i: nat)
    requires i + 1 < |ps| && ps[i].pages.Some? && ps[i + 1].pages.Some?
    ensures DayRange(ps, i, 0).value.end + 1 == DayRange(ps, i + 1, 0).value.start
  {
    StartPageStep(ps, i);
  }

  /** On day 0 the last participant finishes at the total page count. */
  lemma DayZeroEndsAtTotal(ps: seq<Participant>)
    requires |ps| > 0 && ps[|ps| - 1].pages.Some?
    ensures DayRange(ps, |ps| - 1, 0).value.end == TotalPages(ps)
  {
    StartPageStep(ps, |ps| - 1);
    assert ps[..|ps|] == ps;
  }

  /** With a positive page count, every page from the participant's start page
      on is read on exactly one day: day `(q - start) / pages`. The days tile
      the pages with no gap, no overlap and no wrap. */
  lemma {:induction false} EachPageOnOneDay(ps: seq<Participant>, i: nat, q: int, d: nat)
    requires i < |ps| && ps[i].pages.Some? && ps[i].pages.value >= 1
    requires q >= StartPage(ps, i)
    ensures var r := DayRange(ps, i, d).value;
            r.start <= q <= r.end <==> d == (q - StartPage(ps, i)) / ps[i].pages.value
  {
    DayOfOffset(q - StartPage(ps, i), ps[i].pages.value, d);
  }

  /** Offset `x` lies in the `d`-th block of `p` exactly when `x / p == d`. */
  lemma DayOfOffset(x: int, p: int, d: nat)
    requires x >= 0 && p >= 1
    ensures d * p <= x <= d * p + p - 1 <==> d == x / p
  {
    var e := x / p;
    assert x == e * p + x % p;
    if d * p <= x <= d * p + p - 1 {
      if d < e {
        MulMonotone(d + 1, e, p);
        assert false;
      } else if d > e {
        MulMonotone(e + 1, d, p);
        assert false;
      }
    }
  }

  lemma MulMonotone(a: int, b: int, p: int)
    requires 0 <= a <= b && p >= 0
    ensures a * p <= b * p
  {
  }

  // ---------------------------------------------------------------------------
  // dateUtils.getDatesInRange
  // ---------------------------------------------------------------------------

  /** A date string as `new Date` reads it: empty or undefined, not a date,
      or a day (days since 1970-01-01). A null date is not modelled. */
  datatype DateField = Blank | Unparsable | Day(n: int)

  predicate ValidRange(startDate: DateField, endDate: DateField) {
    startDate.Day? && endDate.Day? && startDate.n <= endDate.n
  }

  /** Every day from `startDate` to `endDate` inclusive, one after the other;
      none when either is not a date or the range runs backwards. */
  function DatesInRange(startDate: DateField, endDate: DateField): (r: seq<int>)
    ensures r == [] <==> !ValidRange(startDate, endDate)
    ensures r != [] ==> |r| == endDate.n - startDate.n + 1
    ensures r != [] ==> r[0] == startDate.n && r[|r| - 1] == endDate.n
    ensures forall k :: 0 <= k < |r| ==> r[k] == startDate.n + k
    decreases if ValidRange(startDate, endDate) then endDate.n - startDate.n + 1 else 0
  {
    if !ValidRange(startDate, endDate) then []
    else if startDate.n == endDate.n then [startDate.n]
    else [startDate.n] + DatesInRange(Day(startDate.n + 1), endDate)
  }

  /** `getDatesInRange`: push the current day and step one day forward until
      the end date is passed. */
  method GetDatesInRange(startDate: DateField, endDate: DateField) returns (dates: seq<int>)
    ensures dates == DatesInRange(startDate, endDate)
  {
    dates := [];
    if !startDate.Day? || !endDate.Day? || startDate.n > endDate.n {
      return;
    }
    var cur := startDate.n;
    while cur <= endDate.n
      invariant startDate.n <= cur <= endDate.n + 1
      invariant |dates| == cur - startDate.n
      invariant forall k :: 0 <= k < |dates| ==> dates[k] == startDate.n + k
    {
      dates := dates + [cur];
      cur := cur + 1;
    }
  }

  // ---------------------------------------------------------------------------
  // dateUtils.formatToLocale and dateUtils.formatDayName
  // ---------------------------------------------------------------------------

  /** `DD.MM.YYYY`: day and month padded to two digits, the year as
      `String` writes it. */
  function FormatCivil(c: Calendar.Civil): string
    requires Calendar.ValidCivil(c)
  {
    PadStartZeros(NatToDecimal(c.day), 2) + "." + PadStartZeros(NatToDecimal(c.month), 2)
      + "." + IntToString(c.year)
  }

  /** `formatToLocale`: empty for an empty argument; a string that is not a
      date gives NaN in every field. */
  function FormatToLocale(date: DateField): (r: string)
    ensures date.Blank? ==> r == ""
    ensures date.Unparsable? ==> r == "NaN.NaN.NaN"
    ensures date.Day? ==> |r| >= 7 && r[2] == '.' && r[5] == '.'
  {
    match date
    case Blank => ""
    case Unparsable => "NaN.NaN.NaN"
    case Day(n) =>
      var c := Calendar.CivilFromDays(n);
      FormatCivilReadsBack(c);
      FormatCivil(c)
  }

  /** The written date reads back: two digits of day, a dot, two digits of
      month, a dot, and the year. */
  lemma FormatCivilReadsBack(c: Calendar.Civil)
    requires Calendar.ValidCivil(c)
    ensures var r := FormatCivil(c);
            |r| >= 7 && r[2] == '.' && r[5] == '.'
            && AllDigits(r[..2]) && DecimalValue(r[..2]) == c.day
            && AllDigits(r[3..5]) && DecimalValue(r[3..5]) == c.month
            && r[6..] == IntToString(c.year)
  {
    TwoDigits(c.day);
    TwoDigits(c.month);
    IntToStringReadsBack(c.year);
    DottedFields(PadStartZeros(NatToDecimal(c.day), 2), PadStartZeros(NatToDecimal(c.month), 2),
                 IntToString(c.year));
  }

  lemma DottedFields(dd: string, mm: string, y: string)
    requires |dd| == 2 && |mm| == 2 && |y| >= 1
    ensures var r := dd + "." + mm + "." + y;
            |r| >= 7 && r[..2] == dd && r[2] == '.' && r[3..5] == mm && r[5] == '.' && r[6..] == y
  {
    var r := dd + "." + mm + "." + y;
    assert r[..2] == dd;
    assert r[3..5] == mm;
    assert r[6..] == y;
  }

  /** Different days are written differently, so no two date columns of a
      table share a heading. */
  lemma FormatToLocaleInjective(a: int, b: int)
    requires FormatToLocale(Day(a)) == FormatToLocale(Day(b))
    ensures a == b
  {
    var ca := Calendar.CivilFromDays(a);
    var cb := Calendar.CivilFromDays(b);
    FormatCivilReadsBack(ca);
    FormatCivilReadsBack(cb);
    IntToStringInjective(ca.year, cb.year);
    assert ca == cb;
  }

  const DayNames: seq<string> :=
    ["PAZAR", "PAZARTESİ", "SALI", "ÇARŞAMBA", "PERŞEMBE", "CUMA", "CUMARTESİ"]

  /** The name of weekday `w`, Sunday (PAZAR) being 0. */
  function DayName(w: int): string
    requires 0 <= w < 7
  {
    DayNames[w]
  }

  /** `formatDayName`: the name of the day of the week of day `n`. */
  function FormatDayName(n: int): (name: string)
    ensures name in DayNames
    ensures name == DayNames[Calendar.Weekday(n)]
  {
    DayName(Calendar.Weekday(n))
  }

  /** Day names follow the week, in the table's order starting from the
      first day's name, and repeat after seven days. */
  lemma DayNamesFollowWeek(n: int, k: int)
    requires 0 <= k < 7
    ensures FormatDayName(n + k) == DayNames[(Calendar.Weekday(n) + k) % 7]
    ensures FormatDayName(n + 7) == FormatDayName(n)
  {
    Calendar.WeekdayShift(n, k);
    Calendar.WeekdayShift(n, 7);
  }

  /** Within any seven consecutive days no two carry the same name. */
  lemma WeekNamesDistinct(n: int, j: int, k: int)
    requires 0 <= j < k < 7
    ensures FormatDayName(n + j) != FormatDayName(n + k)
  {
    DayNamesFollowWeek(n, j);
    DayNamesFollowWeek(n, k);
    DayNamesDistinct((Calendar.Weekday(n) + j) % 7, (Calendar.Weekday(n) + k) % 7);
  }

  lemma DayNamesDistinct(a: int, b: int)
    requires 0 <= a < 7 && 0 <= b < 7 && a != b
    ensures DayNames[a] != DayNames[b]
  {
  }
}
