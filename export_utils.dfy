/** `exportService`: the table a schedule is exported as, to a spreadsheet
    (`excel`) and to a PDF (`pdf`). Only the table's content, the PDF page
    size and the download file name are modelled; styling and the file
    encoders are not. */
module ExportUtils {
  import opened Wrappers
  import opened Strings
  import opened FormatUtils

  /** The fields of a schedule record the export reads. An absent
      participant list is the empty list. */
  datatype Schedule = Schedule(name: string, startDate: DateField, endDate: DateField,
                               participants: seq<Participant>)

  /** A table cell: a number, a text, or nothing (an undefined value in the
      spreadsheet, an empty `{}` cell in the PDF). */
  datatype Cell = Num(n: int) | Str(s: string) | Empty

  /** Why an export throws before producing anything. */
  datatype ExportError =
    | NoParticipants      // 'Önce katılımcı ekleyin.'
    | NoDateRange         // 'Lütfen tarih aralığı seçin.'
    | InvalidDateRange    // 'Geçerli bir tarih aralığı seçin.'
    | MissingPageCount    // `p.pages.toString()` on an undefined page count

  datatype Sheet = Sheet(rows: seq<seq<Cell>>, fileName: string)

  datatype PdfDocument = PdfDocument(width: int, height: int, title: string,
                                     body: seq<seq<Cell>>, fileName: string)

  // ---------------------------------------------------------------------------
  // Cells
  // ---------------------------------------------------------------------------

  /** `${start}-${end}`; an absent page count gives NaN at both ends. */
  function RangeText(r: Option<Range>): (t: string)
    ensures t == "NaN-NaN" <==> r.None?
  {
    match r
    case None => "NaN-NaN"
    case Some(range) =>
      var first := IntToString(range.start);
      assert (first + "-" + IntToString(range.end))[0] == first[0] != 'N';
      first + "-" + IntToString(range.end)
  }

  /** Different readings are written differently, so a cell names its pages
      unambiguously. */
  lemma RangeTextInjective(a: Range, b: Range)
    requires RangeText(Some(a)) == RangeText(Some(b))
    ensures a == b
  {
    SignedPrefixUnique(a.start, b.start, IntToString(a.end), IntToString(b.end));
    IntToStringInjective(a.end, b.end);
  }

  function DateCell(day: int): Cell {
    Str(FormatToLocale(Day(day)))
  }

  function DayNameCell(day: int): Cell {
    Str(FormatDayName(day))
  }

  function RangeCell(ps: seq<Participant>, i: nat, d: nat): Cell
    requires i < |ps|
  {
    Str(RangeText(DayRange(ps, i, d)))
  }

  /** The formatted first `n` dates. */
  function DateCells(dates: seq<int>, n: nat): seq<Cell>
    requires n <= |dates|
  {
    seq(n, DateCellOf(dates))
  }

  /** Element `k` of `DateCells`. A `seq` constructor calls it only with
      `0 <= k < n <= |dates|`, so the `Empty` branch is never taken; it
      keeps the function total, which lets `SeqGrow` extend the cells one
      at a time without looking inside them. The other `...Of` functions
      below follow the same pattern. */
  function DateCellOf(dates: seq<int>): int -> Cell {
    k => if 0 <= k < |dates| then DateCell(dates[k]) else Empty
  }

  /** The day names of the first `n` dates. */
  function DayNameCells(dates: seq<int>, n: nat): seq<Cell>
    requires n <= |dates|
  {
    seq(n, DayNameCellOf(dates))
  }

  /** Element `k` of `DayNameCells`; `Empty` is never taken. */
  function DayNameCellOf(dates: seq<int>): int -> Cell {
    k => if 0 <= k < |dates| then DayNameCell(dates[k]) else Empty
  }

  /** Participant `i`'s readings on days 0 to `n - 1`. */
  function RangeCells(ps: seq<Participant>, i: nat, n: nat): seq<Cell>
    requires i < |ps|
  {
    seq(n, RangeCellOf(ps, i))
  }

  /** Element `d` of `RangeCells`; `Empty` is never taken. */
  function RangeCellOf(ps: seq<Participant>, i: nat): int -> Cell {
    d => if i < |ps| && d >= 0 then RangeCell(ps, i, d) else Empty
  }

  /** A comprehension one longer is the shorter one and one more element. */
  lemma SeqGrow<T>(n: nat, f: int -> T)
    ensures seq(n + 1, f) == seq(n, f) + [f(n)]
  {
    var longer := seq(n + 1, f);
    var grown := seq(n, f) + [f(n)];
    assert |longer| == |grown|;
    forall k | 0 <= k < n + 1
      ensures longer[k] == grown[k]
    {
      if k < n {
        assert grown[k] == seq(n, f)[k];
      }
    }
  }

  // ---------------------------------------------------------------------------
  // The spreadsheet table
  // ---------------------------------------------------------------------------

  const ExcelTitles: seq<Cell> := [Str("#"), Str("İSİM SOYİSİM"), Str("SAYFA SAYISI")]

  /** A participant's row: position from 1, name, page count, one range per day. */
  function ExcelRow(ps: seq<Participant>, i: nat, days: nat): seq<Cell>
    requires i < |ps|
  {
    [Num(i + 1), Str(ps[i].fullName), if ps[i].pages.Some? then Num(ps[i].pages.value) else Empty]
      + RangeCells(ps, i, days)
  }

  /** The first `n` participant rows. */
  function ExcelRows(ps: seq<Participant>, days: nat, n: nat): seq<seq<Cell>>
    requires n <= |ps|
  {
    seq(n, ExcelRowOf(ps, days))
  }

  /** Row `i` of `ExcelRows`; `[]` is never taken. */
  function ExcelRowOf(ps: seq<Participant>, days: nat): int -> seq<Cell> {
    i => if 0 <= i < |ps| then ExcelRow(ps, i, days) else []
  }

  /** The sheet: the dates row, the day-names row, then the participants in
      list order. */
  function ExcelTable(ps: seq<Participant>, dates: seq<int>): (t: seq<seq<Cell>>)
    ensures |t| == 2 + |ps|
  {
    [ExcelTitles + DateCells(dates, |dates|), [Str(""), Str(""), Str("")] + DayNameCells(dates, |dates|)]
      + ExcelRows(ps, |dates|, |ps|)
  }

  /** The sheet has two header rows and one row per participant; the
      header rows are `3 + |dates|` cells wide, the first showing each date
      and the second its day name. */
  lemma ExcelHeaderLayout(ps: seq<Participant>, dates: seq<int>)
    ensures var t := ExcelTable(ps, dates);
      && |t| == 2 + |ps|
      && |t[0]| == |t[1]| == 3 + |dates|
      && t[0][..3] == ExcelTitles && t[1][..3] == [Str(""), Str(""), Str("")]
      && (forall k :: 0 <= k < |dates| ==>
            t[0][3 + k] == DateCell(dates[k]) && t[1][3 + k] == DayNameCell(dates[k]))
  {
    var t := ExcelTable(ps, dates);
    DateCellsLayout(ExcelTitles, dates);
    DayNameCellsLayout([Str(""), Str(""), Str("")], dates);
    assert t[0] == ExcelTitles + DateCells(dates, |dates|);
    assert t[1] == [Str(""), Str(""), Str("")] + DayNameCells(dates, |dates|);
  }

  /** Row `2 + i` of the sheet is participant `i`'s: `i + 1`, the name, the
      page count, and for day `d` the text of `getDayRange(ps, i, d)`. */
  lemma ExcelRowLayout(ps: seq<Participant>, dates: seq<int>, i: nat)
    requires i < |ps|
    ensures var t := ExcelTable(ps, dates);
      && |t| == 2 + |ps|
      && |t[2 + i]| == 3 + |dates|
      && t[2 + i][..3] == [Num(i + 1), Str(ps[i].fullName),
                           if ps[i].pages.Some? then Num(ps[i].pages.value) else Empty]
      && (forall d :: 0 <= d < |dates| ==> t[2 + i][3 + d] == Str(RangeText(DayRange(ps, i, d))))
  {
    var t := ExcelTable(ps, dates);
    var rows := ExcelRows(ps, |dates|, |ps|);
    assert t[2 + i] == rows[i] == ExcelRowOf(ps, |dates|)(i);
    RangeCellsLayout([Num(i + 1), Str(ps[i].fullName),
                      if ps[i].pages.Some? then Num(ps[i].pages.value) else Empty], ps, i, |dates|);
  }

  /** `head` followed by the formatted dates. */
  lemma DateCellsLayout(head: seq<Cell>, dates: seq<int>)
    ensures var row := head + DateCells(dates, |dates|);
      && |row| == |head| + |dates| && row[..|head|] == head
      && forall k :: 0 <= k < |dates| ==> row[|head| + k] == DateCell(dates[k])
  {
    var row := head + DateCells(dates, |dates|);
    assert row[..|head|] == head;
    forall k | 0 <= k < |dates|
      ensures row[|head| + k] == DateCell(dates[k])
    {
      assert row[|head| + k] == DateCells(dates, |dates|)[k] == DateCellOf(dates)(k);
    }
  }

  /** `head` followed by the day names of the dates. */
  lemma DayNameCellsLayout(head: seq<Cell>, dates: seq<int>)
    ensures var row := head + DayNameCells(dates, |dates|);
      && |row| == |head| + |dates| && row[..|head|] == head
      && forall k :: 0 <= k < |dates| ==> row[|head| + k] == DayNameCell(dates[k])
  {
    var row := head + DayNameCells(dates, |dates|);
    assert row[..|head|] == head;
    forall k | 0 <= k < |dates|
      ensures row[|head| + k] == DayNameCell(dates[k])
    {
      assert row[|head| + k] == DayNameCells(dates, |dates|)[k] == DayNameCellOf(dates)(k);
    }
  }

  /** `head` followed by participant `i`'s range on each of `days` days. */
  lemma RangeCellsLayout(head: seq<Cell>, ps: seq<Participant>, i: nat, days: nat)
    requires i < |ps|
    ensures var row := head + RangeCells(ps, i, days);
      && |row| == |head| + days && row[..|head|] == head
      && forall d :: 0 <= d < days ==> row[|head| + d] == Str(RangeText(DayRange(ps, i, d)))
  {
    var row := head + RangeCells(ps, i, days);
    assert row[..|head|] == head;
    forall d | 0 <= d < days
      ensures row[|head| + d] == Str(RangeText(DayRange(ps, i, d)))
    {
      assert row[|head| + d] == RangeCells(ps, i, days)[d] == RangeCellOf(ps, i)(d);
    }
  }

  /** `excel`: checks participants and dates, then builds the two header
      rows and the participant rows with `push`, and names the file after
      the schedule. */
  method Excel(h: Schedule) returns (r: Result<Sheet, ExportError>)
    ensures |h.participants| == 0 ==> r == Err(NoParticipants)
    ensures |h.participants| > 0 && (h.startDate.Blank? || h.endDate.Blank?) ==>
              r == Err(NoDateRange)
    ensures (|h.participants| > 0 && !h.startDate.Blank? && !h.endDate.Blank?
             && !ValidRange(h.startDate, h.endDate)) ==> r == Err(InvalidDateRange)
    ensures |h.participants| > 0 && ValidRange(h.startDate, h.endDate) ==>
              r == Ok(Sheet(ExcelTable(h.participants, DatesInRange(h.startDate, h.endDate)),
                            SanitizeName(h.name) + ".xlsx"))
  {
    var ps := h.participants;
    if |ps| == 0 {
      return Err(NoParticipants);
    }
    if h.startDate.Blank? || h.endDate.Blank? {
      return Err(NoDateRange);
    }
    var dates := GetDatesInRange(h.startDate, h.endDate);
    if |dates| == 0 {
      return Err(InvalidDateRange);
    }
    var n := |dates|;
    var header1 := PushDates(ExcelTitles, dates);
    var header2 := PushDayNames([Str(""), Str(""), Str("")], dates);
    var rows := [header1, header2];
    for i := 0 to |ps|
      invariant rows == [header1, header2] + ExcelRows(ps, n, i)
    {
      var row := PushRanges([Num(i + 1), Str(ps[i].fullName),
                             if ps[i].pages.Some? then Num(ps[i].pages.value) else Empty], ps, i, n);
      SeqGrow(i, ExcelRowOf(ps, n));
      rows := rows + [row];
    }
    r := Ok(Sheet(rows, SanitizeName(h.name) + ".xlsx"));
  }

  /** `dates.forEach(d => row.push(formatToLocale(d)))`. */
  method PushDates(row: seq<Cell>, dates: seq<int>) returns (r: seq<Cell>)
    ensures r == row + DateCells(dates, |dates|)
  {
    r := row;
    for k := 0 to |dates|
      invariant r == row + DateCells(dates, k)
    {
      SeqGrow(k, DateCellOf(dates));
      r := r + [DateCell(dates[k])];
    }
  }

  /** `dates.forEach(d => row.push(formatDayName(d)))`. */
  method PushDayNames(row: seq<Cell>, dates: seq<int>) returns (r: seq<Cell>)
    ensures r == row + DayNameCells(dates, |dates|)
  {
    r := row;
    for k := 0 to |dates|
      invariant r == row + DayNameCells(dates, k)
    {
      SeqGrow(k, DayNameCellOf(dates));
      r := r + [DayNameCell(dates[k])];
    }
  }

  /** Participant `i`'s ranges for each of `days` days pushed onto `row`. */
  method PushRanges(row: seq<Cell>, ps: seq<Participant>, i: nat, days: nat) returns (r: seq<Cell>)
    requires i < |ps|
    ensures r == row + RangeCells(ps, i, days)
  {
    r := row;
    for d := 0 to days
      invariant r == row + RangeCells(ps, i, d)
    {
      SeqGrow(d, RangeCellOf(ps, i));
      r := r + [RangeCell(ps, i, d)];
    }
  }

  /** The spreadsheet's date headings are all different. */
  lemma ExcelDateHeadingsDistinct(ps: seq<Participant>, startDate: DateField, endDate: DateField,
                                  j: nat, k: nat)
    requires j < k < |DatesInRange(startDate, endDate)|
    ensures var t := ExcelTable(ps, DatesInRange(startDate, endDate));
            t[0][3 + j] != t[0][3 + k]
  {
    var dates := DatesInRange(startDate, endDate);
    assert dates[j] != dates[k];
    DateCellsDistinct(dates[j], dates[k]);
    ExcelHeaderLayout(ps, dates);
  }

  lemma DateCellsDistinct(a: int, b: int)
    requires a != b
    ensures DateCell(a) != DateCell(b)
  {
    if DateCell(a) == DateCell(b) {
      FormatToLocaleInjective(a, b);
    }
  }

  // ---------------------------------------------------------------------------
  // The PDF table and page
  // ---------------------------------------------------------------------------

  const NumberColumnWidth := 15
  const NameColumnWidth := 90
  const PageColumnWidth := 30
  const DateColumnWidth := 55

  /** The width of a table with `days` date columns. */
  function TableWidth(days: nat): (w: int)
    ensures w >= NumberColumnWidth + NameColumnWidth + PageColumnWidth
    ensures (w - 135) % DateColumnWidth == 0 && (w - 135) / DateColumnWidth == days
  {
    NumberColumnWidth + NameColumnWidth + PageColumnWidth + days * DateColumnWidth
  }

  /** `Math.max(2000, tableWidth + 80)`: at least 2000 and room for the
      table with 80 to spare, and no wider than the larger of the two. */
  function PageWidth(days: nat): (w: int)
    ensures w >= 2000 && w >= TableWidth(days) + 80
    ensures w == 2000 || w == TableWidth(days) + 80
  {
    if 2000 >= TableWidth(days) + 80 then 2000 else TableWidth(days) + 80
  }

  /** `Math.max(595, participants * 15 + 200)` */
  function PageHeight(participants: nat): (h: int)
    ensures h >= 595 && h >= 15 * participants + 200
    ensures h == 595 || h == 15 * participants + 200
  {
    if 595 >= participants * 15 + 200 then 595 else participants * 15 + 200
  }

  /** The page keeps its least width up to 32 days and its least height up
      to 26 participants, and grows with the table after that. */
  lemma PageSizeThresholds(days: nat, participants: nat)
    ensures PageWidth(days) == 2000 <==> days <= 32
    ensures PageHeight(participants) == 595 <==> participants <= 26
  {
  }

  /** A participant's PDF row: position and page count as text. */
  function PdfRow(ps: seq<Participant>, i: nat, days: nat): seq<Cell>
    requires i < |ps| && ps[i].pages.Some?
  {
    [Str(IntToString(i + 1)), Str(ps[i].fullName), Str(IntToString(ps[i].pages.value))]
      + RangeCells(ps, i, days)
  }

  /** The first `n` PDF participant rows. */
  function PdfRows(ps: seq<Participant>, days: nat, n: nat): seq<seq<Cell>>
    requires n <= |ps|
  {
    seq(n, PdfRowOf(ps, days))
  }

  /** Row `i` of `PdfRows`; `[]` is never taken where the model uses it,
      since the PDF rows are only built over participants whose page counts
      are all present. */
  function PdfRowOf(ps: seq<Participant>, days: nat): int -> seq<Cell> {
    i => if 0 <= i < |ps| && ps[i].pages.Some? then PdfRow(ps, i, days) else []
  }

  /** The PDF table: dates, day names under three empty cells, then one row
      per participant. */
  function PdfTable(ps: seq<Participant>, dates: seq<int>): (t: seq<seq<Cell>>)
    requires AllPagesPresent(ps)
    ensures |t| == 2 + |ps|
  {
    [[Str("#"), Str("İSİM SOYİSİM"), Str("SAYFA")] + DateCells(dates, |dates|),
     [Empty, Empty, Empty] + DayNameCells(dates, |dates|)]
      + PdfRows(ps, |dates|, |ps|)
  }

  /** The PDF table has two header rows and one row per participant; the
      header rows are `3 + |dates|` cells wide, the first showing each date
      and the second, under three empty cells, its day name. */
  lemma PdfHeaderLayout(ps: seq<Participant>, dates: seq<int>)
    requires AllPagesPresent(ps)
    ensures var t := PdfTable(ps, dates);
      && |t| == 2 + |ps|
      && |t[0]| == |t[1]| == 3 + |dates|
      && t[0][..3] == [Str("#"), Str("İSİM SOYİSİM"), Str("SAYFA")]
      && t[1][..3] == [Empty, Empty, Empty]
      && (forall k :: 0 <= k < |dates| ==>
            t[0][3 + k] == DateCell(dates[k]) && t[1][3 + k] == DayNameCell(dates[k]))
  {
    var t := PdfTable(ps, dates);
    DateCellsLayout([Str("#"), Str("İSİM SOYİSİM"), Str("SAYFA")], dates);
    DayNameCellsLayout([Empty, Empty, Empty], dates);
    assert t[0] == [Str("#"), Str("İSİM SOYİSİM"), Str("SAYFA")] + DateCells(dates, |dates|);
    assert t[1] == [Empty, Empty, Empty] + DayNameCells(dates, |dates|);
  }

  /** Row `2 + i` of the PDF table is participant `i`'s: position and page
      count as text, the name, and for day `d` the text of
      `getDayRange(ps, i, d)`. */
  lemma PdfRowLayout(ps: seq<Participant>, dates: seq<int>, i: nat)
    requires AllPagesPresent(ps) && i < |ps|
    ensures var t := PdfTable(ps, dates);
      && |t| == 2 + |ps|
      && |t[2 + i]| == 3 + |dates|
      && t[2 + i][..3] == [Str(IntToString(i + 1)), Str(ps[i].fullName),
                           Str(IntToString(ps[i].pages.value))]
      && (forall d :: 0 <= d < |dates| ==> t[2 + i][3 + d] == Str(RangeText(DayRange(ps, i, d))))
  {
    var t := PdfTable(ps, dates);
    var rows := PdfRows(ps, |dates|, |ps|);
    assert t[2 + i] == rows[i] == PdfRowOf(ps, |dates|)(i);
    RangeCellsLayout([Str(IntToString(i + 1)), Str(ps[i].fullName),
                      Str(IntToString(ps[i].pages.value))], ps, i, |dates|);
  }

  /** `pdf`: only an empty participant list is refused up front; the dates are
      not checked, so a missing or backward range gives a table with the
      three fixed columns only. Building a row throws on a participant
      without a page count. */
  method Pdf(h: Schedule) returns (r: Result<PdfDocument, ExportError>)
    ensures |h.participants| == 0 ==> r == Err(NoParticipants)
    ensures |h.participants| > 0 && !AllPagesPresent(h.participants) ==> r == Err(MissingPageCount)
    ensures |h.participants| > 0 && AllPagesPresent(h.participants) ==>
              var dates := DatesInRange(h.startDate, h.endDate);
              r == Ok(PdfDocument(PageWidth(|dates|), PageHeight(|h.participants|), h.name,
                                  PdfTable(h.participants, dates), SanitizeName(h.name) + ".pdf"))
  {
    var ps := h.participants;
    if |ps| == 0 {
      return Err(NoParticipants);
    }
    var dates := GetDatesInRange(h.startDate, h.endDate);
    var n := |dates|;
    var width := PageWidth(n);
    var height := PageHeight(|ps|);

    var header := [[Str("#"), Str("İSİM SOYİSİM"), Str("SAYFA")] + DateCells(dates, n),
                   [Empty, Empty, Empty] + DayNameCells(dates, n)];
    var rows := PdfParticipantRows(ps, n);
    if rows.Err? {
      return Err(rows.error);
    }
    var body := header + rows.value;
    r := Ok(PdfDocument(width, height, h.name, body, SanitizeName(h.name) + ".pdf"));
  }

  /** `participants.forEach((p, i) => body.push([...]))`: one row per
      participant in order, throwing at the first one without a page count. */
  method PdfParticipantRows(ps: seq<Participant>, days: nat)
    returns (r: Result<seq<seq<Cell>>, ExportError>)
    ensures !AllPagesPresent(ps) ==> r == Err(MissingPageCount)
    ensures AllPagesPresent(ps) ==> r == Ok(PdfRows(ps, days, |ps|))
  {
    var rows := [];
    for i := 0 to |ps|
      invariant forall j :: 0 <= j < i ==> ps[j].pages.Some?
      invariant rows == PdfRows(ps, days, i)
    {
      if ps[i].pages.None? {
        assert !AllPagesPresent(ps);
        return Err(MissingPageCount);
      }
      var row := PdfRow(ps, i, days);
      SeqGrow(i, PdfRowOf(ps, days));
      assert PdfRowOf(ps, days)(i) == row;
      rows := rows + [row];
    }
    assert AllPagesPresent(ps);
    r := Ok(rows);
  }

  /** Where both exports succeed they show the same day ranges. */
  lemma ExportsAgreeOnRanges(ps: seq<Participant>, dates: seq<int>, i: nat)
    requires AllPagesPresent(ps) && i < |ps|
    ensures |ExcelTable(ps, dates)| == |PdfTable(ps, dates)| == 2 + |ps|
    ensures ExcelTable(ps, dates)[2 + i][3..] == PdfTable(ps, dates)[2 + i][3..]
  {
    ExcelRowLayout(ps, dates, i);
    PdfRowLayout(ps, dates, i);
  }

  // ---------------------------------------------------------------------------
  // The download file name
  // ---------------------------------------------------------------------------

  predicate NoWhitespace(s: string) {
    forall k :: 0 <= k < |s| ==> !IsJsWhitespace(s[k])
  }

  predicate AllWhitespace(s: string) {
    forall k :: 0 <= k < |s| ==> IsJsWhitespace(s[k])
  }

  /** `s` without its leading whitespace. */
  function SkipWhitespace(s: string): (r: string)
    ensures |r| <= |s|
    ensures r == [] || !IsJsWhitespace(r[0])
    ensures s != [] && !IsJsWhitespace(s[|s| - 1]) ==> r != [] && r[|r| - 1] == s[|s| - 1]
  {
    if s == [] || !IsJsWhitespace(s[0]) then s
    else SkipWhitespace(s[1..])
  }

  /** `s.replace(/\s+/g, '_')`: each run of whitespace becomes one `_`. */
  function SanitizeName(s: string): (r: string)
    ensures |r| <= |s|
    ensures r == [] <==> s == []
    decreases |s|
  {
    if s == [] then []
    else if IsJsWhitespace(s[0]) then "_" + SanitizeName(SkipWhitespace(s[1..]))
    else [s[0]] + SanitizeName(s[1..])
  }

  /** The file name has no whitespace left, and is never longer than the
      schedule name. */
  lemma {:induction false} SanitizeLeavesNoWhitespace(s: string)
    ensures NoWhitespace(SanitizeName(s))
    ensures |SanitizeName(s)| <= |s|
    decreases |s|
  {
    if s != [] {
      if IsJsWhitespace(s[0]) {
        SanitizeLeavesNoWhitespace(SkipWhitespace(s[1..]));
      } else {
        SanitizeLeavesNoWhitespace(s[1..]);
      }
    }
  }

  /** A name without whitespace is kept as it is. */
  lemma {:induction false} SanitizeKeepsPlainName(s: string)
    requires NoWhitespace(s)
    ensures SanitizeName(s) == s
    decreases |s|
  {
    if s != [] {
      SanitizeKeepsPlainName(s[1..]);
    }
  }

  /** Sanitizing twice is sanitizing once. */
  lemma SanitizeIdempotent(s: string)
    ensures SanitizeName(SanitizeName(s)) == SanitizeName(s)
  {
    SanitizeLeavesNoWhitespace(s);
    SanitizeKeepsPlainName(SanitizeName(s));
  }

  lemma DropFirstOfConcat(a: string, t: string)
    requires a != []
    ensures (a + t)[0] == a[0] && (a + t)[1..] == a[1..] + t
  {
  }

  lemma {:induction false} SkipWhitespaceAppend(x: string, y: string)
    requires x != [] && !IsJsWhitespace(x[|x| - 1])
    ensures SkipWhitespace(x + y) == SkipWhitespace(x) + y
    decreases |x|
  {
    DropFirstOfConcat(x, y);
    if IsJsWhitespace(x[0]) {
      SkipWhitespaceAppend(x[1..], y);
    }
  }

  lemma {:induction false} SkipWhitespaceRun(w: string, b: string)
    requires AllWhitespace(w)
    requires b == [] || !IsJsWhitespace(b[0])
    ensures SkipWhitespace(w + b) == b
    decreases |w|
  {
    if w == [] {
      assert w + b == b;
    } else {
      DropFirstOfConcat(w, b);
      SkipWhitespaceRun(w[1..], b);
    }
  }

  /** A maximal run of whitespace between `a` and `b` becomes a single `_`,
      and the text around it is sanitized on its own. */
  lemma {:induction false} SanitizeRun(a: string, w: string, b: string)
    requires w != [] && AllWhitespace(w)
    requires a == [] || !IsJsWhitespace(a[|a| - 1])
    requires b == [] || !IsJsWhitespace(b[0])
    ensures SanitizeName(a + w + b) == SanitizeName(a) + "_" + SanitizeName(b)
    decreases |a|
  {
    if a == [] {
      assert a + w + b == w + b;
      DropFirstOfConcat(w, b);
      SkipWhitespaceRun(w[1..], b);
    } else if IsJsWhitespace(a[0]) {
      var skipped := SkipWhitespace(a[1..]);
      SanitizeRun(skipped, w, b);
      SanitizeRunSpaceFirst(a, w, b);
    } else {
      SanitizeRun(a[1..], w, b);
      SanitizeRunPlainFirst(a, w, b);
    }
  }

  lemma SanitizeRunSpaceFirst(a: string, w: string, b: string)
    requires a != [] && IsJsWhitespace(a[0]) && !IsJsWhitespace(a[|a| - 1])
    requires var skipped := SkipWhitespace(a[1..]);
      SanitizeName(skipped + w + b) == SanitizeName(skipped) + "_" + SanitizeName(b)
    ensures SanitizeName(a + w + b) == SanitizeName(a) + "_" + SanitizeName(b)
  {
    var skipped := SkipWhitespace(a[1..]);
    SkipPastLeadingSpace(a, w + b);
    SanitizeUnfoldSpace(a + (w + b));
    ConcatAssoc2(skipped, w, b);
    ConcatAssoc2(a, w, b);
    ConcatAssoc3("_", SanitizeName(skipped), "_", SanitizeName(b));
  }

  /** Skipping the whitespace after a leading space of `a` reaches into `t`
      only through what `a` has left. */
  lemma SkipPastLeadingSpace(a: string, t: string)
    requires a != [] && IsJsWhitespace(a[0]) && !IsJsWhitespace(a[|a| - 1])
    ensures a + t != [] && (a + t)[0] == a[0]
    ensures SkipWhitespace((a + t)[1..]) == SkipWhitespace(a[1..]) + t
  {
    DropFirstOfConcat(a, t);
    SkipWhitespaceAppend(a[1..], t);
  }

  lemma SanitizeUnfoldSpace(s: string)
    requires s != [] && IsJsWhitespace(s[0])
    ensures SanitizeName(s) == "_" + SanitizeName(SkipWhitespace(s[1..]))
  {
  }

  lemma ConcatAssoc2(p: string, q: string, r: string)
    ensures p + (q + r) == p + q + r
  {
  }

  lemma SanitizeRunPlainFirst(a: string, w: string, b: string)
    requires a != [] && !IsJsWhitespace(a[0])
    requires SanitizeName(a[1..] + w + b) == SanitizeName(a[1..]) + "_" + SanitizeName(b)
    ensures SanitizeName(a + w + b) == SanitizeName(a) + "_" + SanitizeName(b)
  {
    ConcatAssoc2(a, w, b);
    DropFirstOfConcat(a, w + b);
    ConcatAssoc2(a[1..], w, b);
    SanitizeUnfoldPlain(a + (w + b));
    SanitizeUnfoldPlain(a);
    ConcatAssoc3([a[0]], SanitizeName(a[1..]), "_", SanitizeName(b));
  }

  lemma SanitizeUnfoldPlain(s: string)
    requires s != [] && !IsJsWhitespace(s[0])
    ensures SanitizeName(s) == [s[0]] + SanitizeName(s[1..])
  {
  }

  lemma ConcatAssoc3(p: string, q: string, r: string, t: string)
    ensures p + (q + r + t) == (p + q) + r + t
  {
  }
}
