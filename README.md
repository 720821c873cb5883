# Hatim schedule core in Dafny

A model of the core of *hatim_olusturucu*, a web app that splits a reading
of the Qur'an (a *hatim*) among participants over a range of days. Three
parts are modelled:

- the page and date arithmetic of `hatimUtils` and `dateUtils`: where each
  participant starts, which pages they read on which day, the days of a date
  range, and how a date and its weekday are written;
- the `useHatim` store: the list of the user's schedules, the four operations
  that change it after a backend call, and the page statistics of a
  participant list;
- the export service: which schedules it refuses, the table it lays out for
  the spreadsheet and the PDF, the PDF page size and the download file name.

Files, one module each:

- `wrappers.dfy` — `Option` and `Result`.
- `strings.dfy` — `String(n)`, `padStart(2, '0')` and the `\s` class of
  JavaScript regular expressions.
- `calendar.dfy` — whole days since 1970-01-01 mapped to (year, month, day) of
  the proleptic Gregorian calendar, and `getDay`'s weekday.
- `format_utils.dfy` — `getPersonStartPage`, `getDayRange`,
  `getDatesInRange`, `formatToLocale`, `formatDayName`.
- `use_hatim.dfy` — `hatims` as a class field with the `loadAll`,
  `createHatim`, `updateHatim` and `deleteHatim` methods; `calculateStats`.
- `export_utils.dfy` — `excel` and `pdf` up to the point where the table,
  the page size and the file name are handed to the file encoders.

Two behaviours of the code are worth stating plainly:

- `getDayRange` moves a participant forward by `dayIndex * pages` with no
  reduction modulo the page total, so late days run past the end of the
  text.
- `calculateStats` sums the page counts once; it does not count completed
  cycles.

The `hatimService` calls are parameters. Each is a function from the
arguments the source passes to an outcome: `Done(data)`, or `Failed` for a
call that throws. `authService.getCurrentUser` is not a parameter: the
signed-in user enters as its `id`, or `None` when nobody is signed in, and
that id is what `getAllByUser` and the new record's `user_id` receive.

## Model

| member | source | states |
|---|---|---|
| Strings.NatToDecimal | src/utils/formatUtils.js:5-6 | `String(n)` of a non-negative integer below 10^21 is a non-empty string of digits, with no leading zero unless `n` is 0, and one character exactly when `n < 10` |
| Strings.DecimalRoundTrip | src/utils/formatUtils.js:5-6 | reading back the digits of `String(n)` gives `n` |
| Strings.IntToString | src/utils/exportUtils.js:88-90 | `String(i)` is non-empty, starts with '-' exactly when `i` is negative and with a digit otherwise, and has only digits after its first character |
| Strings.IntToStringReadsBack | src/utils/exportUtils.js:88-90 | `String(i)` / `toString()` of an integer of magnitude below 2^53 reads back as `i`: digits for `i >= 0`, a '-' then the digits of `-i` otherwise |
| Strings.IntToStringInjective | src/utils/formatUtils.js:7-8 | different integers are written differently |
| Strings.SignedPrefixUnique | src/utils/exportUtils.js:93 | a string that starts with `String(a)` and a '-' splits only one way: the first '-' after the sign ends the number |
| Strings.PadStartZeros | src/utils/formatUtils.js:5-6 | `padStart(width, '0')` keeps the string as its suffix, fills the front with zeros, and is `max(len, width)` long |
| Strings.TwoDigits | src/utils/formatUtils.js:5-6 | a day or month below 100 padded to two places is two digits that read back as the number |
| Calendar.CivilFromDays | src/utils/formatUtils.js:4-7 | the (year, month, day) of a day number has month 1..12 and day 1..31, and maps back to that day number, so distinct days get distinct dates |
| Calendar.EpochIsThursday | src/utils/formatUtils.js:4-13 | day 0 is 1 January 1970, a Thursday (`getDay` 4) |
| Calendar.DayBeforeEpoch | src/utils/formatUtils.js:4-7 | day -1 is 31 December 1969 |
| Calendar.LeapDay2000 | src/utils/formatUtils.js:4-7 | day 11016 is 29 February 2000 |
| Calendar.NewYear2024 | src/utils/formatUtils.js:4-13 | day 19723 is 1 January 2024, a Monday (`getDay` 1) |
| Calendar.LeapDay2024 | src/utils/formatUtils.js:4-7 | day 19782 is 29 February 2024 |
| Calendar.Weekday | src/utils/formatUtils.js:13 | `getDay` is in 0..6 |
| Calendar.WeekdayShift | src/utils/formatUtils.js:13 | `k` days later is `k` places further round the week, modulo 7 |
| FormatUtils.TotalPagesAppend | src/utils/formatUtils.js:33-35 | adding one participant adds their `pages \|\| 0` to the sum |
| FormatUtils.TotalPagesNonNegative | src/utils/formatUtils.js:33-35 | with no negative page count the sum of `pages \|\| 0` is not negative |
| FormatUtils.GetPersonStartPage | src/utils/formatUtils.js:31-37 | the loop's result is 1 plus the pages (`\|\| 0`) of the participants before `index`; index 0 gives 1 |
| FormatUtils.StartPageStep | src/utils/formatUtils.js:33-35 | participant `k + 1` starts `pages_k` after participant `k` |
| FormatUtils.StartPageMonotone | src/utils/formatUtils.js:31-37 | with no negative page counts, a later participant never starts earlier |
| FormatUtils.DayRange | src/utils/formatUtils.js:39-45 | a day's range is defined exactly when the page count is, and covers `pages` pages (`end == start + pages - 1`, so 0 pages gives `end == start - 1`) |
| FormatUtils.DaysAreAdjacent | src/utils/formatUtils.js:40-43 | day 0 starts at the participant's start page, and each day starts right after the previous day ends |
| FormatUtils.ParticipantsAdjacentOnDayZero | src/utils/formatUtils.js:33-43 | on day 0, participant `i` ends right before participant `i + 1` starts |
| FormatUtils.DayZeroEndsAtTotal | src/utils/formatUtils.js:33-43 | on day 0 the last participant ends at the total page count |
| FormatUtils.EachPageOnOneDay | src/utils/formatUtils.js:42-43 | with at least one page a day, every page from the start page on is read on exactly one day, `(q - start) / pages`: no gap, no overlap, no wrap |
| FormatUtils.DatesInRange | src/utils/formatUtils.js:16-27 | empty exactly when a date is missing or invalid or the range runs backwards; otherwise `end - start + 1` days from `start` to `end`, each one more than the last |
| FormatUtils.GetDatesInRange | src/utils/formatUtils.js:16-27 | the `while` loop pushing `cur` and stepping one day builds exactly `DatesInRange` |
| FormatUtils.FormatToLocale | src/utils/formatUtils.js:2-9 | an empty argument gives `''`, an unparsable one `NaN.NaN.NaN`, and a day at least seven characters with dots at positions 2 and 5 |
| FormatUtils.FormatCivilReadsBack | src/utils/formatUtils.js:5-8 | the written date is two digits of day, '.', two digits of month, '.', then `String(year)`, and each field reads back as its value |
| FormatUtils.FormatToLocaleInjective | src/utils/formatUtils.js:2-9 | two days are written the same only when they are the same day |
| FormatUtils.FormatDayName | src/utils/formatUtils.js:11-14 | the name is the table entry of `getDay`'s weekday (0 is PAZAR), one of the seven names |
| FormatUtils.DayNamesFollowWeek | src/utils/formatUtils.js:12-13 | the name of day `n + k` is the table entry `k` places after day `n`'s, and names repeat every seven days |
| FormatUtils.WeekNamesDistinct | src/utils/formatUtils.js:12-13 | within seven consecutive days no name repeats |
| UseHatim.IndexOf | src/composables/useHatim.js:57 | `findIndex`: -1 exactly when no record has the id, otherwise a position holding the id with none before it |
| UseHatim.IndexOfFirst | src/composables/useHatim.js:57 | the first position holding the id is the one `findIndex` returns |
| UseHatim.Merge | src/composables/useHatim.js:58 | `{...h, ...updates}` has the fields of both; fields of `updates` win and the other fields of `h` are kept |
| UseHatim.Updated | src/composables/useHatim.js:57-58 | the list after an update is as long as before, and is unchanged when no record has the id |
| UseHatim.Without | src/composables/useHatim.js:67 | the filtered list is no longer than the list and holds no record with the id |
| UseHatim.DefaultName | src/composables/useHatim.js:36 | `name \|\| 'Yeni Hatim'` is never empty, is the given name when that is non-empty, and is `Yeni Hatim` when the name is missing or empty |
| UseHatim.NewHatim | src/composables/useHatim.js:35-42 | the record sent on creation has exactly the six fields, the default name, empty dates, no participants, the given creation time, the user's id and no id of its own |
| UseHatim.HatimStore.constructor | src/composables/useHatim.js:8 | the list starts empty |
| UseHatim.HatimStore.LoadAll | src/composables/useHatim.js:12-20 | without a user, or when the fetch fails, the list is unchanged; otherwise it is the fetched list |
| UseHatim.HatimStore.CreateHatim | src/composables/useHatim.js:31-52 | without a user or on failure it returns None and the list is unchanged; on success the stored record goes in front of the old list and its id is returned |
| UseHatim.HatimStore.UpdateHatim | src/composables/useHatim.js:54-62 | on success the list becomes `Updated(old, id, updates)`; on failure it is unchanged |
| UseHatim.HatimStore.DeleteHatim | src/composables/useHatim.js:64-71 | on success the list becomes `Without(old, id)`; on failure it is unchanged |
| UseHatim.UpdatedEntries | src/composables/useHatim.js:57-58 | an update keeps the length; the first record with the id becomes its merge with `updates`, and every other record stays |
| UseHatim.UpdateAbsentId | src/composables/useHatim.js:57-58 | updating an id no record holds changes nothing |
| UseHatim.UpdateIdempotent | src/composables/useHatim.js:54-62 | applying an update that keeps the id twice is applying it once |
| UseHatim.WithoutAppend | src/composables/useHatim.js:67 | filtering distributes over concatenation, so the kept records stay in order |
| UseHatim.WithoutKeepsOthers | src/composables/useHatim.js:67 | a record without the id occurs as often after the delete as before |
| UseHatim.DeleteAbsentId | src/composables/useHatim.js:67 | deleting an id no record holds changes nothing |
| UseHatim.DeleteIdempotent | src/composables/useHatim.js:64-71 | deleting twice is deleting once |
| UseHatim.DeleteUndoesCreate | src/composables/useHatim.js:44-71 | deleting a just-created record, whose id was new, gives back the list as it was before the creation |
| UseHatim.UpdateAfterCreate | src/composables/useHatim.js:44-62 | updating a just-created record changes only the front of the list |
| UseHatim.DeleteAfterUpdate | src/composables/useHatim.js:54-71 | deleting after an update that keeps the id is the same as deleting alone |
| UseHatim.CalculateStats | src/composables/useHatim.js:73-78 | total is the sum of page counts (null list as empty); `total + remaining == MAX_PAGES`, with `remaining` negative exactly when total exceeds it; `percentage * MAX_PAGES == 100 * total`; 100% exactly when nothing remains |
| UseHatim.PercentageOfMax | src/composables/useHatim.js:76 | `(total / MAX_PAGES) * 100` times `MAX_PAGES` is `100 * total`, and is 100 exactly when `total == MAX_PAGES` |
| UseHatim.RemainingMatchesDayZero | src/composables/useHatim.js:74-75 | the pages still unassigned are `MAX_PAGES` minus where the last participant's day 0 ends |
| ExportUtils.Excel | src/utils/exportUtils.js:14-57 | refuses an empty participant list, then a missing date, then an empty range, in that order; otherwise gives the table `ExcelTable` and the file name `SanitizeName(name) + ".xlsx"` |
| ExportUtils.RangeText | src/utils/exportUtils.js:39 | `${start}-${end}` is `NaN-NaN` exactly when the page count is undefined |
| ExportUtils.RangeTextInjective | src/utils/exportUtils.js:39 | two different day ranges are never written the same |
| ExportUtils.ExcelTable | src/utils/exportUtils.js:29-42 | the sheet has the two header rows and one row per participant |
| ExportUtils.PushDates | src/utils/exportUtils.js:25 | the `forEach` pushes one formatted date per day onto the row |
| ExportUtils.PushDayNames | src/utils/exportUtils.js:27 | the `forEach` pushes one day name per day onto the row |
| ExportUtils.PushRanges | src/utils/exportUtils.js:37-40 | the inner `forEach` pushes `start-end` of `getDayRange` for each day |
| ExportUtils.ExcelHeaderLayout | src/utils/exportUtils.js:24-30 | the sheet has `2 + \|participants\|` rows; the header rows are `3 + \|dates\|` wide, titles or blanks followed by each date and its day name |
| ExportUtils.ExcelRowLayout | src/utils/exportUtils.js:35-41 | row `2 + i` is `i + 1`, the name, the page count, then day `d`'s `start-end`, `3 + \|dates\|` cells in all |
| ExportUtils.ExcelDateHeadingsDistinct | src/utils/exportUtils.js:25 | no two date headings of the sheet are equal |
| ExportUtils.TableWidth | src/utils/exportUtils.js:65-69 | the table is at least the 135 points of its three fixed columns, and the rest is 55 points for each day, so the day count can be read back from the width |
| ExportUtils.PageWidth | src/utils/exportUtils.js:65-70 | `pageW` is at least 2000 and at least `tableWidth + 80`, and equals one of them |
| ExportUtils.PageHeight | src/utils/exportUtils.js:71 | `pageH` is at least 595 and at least `15 * participants + 200`, and equals one of them |
| ExportUtils.PageSizeThresholds | src/utils/exportUtils.js:69-71 | the width stays 2000 exactly up to 32 days, the height stays 595 exactly up to 26 participants |
| ExportUtils.Pdf | src/utils/exportUtils.js:61-110 | refuses only an empty participant list up front and throws on a participant without a page count; otherwise gives the page size, the title, `PdfTable` over the (possibly empty) range and `SanitizeName(name) + ".pdf"` |
| ExportUtils.PdfParticipantRows | src/utils/exportUtils.js:86-96 | one row per participant in order, or the error at a missing page count |
| ExportUtils.PdfTable | src/utils/exportUtils.js:73-96 | the PDF body has the two header rows and one row per participant |
| ExportUtils.PdfHeaderLayout | src/utils/exportUtils.js:73-84 | the PDF body has `2 + \|participants\|` rows; the header rows are `3 + \|dates\|` wide, the second starting with three empty cells |
| ExportUtils.PdfRowLayout | src/utils/exportUtils.js:86-95 | row `2 + i` is the position and page count as text around the name, then day `d`'s `start-end` |
| ExportUtils.ExportsAgreeOnRanges | src/utils/exportUtils.js:35-96 | where both exports succeed, their participant rows show the same day ranges |
| ExportUtils.SkipWhitespace | src/utils/exportUtils.js:57 | the rest of a `\s+` run is dropped: what follows does not start with whitespace |
| ExportUtils.SanitizeName | src/utils/exportUtils.js:57 | the file name is never longer than the schedule name, and is empty exactly when the name is |
| ExportUtils.SanitizeLeavesNoWhitespace | src/utils/exportUtils.js:57 | `name.replace(/\s+/g, '_')` leaves no whitespace and is never longer than the name |
| ExportUtils.SanitizeKeepsPlainName | src/utils/exportUtils.js:57 | a name without whitespace is kept as it is |
| Strings.WhitespaceClass | src/utils/exportUtils.js:57 | `_` and the digits are not matched by `\s`; a space and a no-break space are |
| ExportUtils.SanitizeIdempotent | src/utils/exportUtils.js:110 | sanitizing twice is sanitizing once |
| ExportUtils.SanitizeRun | src/utils/exportUtils.js:57 | each maximal whitespace run becomes a single `_`, the text on either side sanitized on its own |

## Left out

- JavaScript `Date`: time zones, daylight saving in `setDate`, and the parsing of date strings. A date is a whole day number, or blank, or unparsable (`NaN`).
- `Calendar.CivilFromDays`: its contract bounds the day by 31, not by the month's length. The round trip through `DaysFromCivil` still makes the date unique.
- Page counts are whole numbers or absent. The model does not cover strings, fractions, or `parseInt` in `calculateStats` reading a numeric string. For whole numbers below 10^21 `parseInt(p.pages) || 0` and `p.pages || 0` agree.
- Numbers: the source computes with JavaScript doubles and the model's integers are exact. The two agree while every page count, page number, position and sum (src/utils/formatUtils.js:34, :42; src/utils/exportUtils.js:88) stays below 2^53, and `String` writes plain digits below 10^21; beyond that the source rounds and writes exponents, which the model does not.
- `FormatUtils.GetPersonStartPage` requires `index <= |ps|`: past the end the source reads `.pages` of an undefined element and throws a TypeError, which the model does not produce. Every caller in the source passes an index of the list.
- A `null` page count or date: the model has undefined (`None`, `Blank`) only. An absent `participants` field is the empty list.
- `FormatUtils.DayRange`: a `null` page count makes `d * null` zero, so the source gives `start..start-1` on every day; the model has no `null` page count and gives `NaN-NaN` only for an undefined one.
- `FormatUtils.DatesInRange`: `new Date(null)` is 1 January 1970, so `pdf` with a `null` start date lists every day from 1970 to the end date; the model has no `null` date and gives no days for a blank one.
- `authService.getCurrentUser` throwing: it is awaited outside the `try` in `loadAll` and `createHatim` (src/composables/useHatim.js:13, 32), so the error would propagate to the caller; the model takes the user id as given.
- `UseHatim.CalculateStats`: `percentage` is an exact real, not a floating-point value.
- `MAX_PAGES`: its constants module is not part of this model, so it is a parameter required to be positive.
- `loadHatim`: it passes the backend's answer through and does not touch the list.
- Asynchrony: each store operation is one atomic step over a given backend outcome. Interleaved calls and the sharing of the module-level list are not modelled.
- Console logging of caught errors is not modelled.
- The clock: `new Date().toISOString()` in `createHatim` is the timestamp parameter `now`.
- ExcelJS, pdfMake and the DOM: worksheet creation, merged cells, styling, fonts, colours, buffers, blobs and the download click. A cell's text and a PDF cell's `text` are modelled; its styling keys are not.
- `hatimService`, `authService`/`useAuth`, the router and the build configuration: foreign calls or plumbing, outside the core.
- `ExportUtils.Excel`: the page-count cell is the raw `p.pages` (a number or nothing); any other type the field could hold is not modelled.
