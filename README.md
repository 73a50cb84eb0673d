# Seminar filtering pipeline, modelled in Dafny

This project models the core of a digital-signage feed for a seminar programme. An exported
schedule spreadsheet becomes a seven-column display snapshot
(`Title_Original, Title, Speaker, Date, Date_Formatted, Time, Location`). The pipeline exists
in two versions, and both are modelled:

- **The upload server** (`admin_server.py`). It checks the extension of an uploaded file and
  picks a sheet from an ordered list of preferred names. It computes the Monday-to-Sunday week
  of "now" and parses dates by trying four formats in order. It then walks the rows one at a
  time:
  - rows with no case-insensitive `website` tag are dropped;
  - then rows whose date does not parse;
  - a date that parses to `NaT` makes the week test raise, and the whole upload fails;
  - then rows dated outside the week;
  - then rows whose `HH:MM` start time has already passed.

  The survivors are projected to snapshot records and the run reports
  `(success, message, count)`.
- **The scheduled export filter** (`filter_seminarier.py`). It converts the date columns and
  computes a Monday-to-Friday window that rolls over to next week from Friday on. The filter
  keeps rows inside the window, not yet started, and tagged `website`. The filter then adds
  these columns:
  - a speaker scraped from the HTML description;
  - `HH:MM` start and end times;
  - a title without its `WS`/`Workshop`/`Seminar` prefix;
  - a display date.

  It sorts the rows by start date and time and renames the selected columns.

Modules:

- `Text`: Python string operations.
  - `find`, `in`, `rsplit` and the first piece of `split`.
  - `strip`, `lstrip` and `rstrip`, using Python's `isspace` set.
  - `split()`, `" ".join`, `str(n)` and `f"{n:02d}"`.
- `Clock`: dates as `date.toordinal()` numbers them, instants in microseconds, and the weekday.
- `Cells`: the data-frame cells, rows and tables, and the snapshot record. It also has `Lib`, a
  record of the foreign library calls, passed in as plain functions.
- `AdminServer` and `FilterSeminarier`: the two pipelines.

Calls into code that is not modelled are parameters. These are `pd.to_datetime`,
`html.unescape`, `str()` of a non-text cell, `date.isoformat`, `strftime` and
`str.capitalize`, and the text of the `TypeError` pandas raises when a date is compared
with `NaT`. The wall clock is the parameter `now`.

The operations that work step by step are methods, each proved equal to a specification
function, and everything else that is proved is stated about those functions:

- `process_excel_to_csv`, with its row loop `FilterWeek` and its sheet loop `SelectSheet`;
- `parse_date`, with its loop over the date formats;
- `extract_speaker`, a sequence of index and text reassignments without a loop;
- `main`, split as `SelectRows`, `AddColumns` and `FilterExport`, with the column loops
  `SpeakerColumn` and `TimeColumn`.

Behaviour of the code that is easy to miss, and that the model keeps:

- **The export filter's tag test.** It is `str.contains('website')`, which is case-sensitive
  and false for a missing tag, unlike the upload server's test on the lower-cased tag.
- **An empty filter result in the export filter.** It is an error unless the start-time
  column as read has dtype `object`. `Series.apply` on no rows keeps the input's dtype, and
  `Time_Start + '-'` raises on an empty `timedelta64` or `float64` column, so the run ends in
  the `except` and writes nothing. With an `object` column it writes an empty snapshot.
- **A `NaT` date in the upload server.** `pd.to_datetime` returns `NaT` for empty and `NaT`-like
  text without raising, so `parse_date` returns it from the first format. It is not `None`, and
  comparing it with the week's dates raises, which fails the whole upload.
- **Sheet names.** The upload server tries exactly
  `Data, data, Seminars, seminars, Program, program`.
- **An empty workbook.** It takes the error path `"Error processing file: list index out of range"`.

## Model

| member | source | states |
|---|---|---|
| AdminServer.AllowedFileSpec | admin_server.py:29-30 | a name is accepted exactly when it has a last `.` after which the lower-cased text is `xlsx` or `xls` |
| AdminServer.LastDotUnique | admin_server.py:30 | `rsplit('.', 1)` splits at the one last `.`: any position holding a `.` with none after it is the one `LastIndexOf` finds |
| AdminServer.WeekStart | admin_server.py:33-37 | the week start is a Monday, on or at most six days before today |
| AdminServer.WeekEnd | admin_server.py:40-43 | the week end is the Sunday six days after the start; start <= today <= end and the span is 7 days |
| AdminServer.FirstFormatWins | admin_server.py:53-57 | the formats yield nothing exactly when every one raises; otherwise the first that does not raise gives its result, a date or `NaT` |
| AdminServer.ParseDate | admin_server.py:46-67 | the loop returns exactly `ParsedDate`: `None` for a missing value; for text, the result of the first format that does not raise, and the generic parser only when all four raise; anything else goes to the generic parser; an exception of the generic parser gives `None` |
| AdminServer.FirstPresentSpec | admin_server.py:81-84 | the preferred-name search finds nothing exactly when no preferred name is present; otherwise it returns the first one present |
| AdminServer.ChosenSheetSpec | admin_server.py:80-88 | the chosen sheet is the first preferred name present, otherwise the first sheet; there is none only for a workbook without sheets, and a chosen name always belongs to the workbook |
| AdminServer.SelectSheet | admin_server.py:80-88 | the sheet-choosing loop returns exactly `ChosenSheet` |
| AdminServer.SelectedTableSpec | admin_server.py:86-90 | a table is read exactly when the workbook has a sheet |
| AdminServer.SurvivorsSpec | admin_server.py:103-144 | the records the row loop collects are exactly the admitted rows, projected, in source order: one record per kept position, positions strictly increasing, each naming an admitted row, and every admitted row kept |
| AdminServer.KeptPositionsSound | admin_server.py:103-135 | every kept position is in range and names a row that passes all four tests, and the positions strictly increase |
| AdminServer.KeptPositionsComplete | admin_server.py:103-135 | every row that passes all four tests is kept |
| AdminServer.SurvivorsAtKept | admin_server.py:136-144 | the j-th record is the projection of the row at the j-th kept position, with that row's date parsed |
| AdminServer.EmittedRows | admin_server.py:105-144 | every emitted record comes from a row whose lower-cased tag contains `website`, whose date parses and lies in the week inclusive; it has `Title_Original == Title` (the source title), the ISO form of that date, and the raw time |
| AdminServer.UnusableTimeKept | admin_server.py:121-133 | a tagged row dated inside the week is never dropped for its time when that time is empty, `nan` or does not parse as `HH:MM` before the first `-` |
| AdminServer.StartsBeforeNowByDay | admin_server.py:121-131 | the future-only rule never drops a row dated after today, and drops a row dated before today exactly when its time is neither empty nor `nan` and parses |
| AdminServer.RowCases | admin_server.py:103-133 | a row skipped for its tag or for having no date is neither admitted nor raising; a tagged row whose date is `NaT` raises; a tagged row with a date is admitted exactly when the date is in the week and the future-only rule keeps it |
| AdminServer.NoRowRaisesSpec | admin_server.py:103-118 | the row-by-row account of the rows that do not raise agrees with "no row raises" |
| AdminServer.SurvivorsStep | admin_server.py:103-144 | one more row either appends its record or leaves the output unchanged, according to whether it is admitted, and adds to the rows that do not raise exactly when it does not raise |
| AdminServer.FilterWeek | admin_server.py:103-144 | the row loop with its early `continue`s stops with no result exactly when some tagged row's date is `NaT`, and otherwise builds exactly `Survivors` |
| AdminServer.ProcessExcelToCsv | admin_server.py:70-157 | outcome rules: an empty workbook gives the index-error outcome; an empty table gives `(False, "Excel file is empty", 0)`; a `NaT` date on a tagged row gives `(False, "Error processing file: " + the TypeError's text, 0)`; no survivors give `(False, "No seminars found …", 0)` and no snapshot; otherwise `(True, "Successfully processed n seminars", n)` and the snapshot is exactly the survivors, with n their number |
| FilterSeminarier.StripTagsSpec | filter_seminarier.py:45 | after `re.sub(r'<[^>]+>', '', s)` no substring matching `<[^>]+>` remains |
| FilterSeminarier.StripTagsNoClose | filter_seminarier.py:45 | tag removal brings in no `>` |
| FilterSeminarier.TagFreeCons | filter_seminarier.py:45 | a character put in front of a tag-free text keeps it tag-free unless it is a `<` that a later `>` closes |
| FilterSeminarier.TagFreeWindow | filter_seminarier.py:43-47 | cutting a window out of a tag-free text keeps it tag-free |
| FilterSeminarier.StripTagsKeepsPlain | filter_seminarier.py:45 | a leading stretch without `<` is kept as it is, in front of what the rest becomes |
| FilterSeminarier.StripTagsPlain | filter_seminarier.py:45 | a text without `<` is left unchanged |
| FilterSeminarier.StripTagsDropsTag | filter_seminarier.py:45 | a leading `<[^>]+>` match is removed whole and the text after it is treated on its own |
| FilterSeminarier.StripTagsKeepsLoneOpen | filter_seminarier.py:45 | a `<` that starts no match is kept as an ordinary character |
| FilterSeminarier.ScanWindowSpec | filter_seminarier.py:28-41 | the scan starts after the `>` closing the first `<br` after the marker, or right after the marker when that `<br` or its `>` is missing; it ends at the next `<br`, or 200 characters on |
| FilterSeminarier.DetaggedSpec | filter_seminarier.py:43-47 | before the final whitespace collapse the speaker text has no tag and no newline |
| FilterSeminarier.StripTagFree | filter_seminarier.py:43-47 | `strip()` keeps a tag-free text tag-free |
| FilterSeminarier.StripLacks | filter_seminarier.py:47 | `strip()` adds no character |
| FilterSeminarier.Tidy | filter_seminarier.py:43-49 | the cleaned speaker text has normal spacing (no leading, trailing or double whitespace, no newline) and keeps every non-whitespace character of the detagged first line, in order |
| FilterSeminarier.SpeakerFromText | filter_seminarier.py:28-52 | the result has normal spacing and is empty when `<b>Speaker</b>` does not occur |
| FilterSeminarier.SpeakerLine | filter_seminarier.py:28-49 | for a description laid out as the heading, `<br/>`, a line without `<`, then `<br` and anything, the speaker is that line, tidied |
| FilterSeminarier.DetaggedPlain | filter_seminarier.py:43-47 | a line without `<` or newline that neither starts nor ends with whitespace comes through the clean-up unchanged |
| FilterSeminarier.SpeakerExample | filter_seminarier.py:17-52 | `<b>Speaker</b><br/>Jane Doe, MIT<br/>Abstract...` gives the speaker `Jane Doe, MIT` |
| FilterSeminarier.SpeakerOf | filter_seminarier.py:22-23 | the result is empty for a missing or falsy description and always has normal spacing |
| FilterSeminarier.ExtractSpeaker | filter_seminarier.py:17-52 | the index-arithmetic body returns exactly `SpeakerOf`, with normal spacing |
| FilterSeminarier.FormatSecondsSpec | filter_seminarier.py:63-65 | the minutes field is a two-digit numeral below 60 with that value; for s >= 0, hours*3600 + minutes*60 = s - s % 60 |
| FilterSeminarier.FormatSecondsRoundTrip | filter_seminarier.py:62-65 | below 100 hours the text is exactly `HH:MM`, both fields are digits, and reading them back gives the seconds rounded down to the minute |
| FilterSeminarier.FormatTimeSpec | filter_seminarier.py:58-65 | a missing value gives `""`; a non-negative duration gives `HH:MM` from its truncated second count; any other value raises |
| FilterSeminarier.SeparatorRun | filter_seminarier.py:76 | `[,:\s]+` consumes exactly the leading run of separators |
| FilterSeminarier.PrefixMatch | filter_seminarier.py:76 | the regex match has length 0 exactly when no alternative followed by a separator starts the title; otherwise it is an alternative plus all of the separator run after it |
| FilterSeminarier.StripTitlePrefixSpec | filter_seminarier.py:74-77 | the cleaned title is a suffix of the trimmed title; it is unchanged exactly when no prefix followed by a separator starts it; otherwise the one matching prefix is removed with every separator after it, and the result does not start with a separator |
| FilterSeminarier.CleanTitleSpec | filter_seminarier.py:67-77 | a missing title gives ""; any other title gives a suffix of its trimmed text; the result never starts or ends with whitespace |
| FilterSeminarier.TitlePrefixesExclusive | filter_seminarier.py:76 | at most one of `WS`, `Workshop`, `Seminar` can start a title |
| FilterSeminarier.WindowSpec | filter_seminarier.py:125-135 | the window starts on a Monday at midnight and ends that Friday at 23:59:59; from Monday to Thursday it is this week and contains now; from Friday to Sunday it is next week and starts one to three days later |
| FilterSeminarier.Where | filter_seminarier.py:142-147 | a row is kept exactly when its start date is a timestamp within the window and not before now, and its `Tag(s)` is text containing `website` (case-sensitive; a missing tag is excluded) |
| FilterSeminarier.WhereAppend | filter_seminarier.py:142-147 | the mask decides row by row: filtering a concatenation filters each part and keeps the parts in order, so the selected rows stay in source order |
| FilterSeminarier.WhereSingle | filter_seminarier.py:142-147 | one row is kept exactly when it is wanted |
| FilterSeminarier.WhereCount | filter_seminarier.py:142-147 | each wanted row is kept once per occurrence, and no other row is kept |
| FilterSeminarier.KeyOrder | filter_seminarier.py:171 | the (Start date, Start time) order with missing values last is a total preorder |
| FilterSeminarier.InsertPermutes | filter_seminarier.py:171 | insertion keeps the rows plus the new one |
| FilterSeminarier.InsertSorted | filter_seminarier.py:171 | insertion keeps a sorted sequence sorted |
| FilterSeminarier.InsertStable | filter_seminarier.py:171 | insertion puts the new row, which comes first in the input, before every row with the same key, and keeps those rows in order |
| FilterSeminarier.SortRowsSpec | filter_seminarier.py:171 | the sort orders by (Start date, Start time), is a permutation, and keeps rows with the same key in their original order |
| FilterSeminarier.Project | filter_seminarier.py:174-185 | each snapshot field, in order, is the cell that `Title, Title_Clean, Speaker, Start date, Date_Display, Time_Display, Room location` names |
| FilterSeminarier.ProjectEnriched | filter_seminarier.py:157-185 | the enriched row, projected, is the display record: `Time = Time_Start + "-" + Time_End`, cleaned title, scraped speaker, display date |
| FilterSeminarier.ProjectedSortPermutes | filter_seminarier.py:171-185 | sorting before the projection changes only the order of the records |
| FilterSeminarier.EnrichedKey | filter_seminarier.py:157-168 | the columns added before the sort leave each row's (Start date, Start time) key unchanged |
| FilterSeminarier.InsertEnriched | filter_seminarier.py:157-171 | inserting an enriched row among enriched rows gives the enriched rows of the insertion |
| FilterSeminarier.SortEnriched | filter_seminarier.py:157-171 | sorting after adding the columns gives the same rows, in the same order, as adding them after sorting |
| FilterSeminarier.ProjectEnrichAll | filter_seminarier.py:157-185 | the selected, renamed columns of the enriched rows are their display records, row by row |
| FilterSeminarier.EarlyFault | filter_seminarier.py:121-147 | a run that fails before the filter reports the first required column that is missing, a date column that does not convert, or a tag column that is not text |
| FilterSeminarier.LateFault | filter_seminarier.py:157-181 | a run that fails after the filter reports the first missing column it reads, a time column with a value that is not a duration, or, when no row passed, a start-time column whose dtype `+ '-'` refuses |
| FilterSeminarier.FirstFaultSpec | filter_seminarier.py:115-185 | the fault reported is of one of those kinds, with the column it names |
| FilterSeminarier.EmptySelection | filter_seminarier.py:150-162 | with every column present and no row passing the filter, the run writes exactly when the start-time column as read has dtype `object`, and otherwise fails at `Time_Start + '-'` |
| FilterSeminarier.SpeakerColumn | filter_seminarier.py:157 | the speaker column holds `extract_speaker` of each row's description |
| FilterSeminarier.TimeColumn | filter_seminarier.py:160-161 | the time column is produced exactly when every value formats, and then holds each row's `HH:MM` |
| FilterSeminarier.SelectRows | filter_seminarier.py:117-147 | the filter is reached exactly when the date and tag columns are present and usable, and then yields the rows the mask keeps; otherwise the early fault is reported |
| FilterSeminarier.AddColumns | filter_seminarier.py:155-168 | either the first late fault is reported, or every column read is present, both time columns format, an empty selection has an `object` start-time column, and each row gains its speaker, times, cleaned title and display date |
| FilterSeminarier.FilterExport | filter_seminarier.py:115-188 | a snapshot is written exactly when the run cannot raise; it is then the display records of the kept rows sorted by (Start date, Start time), stably, so one record per kept row, in start-date order; otherwise the first fault is reported and nothing is written |
| Text.CollapseSpec | filter_seminarier.py:49 | `" ".join(s.split())` has normal spacing and keeps every non-whitespace character, in order |
| Text.Pad2 | filter_seminarier.py:65 | `f"{n:02d}"` is exactly two digits for 0 <= n < 100, at least two digits with value n for n >= 0, and a sign and digits for n < 0 |
| Text.Find | filter_seminarier.py:29-39 | `str.find` returns the first occurrence at or after the start, or -1 when there is none |
| Text.BeforeFirst | filter_seminarier.py:47 | `split(c)[0]` is the prefix before the first `c` and holds no `c` |
| Text.StripWindow | filter_seminarier.py:43 | `strip()` cuts a window out of its argument, and everything cut off is whitespace |
| Text.StripKeeps | filter_seminarier.py:43 | `strip()` leaves a text that neither starts nor ends with whitespace unchanged |
| Text.WordsCons | filter_seminarier.py:49 | `split()` of a word, a space and more text is that word followed by the split of the rest |
| Text.WordsSingle | filter_seminarier.py:49 | `split()` of a single word is that word |
| Text.CollapseThree | filter_seminarier.py:49 | three words joined by single spaces come through `" ".join(s.split())` unchanged |

## Left out

- The HTTP side is not modelled: the Flask routes, `deploy_to_railway` with its git and
  subprocess calls, `server.py` and `analyze_excel.py`. It is I/O and transport.
- `find_latest_export_file` is not modelled. It is a file-system glob.
- Excel reading is not modelled. A workbook is a list of named tables, and `FilterExport` takes
  the sheet it reads as a table.
- CSV writing and its encodings are not modelled. A snapshot is the returned sequence of
  records. The progress and preview `print` output is left out as well.
- The foreign calls stay abstract. These are pandas' date parsing, `html.unescape`, `str()` of a
  non-text cell, `date.isoformat`, the locale-dependent `strftime('%A %d %b')` and
  `str.capitalize`.
- The wall clock is one parameter `now`. `ProcessExcelToCsv` assumes that the three
  `datetime.now()` reads in `process_excel_to_csv` see the same instant.
- `str.lower()` is modelled for ASCII letters only. In `clean_title`, `re.IGNORECASE` also
  matches the four non-ASCII letters that fold to `i`, `s` or `k`.
- `TotalSeconds`: `int(td.total_seconds())` is modelled as exact truncation of the microsecond
  count. The floating-point rounding of very large durations is not modelled.
- `TextColumn`: the `.str` accessor's dtype inference is approximated. A column is accepted
  when it is empty or holds at least one text cell.
- A failure of `pd.to_datetime` is modelled per cell. The model does not capture how pandas
  chooses one format for a whole column.
- `ObjectColumn`: pandas' dtype inference for a column as read is approximated by the kinds of
  value the column holds. A frame with no rows is taken to have `object` columns.
- `ProcessExcelToCsv`: the model takes pandas 2's behaviour, where ordering a `datetime.date`
  against `NaT` raises `TypeError`. The exception's text is the parameter `natDateError`.
- `Tidy`: tag-freedom is proved for the speaker text before the final whitespace collapse
  (`DetaggedSpec`). It is not re-proved after the collapse.
- The row-level code paths that only catch exceptions (`except: pass` around the time parse)
  are modelled as `parseClock` returning `None`.
